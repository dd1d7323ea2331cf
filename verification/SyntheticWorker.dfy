/** worker_main of synthetic_mstress_runtime.c for one worker: phases drawn by quota, frees
    put into debt when there is nothing to free, debts settled at the end. What other threads
    and the allocator do is arbitrary; a run that does not fail makes exactly the profiled
    calls and publishes exactly the profiled routes. */
module SyntheticWorker {
  import opened Wrappers
  import opened QuotaArithmetic

  const FREE: nat := 1
  const REALLOC: nat := 3
  const FREE_SIZED: nat := 4

  /** ThreadPhaseModel with its routes. */
  datatype Model = Model(
    counts: seq<nat>, remoteFree: nat, remotePublish: nat, reallocNull: nat,
    routes: seq<Route>)

  function FreeTotal(m: Model): nat
    requires |m.counts| == FUNCTION_COUNT
  {
    m.counts[FREE] + m.counts[FREE_SIZED]
  }

  predicate IsAllocation(f: nat) {
    f != FREE && f != FREE_SIZED
  }

  /** Allocation calls among the first n functions. */
  function AllocSum(counts: seq<nat>, n: nat): nat
    requires n <= |counts|
  {
    if n == 0 then 0
    else AllocSum(counts, n - 1) + if IsAllocation(n - 1) then counts[n - 1] else 0
  }

  /** What the profile generator guarantees of a phase. */
  predicate WellFormed(m: Model, threads: nat) {
    && |m.counts| == FUNCTION_COUNT
    && m.remotePublish <= AllocSum(m.counts, FUNCTION_COUNT)
    && m.remoteFree <= FreeTotal(m) && m.reallocNull <= m.counts[REALLOC]
    && RouteTotal(m.routes) == m.remotePublish
    && forall r | r in m.routes :: r.target < threads
  }

  lemma {:induction false} TargetValid(routes: seq<Route>, o: nat, threads: nat)
    requires forall r | r in routes :: r.target < threads
    requires o < RouteTotal(routes)
    ensures TargetOf(routes, o).Some? && TargetOf(routes, o).value < threads
  {
    var n := |routes| - 1;
    if o < RouteTotal(routes[..n]) {
      TargetValid(routes[..n], o, threads);
    } else {
      assert routes[n] in routes;
    }
  }

  /** The targets published so far in a phase follow the routes. */
  predicate Follows(routes: seq<Route>, targets: seq<nat>) {
    forall k | 0 <= k < |targets| :: TargetOf(routes, k) == Some(targets[k])
  }

  lemma FollowsSnoc(routes: seq<Route>, targets: seq<nat>, t: nat)
    requires Follows(routes, targets) && TargetOf(routes, |targets|) == Some(t)
    ensures Follows(routes, targets + [t])
  {}

  function CountOf(targets: seq<nat>, t: nat): nat {
    if targets == [] then 0
    else CountOf(targets[..|targets| - 1], t) + if targets[|targets| - 1] == t then 1 else 0
  }

  /** A phase that publishes all its ordinals sends every target its exact share. */
  lemma {:induction false} CountsFollow(routes: seq<Route>, targets: seq<nat>, t: nat)
    requires Follows(routes, targets)
    ensures CountOf(targets, t) == Reaching(routes, |targets|, t)
  {
    if targets != [] {
      CountsFollow(routes, targets[..|targets| - 1], t);
    }
  }

  // -------------------------------------------------------------------------- balance

  /** Calls of function f: made, owed locally, owed remotely. */
  predicate BalanceOf(counts: seq<nat>, local: seq<nat>, remote: seq<nat>, issued: seq<nat>,
                      f: nat)
    requires f < |counts| == |local| == |remote| == |issued|
  {
    && counts[f] + local[f] + remote[f] == issued[f]
    && (IsAllocation(f) ==> local[f] == 0 && remote[f] == 0)
  }

  ghost predicate Balanced(
    counts: seq<nat>, local: seq<nat>, remote: seq<nat>, received: nat,
    issued: seq<nat>, remoteIssued: nat)
  {
    && |counts| == |local| == |remote| == |issued| == FUNCTION_COUNT
    && (forall f | 0 <= f < FUNCTION_COUNT :: BalanceOf(counts, local, remote, issued, f))
    && received + remote[FREE] + remote[FREE_SIZED] == remoteIssued
  }

  function Plus(s: seq<nat>, f: nat): seq<nat>
    requires f < |s|
  {
    s[f := s[f] + 1]
  }

  function Minus(s: seq<nat>, f: nat): seq<nat>
    requires f < |s| && s[f] > 0
  {
    s[f := s[f] - 1]
  }

  /** A call is issued and made at once. */
  lemma CallMade(counts: seq<nat>, local: seq<nat>, remote: seq<nat>, received: nat,
                 issued: seq<nat>, remoteIssued: nat, f: nat)
    requires Balanced(counts, local, remote, received, issued, remoteIssued)
    requires f < FUNCTION_COUNT
    ensures Balanced(Plus(counts, f), local, remote, received, Plus(issued, f), remoteIssued)
  {
    forall g | 0 <= g < FUNCTION_COUNT
      ensures BalanceOf(Plus(counts, f), local, remote, Plus(issued, f), g)
    {
      assert BalanceOf(counts, local, remote, issued, g);
    }
  }

  lemma LocalOwed(counts: seq<nat>, local: seq<nat>, remote: seq<nat>, received: nat,
                  issued: seq<nat>, remoteIssued: nat, f: nat)
    requires Balanced(counts, local, remote, received, issued, remoteIssued)
    requires f < FUNCTION_COUNT && !IsAllocation(f)
    ensures Balanced(counts, Plus(local, f), remote, received, Plus(issued, f), remoteIssued)
  {
    forall g | 0 <= g < FUNCTION_COUNT
      ensures BalanceOf(counts, Plus(local, f), remote, Plus(issued, f), g)
    {
      assert BalanceOf(counts, local, remote, issued, g);
    }
  }

  lemma LocalPaid(counts: seq<nat>, local: seq<nat>, remote: seq<nat>, received: nat,
                  issued: seq<nat>, remoteIssued: nat, f: nat)
    requires Balanced(counts, local, remote, received, issued, remoteIssued)
    requires f < FUNCTION_COUNT && local[f] > 0
    ensures Balanced(Plus(counts, f), Minus(local, f), remote, received, issued, remoteIssued)
  {
    forall g | 0 <= g < FUNCTION_COUNT
      ensures BalanceOf(Plus(counts, f), Minus(local, f), remote, issued, g)
    {
      assert BalanceOf(counts, local, remote, issued, g);
    }
  }

  lemma RemoteOwed(counts: seq<nat>, local: seq<nat>, remote: seq<nat>, received: nat,
                   issued: seq<nat>, remoteIssued: nat, f: nat)
    requires Balanced(counts, local, remote, received, issued, remoteIssued)
    requires f < FUNCTION_COUNT && !IsAllocation(f)
    ensures Balanced(counts, local, Plus(remote, f), received, Plus(issued, f),
                     remoteIssued + 1)
  {
    forall g | 0 <= g < FUNCTION_COUNT
      ensures BalanceOf(counts, local, Plus(remote, f), Plus(issued, f), g)
    {
      assert BalanceOf(counts, local, remote, issued, g);
    }
  }

  lemma RemotePaid(counts: seq<nat>, local: seq<nat>, remote: seq<nat>, received: nat,
                   issued: seq<nat>, remoteIssued: nat, f: nat)
    requires Balanced(counts, local, remote, received, issued, remoteIssued)
    requires f < FUNCTION_COUNT && remote[f] > 0
    ensures !IsAllocation(f)
    ensures Balanced(Plus(counts, f), local, Minus(remote, f), received + 1, issued,
                     remoteIssued)
  {
    assert BalanceOf(counts, local, remote, issued, f);
    forall g | 0 <= g < FUNCTION_COUNT
      ensures BalanceOf(Plus(counts, f), local, Minus(remote, f), issued, g)
    {
      assert BalanceOf(counts, local, remote, issued, g);
    }
  }

  /** Without debts every issued call has been made. */
  lemma NoDebts(counts: seq<nat>, local: seq<nat>, remote: seq<nat>, received: nat,
                issued: seq<nat>, remoteIssued: nat)
    requires Balanced(counts, local, remote, received, issued, remoteIssued)
    requires local[FREE] == local[FREE_SIZED] == remote[FREE] == remote[FREE_SIZED] == 0
    ensures counts == issued && received == remoteIssued
  {
    forall f | 0 <= f < FUNCTION_COUNT ensures counts[f] == issued[f] {
      assert BalanceOf(counts, local, remote, issued, f);
    }
  }

  /** One look at the inbound stack while settling: an object was there, or none was and the
      count of workers that have finished generating was read next. */
  datatype Look = Found | Empty(allDone: bool)

  datatype Outcome = Paid | GivenUp | StillWaiting

  /** How the settling of remote debts goes on. */
  function Settle(looks: seq<Look>, owed: nat): Outcome {
    if owed == 0 then Paid
    else if looks == [] then StillWaiting
    else
      match looks[0]
      case Found => Settle(looks[1..], owed - 1)
      case Empty(allDone) => if allDone then GivenUp else Settle(looks[1..], owed)
  }

  function Arrivals(looks: seq<Look>): nat {
    if looks == [] then 0 else (if looks[0].Found? then 1 else 0) + Arrivals(looks[1..])
  }

  /** The look that gives up: empty, with debts left and everybody done. */
  predicate Hopeless(looks: seq<Look>, owed: nat, k: nat)
    requires k < |looks|
  {
    looks[k] == Empty(true) && Arrivals(looks[..k]) < owed
  }

  predicate AnyHopeless(looks: seq<Look>, owed: nat) {
    exists k | 0 <= k < |looks| :: Hopeless(looks, owed, k)
  }

  /** Settling gives up exactly at such a look, and otherwise ends as soon as enough objects
      have arrived. */
  lemma {:induction false} SettleMeans(looks: seq<Look>, owed: nat)
    ensures Settle(looks, owed) == GivenUp <==> AnyHopeless(looks, owed)
    ensures Settle(looks, owed) == Paid ==> Arrivals(looks) >= owed
    ensures Settle(looks, owed) == StillWaiting ==> Arrivals(looks) < owed
    decreases |looks|
  {
    if owed != 0 && looks != [] {
      var rest := looks[1..];
      var left := if looks[0].Found? then owed - 1 else owed;
      SettleMeans(rest, left);
      forall k | 0 <= k < |rest| ensures Hopeless(rest, left, k) <==> Hopeless(looks, owed, k + 1) {
        assert looks[..k + 1][1..] == rest[..k];
      }
      if looks[0] == Empty(true) {
        assert Hopeless(looks, owed, 0);
      } else {
        if k :| 0 <= k < |rest| && Hopeless(rest, left, k) {
          assert Hopeless(looks, owed, k + 1);
        }
        if k :| 0 <= k < |looks| && Hopeless(looks, owed, k) {
          assert k > 0 && Hopeless(rest, left, k - 1);
        }
      }
    }
  }

  // --------------------------------------------------------------------------- worker

  class Worker {
    const threads: nat
    var counts: seq<nat>
    var localDebt: seq<nat>
    var remoteDebt: seq<nat>
    var localCount: nat
    var deferred: nat
    var underflows: nat
    var failed: bool
    /** The targets of publish_object, in order, and the objects taken from the inbound
        stack. */
    ghost var published: seq<nat>
    ghost var received: nat

    ghost predicate Owes(issued: seq<nat>, remoteIssued: nat)
      reads this`counts, this`localDebt, this`remoteDebt, this`received
    {
      Balanced(counts, localDebt, remoteDebt, received, issued, remoteIssued)
    }

    constructor (threads: nat)
      ensures this.threads == threads && !failed && published == []
      ensures Owes(seq(FUNCTION_COUNT, _ => 0), 0)
    {
      this.threads := threads;
      var none := seq(FUNCTION_COUNT, _ => 0);
      counts, localDebt, remoteDebt := none, none, none;
      localCount, deferred, underflows, failed := 0, 0, 0, false;
      published, received := [], 0;
    }

    /** run_alloc_call; the descriptor pool may be exhausted, and a kept object reallocated
        to nothing is recycled. */
    method AllocCall(f: nat, publish: bool, target: nat, forceNull: bool,
                     exhausted: bool, released: bool,
                     ghost issued: seq<nat>, ghost remoteIssued: nat)
      requires f < FUNCTION_COUNT && IsAllocation(f) && Owes(issued, remoteIssued)
      modifies this`counts, this`localCount, this`failed, this`published
      ensures failed || Owes(Plus(issued, f), remoteIssued)
      ensures var reuse := f == REALLOC && !forceNull && old(localCount) != 0;
        && (failed <==> old(failed) || (exhausted && !reuse))
        && if exhausted && !reuse then
             && counts == old(counts) && published == old(published)
             && localCount == old(localCount)
           else
             && counts == Plus(old(counts), f)
             && published == old(published) + (if publish then [target] else [])
             && localCount == old(localCount)
                  + (if reuse then 0 else 1) - (if publish || (reuse && released) then 1 else 0)
    {
      hide Balanced;
      CallMade(counts, localDebt, remoteDebt, received, issued, remoteIssued, f);
      HasFunctions(counts, localDebt, remoteDebt, received, issued, remoteIssued);
      if f == REALLOC && !forceNull && localCount != 0 {
        counts := Plus(counts, f);
        if publish {
          localCount := localCount - 1;
          published := published + [target];
        } else if released {
          localCount := localCount - 1;
        }
        return;
      }
      if exhausted {
        failed := true;
        return;
      }
      counts := Plus(counts, f);
      if publish {
        published := published + [target];
      } else {
        localCount := localCount + 1;
      }
    }

    /** run_local_free of a drawn call. */
    method LocalFree(f: nat, ghost issued: seq<nat>, ghost remoteIssued: nat)
      requires f < FUNCTION_COUNT && !IsAllocation(f) && Owes(issued, remoteIssued)
      modifies this`counts, this`localCount, this`localDebt
      ensures Owes(Plus(issued, f), remoteIssued)
      ensures if old(localCount) == 0 then
                && localDebt == Plus(old(localDebt), f)
                && counts == old(counts) && localCount == 0
              else
                && counts == Plus(old(counts), f)
                && localDebt == old(localDebt) && localCount == old(localCount) - 1
    {
      hide Balanced;
      CallMade(counts, localDebt, remoteDebt, received, issued, remoteIssued, f);
      LocalOwed(counts, localDebt, remoteDebt, received, issued, remoteIssued, f);
      HasFunctions(counts, localDebt, remoteDebt, received, issued, remoteIssued);
      if localCount == 0 {
        localDebt := Plus(localDebt, f);
        return;
      }
      localCount := localCount - 1;
      counts := Plus(counts, f);
    }

    /** drain_local_debt: as many debts as there are local objects, free before free_sized. */
    method DrainLocal(ghost issued: seq<nat>, ghost remoteIssued: nat)
      requires Owes(issued, remoteIssued)
      modifies this`counts, this`localCount, this`localDebt
      ensures Owes(issued, remoteIssued) && |localDebt| == FUNCTION_COUNT
      ensures var owed := old(localDebt[FREE] + localDebt[FREE_SIZED]);
        var paid := if old(localCount) < owed then old(localCount) else owed;
        && localCount == old(localCount) - paid
        && localDebt[FREE] + localDebt[FREE_SIZED] == owed - paid
        && localDebt[FREE] == if paid < old(localDebt[FREE]) then old(localDebt[FREE]) - paid else 0
    {
      while localCount != 0 && (localDebt[FREE] != 0 || localDebt[FREE_SIZED] != 0)
        invariant Owes(issued, remoteIssued) && localCount <= old(localCount)
        invariant localDebt[FREE] + localDebt[FREE_SIZED] + old(localCount) - localCount
                  == old(localDebt[FREE] + localDebt[FREE_SIZED])
        invariant var paid := old(localCount) - localCount;
          localDebt[FREE] == if paid < old(localDebt[FREE]) then old(localDebt[FREE]) - paid else 0
        decreases localCount
      {
        var f := if localDebt[FREE] != 0 then FREE else FREE_SIZED;
        LocalPaid(counts, localDebt, remoteDebt, received, issued, remoteIssued, f);
        localDebt := Minus(localDebt, f);
        localCount := localCount - 1;
        counts := Plus(counts, f);
      }
    }

    /** run_remote_free; `empty` says whether the inbound stack was. */
    method RemoteFree(f: nat, empty: bool, ghost issued: seq<nat>, ghost remoteIssued: nat)
      requires f < FUNCTION_COUNT && !IsAllocation(f) && Owes(issued, remoteIssued)
      modifies this`counts, this`remoteDebt, this`deferred, this`received
      ensures Owes(Plus(issued, f), remoteIssued + 1)
      ensures if empty then
                && remoteDebt == Plus(old(remoteDebt), f) && deferred == old(deferred) + 1
                && counts == old(counts) && received == old(received)
              else
                && counts == Plus(old(counts), f) && received == old(received) + 1
                && remoteDebt == old(remoteDebt) && deferred == old(deferred)
    {
      hide Balanced;
      RemoteOwed(counts, localDebt, remoteDebt, received, issued, remoteIssued, f);
      HasFunctions(counts, localDebt, remoteDebt, received, issued, remoteIssued);
      RemotePaid(counts, localDebt, Plus(remoteDebt, f), received, Plus(issued, f),
                 remoteIssued + 1, f);
      assert Minus(Plus(remoteDebt, f), f) == remoteDebt;
      if empty {
        remoteDebt := Plus(remoteDebt, f);
        deferred := deferred + 1;
        return;
      }
      counts := Plus(counts, f);
      received := received + 1;
    }

    /** drain_one_remote */
    method DrainOneRemote(empty: bool, ghost issued: seq<nat>, ghost remoteIssued: nat)
      returns (paid: bool)
      requires Owes(issued, remoteIssued)
      modifies this`counts, this`remoteDebt, this`received
      ensures Owes(issued, remoteIssued) && |remoteDebt| == FUNCTION_COUNT
      ensures paid <==> !empty && old(remoteDebt[FREE] + remoteDebt[FREE_SIZED]) > 0
      ensures if paid then
                var f := if old(remoteDebt[FREE]) != 0 then FREE else FREE_SIZED;
                && remoteDebt == Minus(old(remoteDebt), f)
                && counts == Plus(old(counts), f) && received == old(received) + 1
              else
                remoteDebt == old(remoteDebt) && counts == old(counts) && received == old(received)
    {
      var f;
      if remoteDebt[FREE] != 0 {
        f := FREE;
      } else if remoteDebt[FREE_SIZED] != 0 {
        f := FREE_SIZED;
      } else {
        return false;
      }
      if empty {
        return false;
      }
      RemotePaid(counts, localDebt, remoteDebt, received, issued, remoteIssued, f);
      remoteDebt := Minus(remoteDebt, f);
      counts := Plus(counts, f);
      received := received + 1;
      return true;
    }

    /** The publish decision for one allocation call: whether, and to whom. */
    method DecidePublish(m: Model, allocTotal: nat, acc: nat, ordinal: nat, ghost i: nat)
      returns (acc': nat, publish: bool, target: nat)
      requires WellFormed(m, threads) && i < allocTotal && m.remotePublish <= allocTotal
      requires Accumulated(m.remotePublish, allocTotal, i, acc, ordinal)
      ensures Accumulated(m.remotePublish, allocTotal, i + 1, acc',
                          ordinal + if publish then 1 else 0)
      ensures publish ==> TargetOf(m.routes, ordinal) == Some(target) && target < threads
    {
      acc', publish, target := acc, false, 0;
      if allocTotal != 0 && m.remotePublish != 0 {
        acc', publish := Accumulate(m.remotePublish, allocTotal, acc, i, ordinal);
        if publish {
          FiresWithin(m.remotePublish, allocTotal, i + 1, acc', ordinal + 1);
          TargetValid(m.routes, ordinal, threads);
          var t := RouteTarget(m.routes, ordinal);
          target := t.value;
        }
      } else {
        NeverFires(allocTotal, i, acc, ordinal);
      }
    }

    /** The remote and realloc-null decisions have the same shape without a route. */
    method Decide(wanted: nat, slots: nat, acc: nat, ghost i: nat, ghost fired: nat)
      returns (acc': nat, fire: bool)
      requires i < slots && Accumulated(wanted, slots, i, acc, fired)
      ensures Accumulated(wanted, slots, i + 1, acc', fired + if fire then 1 else 0)
    {
      if wanted != 0 {
        acc', fire := Accumulate(wanted, slots, acc, i, fired);
      } else {
        NeverFires(slots, i, acc, fired);
        acc', fire := acc, false;
      }
    }

    /** Other threads may have pushed: pay remote debts while the stack is not empty. */
    method DrainRemote(ghost issued: seq<nat>, ghost remoteIssued: nat)
      requires Owes(issued, remoteIssued)
      modifies this`counts, this`remoteDebt, this`received
      ensures Owes(issued, remoteIssued)
    {
      var paid := true;
      while paid
        invariant Owes(issued, remoteIssued)
        decreases remoteDebt[FREE] + remoteDebt[FREE_SIZED] + if paid then 1 else 0
      {
        var empty: bool := *;
        paid := DrainOneRemote(empty, issued, remoteIssued);
      }
    }

    /** A drawn allocation call. */
    method AllocTurn(m: Model, f: nat, allocTotal: nat, publishAcc: nat, ordinal: nat,
                     reallocAcc: nat, poolLasts: bool, ghost drawn: nat,
                     ghost reallocDrawn: nat, ghost reallocFired: nat, ghost targets: seq<nat>,
                     ghost issued: seq<nat>, ghost remoteIssued: nat)
      returns (publishAcc': nat, ordinal': nat, reallocAcc': nat, ghost reallocFired': nat,
               ghost targets': seq<nat>)
      requires WellFormed(m, threads) && f < FUNCTION_COUNT && IsAllocation(f)
      requires drawn < allocTotal && m.remotePublish <= allocTotal
      requires Accumulated(m.remotePublish, allocTotal, drawn, publishAcc, ordinal)
      requires f == REALLOC ==> reallocDrawn < m.counts[REALLOC]
      requires Accumulated(m.reallocNull, m.counts[REALLOC], reallocDrawn, reallocAcc,
                           reallocFired)
      requires |targets| == ordinal && Follows(m.routes, targets)
      requires Owes(issued, remoteIssued)
      modifies this`counts, this`localCount, this`localDebt, this`failed, this`published
      ensures Accumulated(m.remotePublish, allocTotal, drawn + 1, publishAcc', ordinal')
      ensures Accumulated(m.reallocNull, m.counts[REALLOC],
                          reallocDrawn + if f == REALLOC then 1 else 0, reallocAcc',
                          reallocFired')
      ensures |targets'| == ordinal' && Follows(m.routes, targets') && targets <= targets'
      ensures old(failed) ==> failed
      ensures failed ==> old(failed) || !poolLasts
      ensures failed || Owes(Plus(issued, f), remoteIssued)
      ensures failed || published == old(published) + targets'[|targets|..]
    {
      hide Balanced, Accumulated, Follows, TargetOf;
      HasFunctions(counts, localDebt, remoteDebt, received, issued, remoteIssued);
      var publish, target, force := false, 0, false;
      publishAcc', publish, target := DecidePublish(m, allocTotal, publishAcc, ordinal, drawn);
      ordinal', targets' := ordinal, targets;
      if publish {
        FollowsSnoc(m.routes, targets, target);
        targets' := targets + [target];
        ordinal' := ordinal + 1;
      }
      reallocAcc', reallocFired' := reallocAcc, reallocFired;
      if f == REALLOC {
        reallocAcc', force := Decide(m.reallocNull, m.counts[REALLOC], reallocAcc,
                                     reallocDrawn, reallocFired);
        reallocFired' := reallocFired + if force then 1 else 0;
      }
      var exhausted: bool, released: bool := *, *;
      AllocCall(f, publish, target, force, exhausted && !poolLasts, released, issued,
                remoteIssued);
      if !failed {
        DrainLocal(Plus(issued, f), remoteIssued);
      }
    }

    /** A drawn free call: every so many are remote. */
    method FreeTurn(m: Model, f: nat, freeTotal: nat, acc: nat, ghost drawn: nat,
                    ghost fired: nat, ghost issued: seq<nat>, ghost remoteBase: nat)
      returns (acc': nat, ghost fired': nat)
      requires f < FUNCTION_COUNT && !IsAllocation(f) && drawn < freeTotal
      requires Accumulated(m.remoteFree, freeTotal, drawn, acc, fired)
      requires Owes(issued, remoteBase + fired)
      modifies this`counts, this`localCount, this`localDebt, this`remoteDebt, this`deferred
      modifies this`received
      ensures Accumulated(m.remoteFree, freeTotal, drawn + 1, acc', fired')
      ensures Owes(Plus(issued, f), remoteBase + fired')
    {
      hide Balanced, Accumulated;
      var remote: bool;
      acc', remote := Decide(m.remoteFree, freeTotal, acc, drawn, fired);
      if remote {
        var empty: bool := *;
        RemoteFree(f, empty, issued, remoteBase + fired);
        fired' := fired + 1;
      } else {
        LocalFree(f, issued, remoteBase + fired);
        fired' := fired;
      }
    }

    /** One phase of the generating loop. It fails only if the descriptors run out or another
        worker fails; a phase that does not issues exactly the profiled calls and publishes
        one object for every ordinal of its routes. */
    method RunPhase(m: Model, poolLasts: bool, othersSucceed: bool, ghost base: seq<nat>,
                    ghost remoteBase: nat)
      returns (ghost targets: seq<nat>)
      requires WellFormed(m, threads) && Owes(base, remoteBase) && |base| == FUNCTION_COUNT
      modifies this
      ensures old(failed) ==> failed
      ensures failed ==> old(failed) || !poolLasts || !othersSucceed
      ensures failed || Owes(AddCounts(base, m.counts), remoteBase + m.remoteFree)
      ensures failed || published == old(published) + targets
      ensures failed || (|targets| == m.remotePublish && Follows(m.routes, targets))
    {
      hide Balanced, Accumulated, Follows, TargetOf, Drawn, AllocDrawn, FreeDrawn, Sum, AllocSum,
           AddCounts;
      var remaining := new nat[FUNCTION_COUNT](f requires 0 <= f < FUNCTION_COUNT => m.counts[f]);
      assert remaining[..] == m.counts;
      var total := TotalCalls(m.counts);
      var allocTotal := AllocationCallCount(m.counts);
      var freeTotal := m.counts[FREE] + m.counts[FREE_SIZED];
      var publishAcc, remoteAcc, reallocAcc, ordinal := 0, 0, 0, 0;
      ghost var remoteFired, reallocFired := 0, 0;
      targets := [];
      PhaseStarts(base, m);
      while total != 0 && !failed
        invariant remaining.Length == FUNCTION_COUNT && fresh(remaining)
        invariant Progress(m, remaining[..], total)
        invariant old(failed) ==> failed
        invariant failed ==> old(failed) || !poolLasts || !othersSucceed
        invariant failed || Owes(Drawn(base, m, remaining[..]), remoteBase + remoteFired)
        invariant failed || published == old(published) + targets
        invariant |targets| == ordinal && Follows(m.routes, targets)
        invariant Accumulated(m.remotePublish, allocTotal, AllocDrawn(m, remaining[..]),
                              publishAcc, ordinal)
        invariant Accumulated(m.remoteFree, freeTotal, FreeDrawn(m, remaining[..]),
                              remoteAcc, remoteFired)
        invariant Accumulated(m.reallocNull, m.counts[REALLOC],
                              m.counts[REALLOC] - remaining[REALLOC], reallocAcc, reallocFired)
        decreases total
      {
        ghost var was := remaining[..];
        var random: nat := *;
        var f := ChooseFunction(remaining, total, random);
        DrawOne(base, m, was, total, f);
        assert remaining[..] == was[f := was[f] - 1];
        total := total - 1;
        ghost var issued := Drawn(base, m, was);
        if IsAllocation(f) {
          publishAcc, ordinal, reallocAcc, reallocFired, targets :=
            AllocTurn(m, f, allocTotal, publishAcc, ordinal, reallocAcc, poolLasts,
                      AllocDrawn(m, was), m.counts[REALLOC] - was[REALLOC], reallocFired,
                      targets, issued, remoteBase + remoteFired);
        } else {
          remoteAcc, remoteFired := FreeTurn(m, f, freeTotal, remoteAcc, FreeDrawn(m, was),
                                             remoteFired, issued, remoteBase);
        }
        if !failed {
          DrainRemote(Plus(issued, f), remoteBase + remoteFired);
        }
        var othersFailed: bool := *;
        failed := failed || (othersFailed && !othersSucceed);
      }
      if !failed {
        PhaseEnds(base, m, remaining[..], allocTotal, publishAcc, ordinal, remoteAcc, remoteFired);
      }
    }

    /** finish_debts: local debts become frees of NULL; remote debts are paid as objects
        arrive, until a look finds none and everybody done. `looks` is what the worker sees
        of the others up to some moment; if it is still waiting then, the call goes on. */
    method FinishDebts(looks: seq<Look>, ghost issued: seq<nat>, ghost remoteIssued: nat)
      returns (outcome: Outcome)
      requires Owes(issued, remoteIssued)
      modifies this`counts, this`localCount, this`localDebt, this`remoteDebt, this`received
      modifies this`underflows, this`failed
      ensures outcome == Settle(looks, old(remoteDebt[FREE] + remoteDebt[FREE_SIZED]))
      ensures outcome.Paid? ==> counts == issued && received == remoteIssued
      ensures failed <==> old(failed) || outcome.GivenUp?
      ensures var owed := old(localDebt[FREE] + localDebt[FREE_SIZED]);
        underflows == old(underflows)
          + if old(localCount) < owed then owed - old(localCount) else 0
    {
      hide Balanced;
      HasFunctions(counts, localDebt, remoteDebt, received, issued, remoteIssued);
      DrainLocal(issued, remoteIssued);
      PayLocal(FREE, issued, remoteIssued);
      PayLocal(FREE_SIZED, issued, remoteIssued);
      var i := 0;
      ghost var owed, unpaid := remoteDebt[FREE] + remoteDebt[FREE_SIZED], underflows;
      assert looks[0..] == looks;
      outcome := Paid;
      while remoteDebt[FREE] != 0 || remoteDebt[FREE_SIZED] != 0
        invariant Owes(issued, remoteIssued) && i <= |looks| && |remoteDebt| == FUNCTION_COUNT
        invariant Settle(looks, owed)
                  == Settle(looks[i..], remoteDebt[FREE] + remoteDebt[FREE_SIZED])
        invariant |localDebt| == FUNCTION_COUNT && localDebt[FREE] == localDebt[FREE_SIZED] == 0
        invariant failed == old(failed) && underflows == unpaid && outcome == Paid
        decreases |looks| - i
      {
        if i == |looks| {
          outcome := StillWaiting;
          break;
        }
        assert looks[i..][1..] == looks[i + 1..];
        var paid := DrainOneRemote(!looks[i].Found?, issued, remoteIssued);
        if !paid && looks[i].allDone {
          failed := true;
          outcome := GivenUp;
          break;
        }
        i := i + 1;
      }
      if outcome.Paid? {
        NoDebts(counts, localDebt, remoteDebt, received, issued, remoteIssued);
      }
    }

    method PayLocal(f: nat, ghost issued: seq<nat>, ghost remoteIssued: nat)
      requires f < FUNCTION_COUNT && Owes(issued, remoteIssued)
      modifies this`counts, this`localDebt, this`underflows
      ensures Owes(issued, remoteIssued) && |localDebt| == |old(localDebt)| == FUNCTION_COUNT
      ensures localDebt[f] == 0 && underflows == old(underflows) + old(localDebt[f])
      ensures forall g | 0 <= g < FUNCTION_COUNT && g != f :: localDebt[g] == old(localDebt)[g]
    {
      while localDebt[f] != 0
        invariant Owes(issued, remoteIssued) && |localDebt| == FUNCTION_COUNT
        invariant forall g | 0 <= g < FUNCTION_COUNT && g != f ::
          localDebt[g] == old(localDebt)[g]
        invariant underflows + localDebt[f] == old(underflows) + old(localDebt[f])
        decreases localDebt[f]
      {
        LocalPaid(counts, localDebt, remoteDebt, received, issued, remoteIssued, f);
        counts := Plus(counts, f);
        underflows := underflows + 1;
        localDebt := Minus(localDebt, f);
      }
    }

    /** worker_main over the phases of one wave. It fails only if the descriptors run out,
        another worker fails or the settling gives up. In a run that does neither and has
        paid its debts the worker's function counts have grown by the summed quotas, it has
        taken exactly the profiled remote frees, and each phase has published along its own
        routes. */
    method Run(models: seq<Model>, looks: seq<Look>, poolLasts: bool, othersSucceed: bool,
               ghost base: seq<nat>, ghost remoteBase: nat)
      returns (ghost targets: seq<seq<nat>>, outcome: Outcome)
      requires forall p | 0 <= p < |models| ::
        |models[p].counts| == FUNCTION_COUNT && WellFormed(models[p], threads)
      requires Owes(base, remoteBase) && |base| == FUNCTION_COUNT
      modifies this
      ensures old(failed) ==> failed
      ensures failed ==> old(failed) || !poolLasts || !othersSucceed || outcome.GivenUp?
      ensures outcome.GivenUp? ==> AnyHopeless(looks, remoteBase + Remote(models))
      ensures !failed && outcome.Paid? ==>
        counts == Issued(base, models) && received == remoteBase + Remote(models)
      ensures failed || (|targets| == |models| && published == old(published) + Flat(targets))
      ensures failed || forall p | 0 <= p < |models| && p < |targets| ::
        |targets[p]| == models[p].remotePublish && Follows(models[p].routes, targets[p])
    {
      hide Balanced, Follows, AddCounts, WellFormed, Issued, Remote, Flat, AnyHopeless;
      targets, outcome := [], Paid;
      NoPhases(base, models);
      for p := 0 to |models|
        invariant old(failed) ==> failed
        invariant failed ==> old(failed) || !poolLasts || !othersSucceed
        invariant |targets| == p
        invariant failed || Owes(Issued(base, models[..p]), remoteBase + Remote(models[..p]))
        invariant failed || published == old(published) + Flat(targets)
        invariant failed || forall q | 0 <= q < p ::
          |targets[q]| == models[q].remotePublish && Follows(models[q].routes, targets[q])
      {
        OnePhase(base, models, p);
        ghost var now := [];
        if !failed {
          now := RunPhase(models[p], poolLasts, othersSucceed, Issued(base, models[..p]),
                          remoteBase + Remote(models[..p]));
        }
        FlatSnoc(targets, now);
        targets := targets + [now];
      }
      assert models[..|models|] == models;
      if !failed {
        ghost var issued, remoteIssued := Issued(base, models), remoteBase + Remote(models);
        DebtsAreIssued(counts, localDebt, remoteDebt, received, issued, remoteIssued);
        ghost var owed := remoteDebt[FREE] + remoteDebt[FREE_SIZED];
        outcome := FinishDebts(looks, issued, remoteIssued);
        GivenUpMeans(looks, owed, remoteIssued);
      }
    }
  }

  lemma DebtsAreIssued(counts: seq<nat>, local: seq<nat>, remote: seq<nat>, received: nat,
                       issued: seq<nat>, remoteIssued: nat)
    requires Balanced(counts, local, remote, received, issued, remoteIssued)
    ensures |remote| == FUNCTION_COUNT && remote[FREE] + remote[FREE_SIZED] <= remoteIssued
  {}

  lemma GivenUpMeans(looks: seq<Look>, owed: nat, issued: nat)
    requires owed <= issued
    ensures Settle(looks, owed) == GivenUp ==> AnyHopeless(looks, issued)
  {
    SettleMeans(looks, owed);
    if k :| 0 <= k < |looks| && Hopeless(looks, owed, k) {
      assert Hopeless(looks, issued, k);
    }
  }

  lemma NoPhases(base: seq<nat>, models: seq<Model>)
    requires |base| == FUNCTION_COUNT
    ensures Issued(base, models[..0]) == base && Remote(models[..0]) == 0 && Flat([]) == []
  {}

  lemma OnePhase(base: seq<nat>, models: seq<Model>, p: nat)
    requires |base| == FUNCTION_COUNT && p < |models|
    requires forall q | 0 <= q < |models| :: |models[q].counts| == FUNCTION_COUNT
    ensures Issued(base, models[..p + 1]) == AddCounts(Issued(base, models[..p]), models[p].counts)
    ensures Remote(models[..p + 1]) == Remote(models[..p]) + models[p].remoteFree
  {
    assert models[..p + 1][..p] == models[..p];
  }

  lemma FlatSnoc(targets: seq<seq<nat>>, now: seq<nat>)
    ensures Flat(targets + [now]) == Flat(targets) + now
  {
    assert (targets + [now])[..|targets|] == targets;
  }

  function Issued(base: seq<nat>, models: seq<Model>): (issued: seq<nat>)
    requires |base| == FUNCTION_COUNT
    requires forall p | 0 <= p < |models| :: |models[p].counts| == FUNCTION_COUNT
    ensures |issued| == FUNCTION_COUNT
  {
    if models == [] then base
    else
      var n := |models| - 1;
      AddCounts(Issued(base, models[..n]), models[n].counts)
  }

  function Remote(models: seq<Model>): nat {
    if models == [] then 0
    else Remote(models[..|models| - 1]) + models[|models| - 1].remoteFree
  }

  function Flat(targets: seq<seq<nat>>): seq<nat> {
    if targets == [] then [] else Flat(targets[..|targets| - 1]) + targets[|targets| - 1]
  }

  /** What a worker's phases send to t in all, by profile. */
  function Share(models: seq<Model>, t: nat): nat {
    if models == [] then 0
    else Share(models[..|models| - 1], t) + SentTo(models[|models| - 1].routes, t)
  }

  lemma {:induction false} CountOfJoin(a: seq<nat>, b: seq<nat>, t: nat)
    ensures CountOf(a + b, t) == CountOf(a, t) + CountOf(b, t)
  {
    if b == [] {
      assert a + b == a;
    } else {
      assert (a + b)[..|a + b| - 1] == a + b[..|b| - 1];
      CountOfJoin(a, b[..|b| - 1], t);
    }
  }

  /** Exact routes: the objects a worker publishes to t are exactly its profiled share. */
  lemma {:induction false} PublishedShare(models: seq<Model>, targets: seq<seq<nat>>, t: nat)
    requires |targets| == |models|
    requires forall p | 0 <= p < |models| ::
      && RouteTotal(models[p].routes) == models[p].remotePublish == |targets[p]|
      && Follows(models[p].routes, targets[p])
    ensures CountOf(Flat(targets), t) == Share(models, t)
  {
    if models != [] {
      var n := |models| - 1;
      PublishedShare(models[..n], targets[..n], t);
      CountOfJoin(Flat(targets[..n]), targets[n], t);
      CountsFollow(models[n].routes, targets[n], t);
      RoutesExact(models[n].routes, t);
    }
  }

  // ----------------------------------------------------------------- one phase's numbers

  method TotalCalls(counts: seq<nat>) returns (total: nat)
    requires |counts| == FUNCTION_COUNT
    ensures total == Sum(counts)
  {
    total := 0;
    for f := 0 to FUNCTION_COUNT
      invariant total == Sum(counts[..f])
    {
      assert counts[..f + 1][..f] == counts[..f];
      total := total + counts[f];
    }
    assert counts[..FUNCTION_COUNT] == counts;
  }

  /** allocation_call_count */
  method AllocationCallCount(counts: seq<nat>) returns (total: nat)
    requires |counts| == FUNCTION_COUNT
    ensures total == AllocSum(counts, FUNCTION_COUNT)
  {
    total := 0;
    for f := 0 to FUNCTION_COUNT
      invariant total == AllocSum(counts, f)
    {
      if IsAllocation(f) {
        total := total + counts[f];
      }
    }
  }

  /** The quota left never exceeds the profile, and `total` is what is left. */
  ghost predicate Progress(m: Model, remaining: seq<nat>, total: nat) {
    && |m.counts| == |remaining| == FUNCTION_COUNT && total == Sum(remaining)
    && forall f | 0 <= f < FUNCTION_COUNT :: remaining[f] <= m.counts[f]
  }

  /** The calls issued before the phase and drawn so far in it. */
  function Drawn(base: seq<nat>, m: Model, remaining: seq<nat>): (issued: seq<nat>)
    requires |base| == |m.counts| == |remaining| == FUNCTION_COUNT
    requires forall f | 0 <= f < FUNCTION_COUNT :: remaining[f] <= m.counts[f]
    ensures |issued| == FUNCTION_COUNT
    ensures forall f | 0 <= f < FUNCTION_COUNT ::
      issued[f] == base[f] + m.counts[f] - remaining[f]
  {
    seq(FUNCTION_COUNT,
        f requires 0 <= f < FUNCTION_COUNT => base[f] + m.counts[f] - remaining[f])
  }

  function AddCounts(a: seq<nat>, b: seq<nat>): (c: seq<nat>)
    requires |a| == |b|
    ensures |c| == |a| && forall f | 0 <= f < |a| :: c[f] == a[f] + b[f]
  {
    seq(|a|, f requires 0 <= f < |a| => a[f] + b[f])
  }

  function AllocDrawn(m: Model, remaining: seq<nat>): int
    requires |m.counts| == |remaining| == FUNCTION_COUNT
  {
    AllocSum(m.counts, FUNCTION_COUNT) - AllocSum(remaining, FUNCTION_COUNT)
  }

  function FreeDrawn(m: Model, remaining: seq<nat>): int
    requires |m.counts| == |remaining| == FUNCTION_COUNT
  {
    FreeTotal(m) - (remaining[FREE] + remaining[FREE_SIZED])
  }

  lemma {:induction false} AllocSumDraws(s: seq<nat>, f: nat, n: nat)
    requires f < |s| && n <= |s| && s[f] > 0
    ensures AllocSum(s[f := s[f] - 1], n)
            == AllocSum(s, n) - if f < n && IsAllocation(f) then 1 else 0
  {
    if n > 0 {
      AllocSumDraws(s, f, n - 1);
    }
  }

  lemma {:induction false} AllocSumMono(a: seq<nat>, b: seq<nat>, n: nat)
    requires |a| == |b| && n <= |a| && forall f | 0 <= f < |a| :: a[f] <= b[f]
    ensures AllocSum(a, n) <= AllocSum(b, n)
  {
    if n > 0 {
      AllocSumMono(a, b, n - 1);
    }
  }

  lemma PhaseStarts(base: seq<nat>, m: Model)
    requires |base| == |m.counts| == FUNCTION_COUNT
    requires m.remotePublish <= AllocSum(m.counts, FUNCTION_COUNT)
    requires m.remoteFree <= FreeTotal(m) && m.reallocNull <= m.counts[REALLOC]
    ensures Drawn(base, m, m.counts) == base && Progress(m, m.counts, Sum(m.counts))
    ensures Follows(m.routes, [])
    ensures Accumulated(m.remotePublish, AllocSum(m.counts, FUNCTION_COUNT),
                        AllocDrawn(m, m.counts), 0, 0)
    ensures Accumulated(m.remoteFree, FreeTotal(m), FreeDrawn(m, m.counts), 0, 0)
    ensures Accumulated(m.reallocNull, m.counts[REALLOC], 0, 0, 0)
  {}

  /** Drawing function f moves exactly one of the two kinds of draws on. */
  lemma DrawOne(base: seq<nat>, m: Model, remaining: seq<nat>, total: nat, f: nat)
    requires |base| == FUNCTION_COUNT && Progress(m, remaining, total) && total > 0
    requires f < FUNCTION_COUNT && remaining[f] > 0
    ensures var next := remaining[f := remaining[f] - 1];
      && Progress(m, next, total - 1)
      && Drawn(base, m, next) == Plus(Drawn(base, m, remaining), f)
      && 0 <= AllocDrawn(m, remaining) && 0 <= FreeDrawn(m, remaining)
      && (IsAllocation(f) ==>
            && AllocDrawn(m, remaining) < AllocSum(m.counts, FUNCTION_COUNT)
            && AllocDrawn(m, next) == AllocDrawn(m, remaining) + 1
            && FreeDrawn(m, next) == FreeDrawn(m, remaining))
      && (!IsAllocation(f) ==>
            && FreeDrawn(m, remaining) < FreeTotal(m)
            && FreeDrawn(m, next) == FreeDrawn(m, remaining) + 1
            && AllocDrawn(m, next) == AllocDrawn(m, remaining))
  {
    var next := remaining[f := remaining[f] - 1];
    SumUpdate(remaining, f, remaining[f] - 1);
    AllocSumDraws(remaining, f, FUNCTION_COUNT);
    AllocSumMono(remaining, m.counts, FUNCTION_COUNT);
    AllocSumMono(next, m.counts, FUNCTION_COUNT);
  }

  lemma {:induction false} ZeroSum(s: seq<nat>, f: nat)
    requires f < |s| && Sum(s) == 0
    ensures s[f] == 0
  {
    if f < |s| - 1 {
      ZeroSum(s[..|s| - 1], f);
    }
  }

  lemma {:induction false} AllocSumZero(s: seq<nat>, n: nat)
    requires n <= |s| && forall f | 0 <= f < |s| :: s[f] == 0
    ensures AllocSum(s, n) == 0
  {
    if n > 0 {
      AllocSumZero(s, n - 1);
    }
  }

  lemma AllFired(wanted: nat, slots: nat, acc: nat, fired: nat)
    requires Accumulated(wanted, slots, slots, acc, fired)
    ensures fired == wanted
  {
    if slots > 0 {
      FiresExactly(wanted, slots, acc, fired);
    }
  }

  /** With nothing left to draw, every quota was met. */
  lemma PhaseEnds(base: seq<nat>, m: Model, remaining: seq<nat>, allocTotal: nat,
                  publishAcc: nat, ordinal: nat, remoteAcc: nat, remoteFired: nat)
    requires |base| == FUNCTION_COUNT && Progress(m, remaining, 0)
    requires allocTotal == AllocSum(m.counts, FUNCTION_COUNT)
    requires Accumulated(m.remotePublish, allocTotal, AllocDrawn(m, remaining),
                         publishAcc, ordinal)
    requires Accumulated(m.remoteFree, FreeTotal(m), FreeDrawn(m, remaining),
                         remoteAcc, remoteFired)
    ensures Drawn(base, m, remaining) == AddCounts(base, m.counts)
    ensures ordinal == m.remotePublish && remoteFired == m.remoteFree
  {
    forall f | 0 <= f < FUNCTION_COUNT ensures remaining[f] == 0 {
      ZeroSum(remaining, f);
    }
    AllocSumZero(remaining, FUNCTION_COUNT);
    AllFired(m.remotePublish, allocTotal, publishAcc, ordinal);
    AllFired(m.remoteFree, FreeTotal(m), remoteAcc, remoteFired);
  }

  lemma NeverFires(slots: nat, i: nat, acc: nat, fired: nat)
    requires Accumulated(0, slots, i, acc, fired)
    ensures Accumulated(0, slots, i + 1, acc, fired)
  {}

  lemma FiresWithin(wanted: nat, slots: nat, i: nat, acc: nat, fired: nat)
    requires Accumulated(wanted, slots, i, acc, fired) && 0 < i <= slots
    ensures fired <= wanted
  {
    if fired > wanted {
      Products(wanted, slots, i, fired);
    }
  }

  lemma Products(wanted: nat, slots: nat, i: nat, fired: nat)
    requires fired > wanted && 0 < i <= slots
    ensures fired * slots > i * wanted
  {
    assert fired * slots >= (wanted + 1) * slots;
    assert (wanted + 1) * slots == wanted * slots + slots;
    assert wanted * slots >= wanted * i;
    assert wanted * i == i * wanted;
  }

  lemma HasFunctions(counts: seq<nat>, local: seq<nat>, remote: seq<nat>, received: nat,
                     issued: seq<nat>, remoteIssued: nat)
    requires Balanced(counts, local, remote, received, issued, remoteIssued)
    ensures |counts| == |local| == |remote| == |issued| == FUNCTION_COUNT
  {}
}
