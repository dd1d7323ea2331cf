/** The hooked malloc, free and realloc of malloc_hole_hook.c, called by any number of
    threads. A call is split where another thread can run: around the real allocator call
    and around each critical section of the live table. The table's sections behave as
    LiveTable.Shard proves: a removal is exact and an insertion may fail. */
module HookProtocol {
  import opened Wrappers
  import LiveTable

  /** Where a thread is between the parts of a hooked call. */
  datatype Control =
    | Idle
    | Fresh(p: nat, requested: nat)
    | Releasing(p: nat)
    | Detached(p: nat, size: nat, tracked: Option<nat>, asked: nat)
    | Restoring(p: nat, tracked: Option<nat>, asked: nat)

  /** The allocator's live addresses, the addresses the client may release with the size it
      last asked for, the table, and for each of those addresses whether its latest
      insertion succeeded. */
  datatype State = State(
    heap: set<nat>, live: map<nat, nat>, table: map<nat, nat>, inserted: set<nat>,
    controls: seq<Control>)

  predicate Trackable(p: nat) {
    p > LiveTable.TOMBSTONE
  }

  function At(s: State, t: nat, c: Control): State
    requires t < |s.controls|
  {
    s.(controls := s.controls[t := c])
  }

  /** The real allocation of malloc, calloc and the aligned calls. */
  predicate Allocate(s: State, s': State, t: nat, p: nat, requested: nat)
    requires t < |s.controls|
  {
    && s.controls[t].Idle? && Trackable(p) && p !in s.heap
    && s' == At(s, t, Fresh(p, requested)).(heap := s.heap + {p})
  }

  /** record_successful_allocation, then the hook returns the address. */
  predicate Record(s: State, s': State, t: nat, ok: bool)
    requires t < |s.controls|
  {
    var c := s.controls[t];
    && c.Fresh?
    && LiveTable.Inserted(s.table, s'.table, c.p, c.requested, ok)
    && s' == At(s, t, Idle).(table := s'.table, live := s.live[c.p := c.requested],
                             inserted := if ok then s.inserted + {c.p} else s.inserted - {c.p})
  }

  /** free: record_free_allocation. The client only releases what it holds. */
  predicate RecordFree(s: State, s': State, t: nat, p: nat)
    requires t < |s.controls|
  {
    && s.controls[t].Idle? && p in s.live
    && s' == At(s, t, Releasing(p)).(live := s.live - {p}, table := s.table - {p})
  }

  /** free: the real release. */
  predicate Release(s: State, s': State, t: nat)
    requires t < |s.controls|
  {
    s.controls[t].Releasing? && s' == At(s, t, Idle).(heap := s.heap - {s.controls[t].p})
  }

  /** realloc: detach_live_allocation. */
  predicate Detach(s: State, s': State, t: nat, p: nat, size: nat)
    requires t < |s.controls|
  {
    && s.controls[t].Idle? && p in s.live
    && var tracked := if p in s.table then Some(s.table[p]) else None;
       s' == At(s, t, Detached(p, size, tracked, s.live[p]))
               .(live := s.live - {p}, table := s.table - {p})
  }

  /** realloc: the real call moves or resizes the object, fails and keeps it, or releases
      it. */
  predicate Reallocate(s: State, s': State, t: nat, q: nat)
    requires t < |s.controls|
  {
    var c := s.controls[t];
    && c.Detached?
    && if q != 0 then
         && Trackable(q) && q !in s.heap - {c.p}
         && s' == At(s, t, Fresh(q, c.size)).(heap := s.heap - {c.p} + {q})
       else if c.size != 0 then s' == At(s, t, Restoring(c.p, c.tracked, c.asked))
       else s' == At(s, t, Idle).(heap := s.heap - {c.p})
  }

  /** realloc: restore_detached_allocation after a failure; the old object stays live. */
  predicate Restore(s: State, s': State, t: nat, ok: bool)
    requires t < |s.controls|
  {
    var c := s.controls[t];
    && c.Restoring?
    && (if c.tracked.Some? then
          LiveTable.Inserted(s.table, s'.table, c.p, c.tracked.value, ok)
        else !ok && s'.table == s.table)
    && s' == At(s, t, Idle).(table := s'.table, live := s.live[c.p := c.asked],
                             inserted := if ok then s.inserted + {c.p} else s.inserted - {c.p})
  }

  ghost predicate StepOf(s: State, s': State, t: nat)
    requires t < |s.controls|
  {
    || (exists p, requested :: Allocate(s, s', t, p, requested))
    || (exists ok :: Record(s, s', t, ok))
    || (exists p :: RecordFree(s, s', t, p))
    || Release(s, s', t)
    || (exists p, size :: Detach(s, s', t, p, size))
    || (exists q :: Reallocate(s, s', t, q))
    || (exists ok :: Restore(s, s', t, ok))
  }

  ghost predicate Step(s: State, s': State) {
    exists t: nat :: t < |s.controls| && StepOf(s, s', t)
  }

  // ------------------------------------------------------------------------ invariant

  /** The address a thread has in transit. */
  function Transit(c: Control): Option<nat> {
    if c.Idle? then None else Some(c.p)
  }

  predicate TransitOk(s: State, t: nat)
    requires t < |s.controls|
  {
    var c := s.controls[t];
    && (Transit(c).Some? ==>
          c.p in s.heap && c.p !in s.live && c.p !in s.table && Trackable(c.p))
    && ((c.Detached? || c.Restoring?) && c.tracked.Some? ==> c.tracked.value == c.asked)
  }

  predicate Apart(s: State, t: nat, u: nat)
    requires t < |s.controls| && u < |s.controls|
  {
    t != u && Transit(s.controls[t]).Some? ==>
      Transit(s.controls[t]) != Transit(s.controls[u])
  }

  ghost predicate Inv(s: State) {
    && (forall p | p in s.live :: p in s.heap && Trackable(p))
    && (forall p | p in s.table :: p in s.live && s.table[p] == s.live[p])
    && (forall p | p in s.live :: p in s.table <==> p in s.inserted)
    && (forall t | 0 <= t < |s.controls| :: TransitOk(s, t))
    && (forall t, u | 0 <= t < |s.controls| && 0 <= u < |s.controls| :: Apart(s, t, u))
  }

  /** Objects allocated before the hook was ready are live but in no table. */
  predicate Initial(s: State) {
    && (forall p | p in s.live :: p in s.heap && Trackable(p))
    && s.table == map[] && s.inserted == {}
    && forall t | 0 <= t < |s.controls| :: s.controls[t].Idle?
  }

  lemma KeepTransit(s: State, s': State, t: nat, u: nat)
    requires t < |s.controls| && u < |s.controls| && StepOf(s, s', t)
    requires TransitOk(s, t) && TransitOk(s, u) && Apart(s, t, u)
    requires forall p | p in s.live :: p in s.heap && Trackable(p)
    requires forall p | p in s.table :: p in s.live && s.table[p] == s.live[p]
    ensures |s'.controls| == |s.controls| && TransitOk(s', u)
  {}

  lemma KeepApart(s: State, s': State, t: nat, u: nat, v: nat)
    requires Inv(s) && t < |s.controls| && StepOf(s, s', t)
    requires u < |s.controls| == |s'.controls| && v < |s.controls|
    ensures Apart(s', u, v)
  {
    assert TransitOk(s, u) && TransitOk(s, v) && Apart(s, u, v);
  }

  lemma KeepTable(s: State, s': State, t: nat)
    requires Inv(s) && t < |s.controls| && StepOf(s, s', t)
    ensures forall p | p in s'.live :: p in s'.heap && Trackable(p)
    ensures forall p | p in s'.table :: p in s'.live && s'.table[p] == s'.live[p]
    ensures forall p | p in s'.live :: p in s'.table <==> p in s'.inserted
  {
    assert TransitOk(s, t);
  }

  lemma StepKeeps(s: State, s': State)
    requires Inv(s) && Step(s, s')
    ensures Inv(s')
  {
    var t: nat :| t < |s.controls| && StepOf(s, s', t);
    hide StepOf;
    KeepTable(s, s', t);
    assert TransitOk(s, t) && Apart(s, t, t);
    KeepTransit(s, s', t, t);
    forall u | 0 <= u < |s'.controls| ensures TransitOk(s', u) {
      assert TransitOk(s, u) && Apart(s, t, u);
      KeepTransit(s, s', t, u);
    }
    forall u, v | 0 <= u < |s'.controls| && 0 <= v < |s'.controls| ensures Apart(s', u, v) {
      KeepApart(s, s', t, u, v);
    }
  }

  ghost predicate IsRun(run: seq<State>) {
    |run| > 0 && Initial(run[0]) && forall i | 0 <= i < |run| - 1 :: StepAt(run, i)
  }

  ghost predicate StepAt(run: seq<State>, i: nat)
    requires i + 1 < |run|
  {
    Step(run[i], run[i + 1])
  }

  lemma {:induction false} RunInv(run: seq<State>, i: nat)
    requires IsRun(run) && i < |run|
    ensures Inv(run[i])
  {
    if i > 0 {
      RunInv(run, i - 1);
      assert StepAt(run, i - 1);
      StepKeeps(run[i - 1], run[i]);
    }
  }

  /** Whatever the interleaving, an insertion never meets its own pointer, so the shard's
      precondition always holds and each pointer has at most one entry. */
  lemma InsertsAreNew(run: seq<State>, i: nat, t: nat)
    requires IsRun(run) && i < |run| && t < |run[i].controls|
    requires run[i].controls[t].Fresh? || run[i].controls[t].Restoring?
    ensures run[i].controls[t].p !in run[i].table && Trackable(run[i].controls[t].p)
  {
    RunInv(run, i);
    assert TransitOk(run[i], t);
  }

  /** A release finds its entry exactly when the latest insertion of that pointer succeeded,
      and the entry then carries the size last asked for. */
  lemma ReleaseFindsEntry(run: seq<State>, i: nat, p: nat)
    requires IsRun(run) && i < |run| && p in run[i].live
    ensures p in run[i].table <==> p in run[i].inserted
    ensures p in run[i].table ==> run[i].table[p] == run[i].live[p]
  {
    RunInv(run, i);
  }

  /** The table names only addresses that are allocated, not being released, and held. */
  lemma TableIsLive(run: seq<State>, i: nat, p: nat, t: nat)
    requires IsRun(run) && i < |run| && p in run[i].table && t < |run[i].controls|
    ensures p in run[i].heap && p in run[i].live && Transit(run[i].controls[t]) != Some(p)
  {
    RunInv(run, i);
    assert TransitOk(run[i], t);
  }

  // -------------------------------------------------------------- calls that go unrecorded

  /** free while the hook records nothing: the entry stays in the table. */
  predicate SkipFree(s: State, s': State, t: nat, p: nat)
    requires t < |s.controls|
  {
    && s.controls[t].Idle? && p in s.live
    && s' == At(s, t, Releasing(p)).(live := s.live - {p})
  }

  /** realloc while the hook records nothing. */
  predicate SkipDetach(s: State, s': State, t: nat, p: nat, size: nat)
    requires t < |s.controls|
  {
    && s.controls[t].Idle? && p in s.live
    && s' == At(s, t, Detached(p, size, None, s.live[p])).(live := s.live - {p})
  }

  predicate SkipOf(s: State, s': State, t: nat, p: nat, size: nat)
    requires t < |s.controls|
  {
    SkipFree(s, s', t, p) || SkipDetach(s, s', t, p, size)
  }

  /** An unrecorded release is harmless if and only if its address is in no table; then it
      does what a recorded one does. */
  lemma SkipIsHarmless(s: State, s': State, t: nat, p: nat, size: nat)
    requires Inv(s) && t < |s.controls| && SkipOf(s, s', t, p, size)
    ensures Inv(s') <==> p !in s.table
    ensures p !in s.table ==> Step(s, s')
  {
    if p in s.table {
      assert Transit(s'.controls[t]) == Some(p) && p in s'.table;
      assert !TransitOk(s', t);
    } else {
      assert s.table - {p} == s.table;
      assert RecordFree(s, s', t, p) || Detach(s, s', t, p, size);
      assert StepOf(s, s', t);
      StepKeeps(s, s');
    }
  }

  /** The step releases an object without taking its entry out. */
  ghost predicate Loses(s: State, s': State) {
    exists t: nat, p: nat, size: nat ::
      t < |s.controls| && SkipOf(s, s', t, p, size) && p in s.table
  }

  ghost predicate WindowStep(s: State, s': State) {
    || Step(s, s')
    || exists t: nat, p: nat, size: nat :: t < |s.controls| && SkipOf(s, s', t, p, size)
  }

  ghost predicate WindowStepAt(run: seq<State>, i: nat)
    requires i + 1 < |run|
  {
    WindowStep(run[i], run[i + 1])
  }

  /** Runs in which the hook may miss calls. Allocations it misses are covered already: an
      insertion may fail. */
  ghost predicate IsWindowRun(run: seq<State>) {
    |run| > 0 && Initial(run[0]) && forall i | 0 <= i < |run| - 1 :: WindowStepAt(run, i)
  }

  ghost predicate LosesAt(run: seq<State>, i: nat)
    requires i + 1 < |run|
  {
    Loses(run[i], run[i + 1])
  }

  lemma {:induction false} NothingLost(run: seq<State>, n: nat)
    requires IsWindowRun(run) && n < |run| && forall i | 0 <= i < n :: !LosesAt(run, i)
    ensures Inv(run[n])
  {
    if n > 0 {
      NothingLost(run, n - 1);
      assert WindowStepAt(run, n - 1) && !LosesAt(run, n - 1);
      var s, s' := run[n - 1], run[n];
      if Step(s, s') {
        StepKeeps(s, s');
      } else {
        var t: nat, p: nat, size: nat :| t < |s.controls| && SkipOf(s, s', t, p, size);
        SkipIsHarmless(s, s', t, p, size);
      }
    }
  }

  /** Every entry names an address that is held, with the size last asked for. */
  predicate Right(s: State) {
    forall p | p in s.table :: p in s.live && s.table[p] == s.live[p]
  }

  /** The table is right throughout a run if and only if no release of an object that has an
      entry goes unrecorded. */
  lemma RightUnlessLost(run: seq<State>)
    requires IsWindowRun(run)
    ensures (forall i | 0 <= i < |run| :: Right(run[i]))
            <==> forall i | 0 <= i < |run| - 1 :: !LosesAt(run, i)
  {
    if forall i | 0 <= i < |run| - 1 :: !LosesAt(run, i) {
      forall n | 0 <= n < |run| ensures Right(run[n]) {
        NothingLost(run, n);
      }
    } else {
      var i :| 0 <= i < |run| - 1 && LosesAt(run, i);
      var t: nat, p: nat, size: nat :|
        t < |run[i].controls| && SkipOf(run[i], run[i + 1], t, p, size) && p in run[i].table;
      assert p in run[i + 1].table && !Right(run[i + 1]);
    }
  }

  /** One thread allocates address 16, releases it unrecorded and allocates it again: the
      table still names it when the second insertion is about to run. */
  lemma StaleEntry() returns (run: seq<State>)
    ensures IsWindowRun(run)
    ensures var s := run[|run| - 1]; s.controls == [Fresh(16, 8)] && 16 in s.table
  {
    hide WindowStep, StepOf;
    var s0 := State({}, map[], map[], {}, [Idle]);
    var s1 := At(s0, 0, Fresh(16, 8)).(heap := s0.heap + {16});
    var s2 := At(s1, 0, Idle).(table := s1.table[16 := 8], live := s1.live[16 := 8],
                               inserted := s1.inserted + {16});
    var s3 := At(s2, 0, Releasing(16)).(live := s2.live - {16});
    var s4 := At(s3, 0, Idle).(heap := s3.heap - {16});
    var s5 := At(s4, 0, Fresh(16, 8)).(heap := s4.heap + {16});
    run := [s0, s1, s2, s3, s4, s5];
    ByThread(s0, s1, 16, 8, true);
    ByThread(s1, s2, 16, 8, true);
    BySkip(s2, s3, 16);
    ByThread(s3, s4, 16, 8, true);
    ByThread(s4, s5, 16, 8, true);
    forall i | 0 <= i < |run| - 1 ensures WindowStepAt(run, i) {
    }
  }

  lemma ByThread(s: State, s': State, p: nat, requested: nat, ok: bool)
    requires |s.controls| > 0
    requires Allocate(s, s', 0, p, requested) || Record(s, s', 0, ok) || Release(s, s', 0)
    ensures WindowStep(s, s')
  {
    assert StepOf(s, s', 0);
  }

  lemma BySkip(s: State, s': State, p: nat)
    requires |s.controls| > 0 && SkipFree(s, s', 0, p)
    ensures WindowStep(s, s')
  {
    assert SkipOf(s, s', 0, p, 0);
  }
}
