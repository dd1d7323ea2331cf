/** How many slots a compiled trace needs. A slot returns to the free list of the thread that
    ended its object, so a thread needs a new slot exactly when it has started more objects
    than it has ended and more than ever before. Starts and ends are read off the trace. */
module SlotUsage {
  import opened Wrappers
  import opened NativeFormat
  import opened TraceCompiler
  import opened TraceMeaning
  import I = NativeImage

  /** The event finds an object of the trace at its address. */
  predicate IsMatched(events: seq<Record>, e: Record) {
    (IsFreeFunction(e.func) || e.func == FUNC_REALLOC) && Holder(events, e.address).Some?
  }

  /** The event starts an object. */
  predicate Starts(events: seq<Record>, e: Record) {
    !IsFreeFunction(e.func) && e.result != 0 && !IsMatched(events, e)
  }

  /** The event ends an object, whichever thread started it. */
  predicate Ends(events: seq<Record>, e: Record) {
    IsMatched(events, e) && Retires(e)
  }

  function Change(events: seq<Record>, e: Record, t: nat): int {
    if e.tid != t then 0 else if Starts(events, e) then 1 else if Ends(events, e) then -1 else 0
  }

  /** Objects started by t less objects ended by t. */
  function Surplus(events: seq<Record>, t: nat): int {
    if events == [] then 0
    else
      var n := |events| - 1;
      Surplus(events[..n], t) + Change(events[..n], events[n], t)
  }

  /** The largest surplus of t so far, at least nothing. */
  function Peak(events: seq<Record>, t: nat): nat {
    if events == [] then 0
    else
      var before := Peak(events[..|events| - 1], t);
      if Surplus(events, t) > before then Surplus(events, t) else before
  }

  function PeakSum(events: seq<Record>, order: seq<nat>): nat {
    if order == [] then 0
    else
      var n := |order| - 1;
      PeakSum(events, order[..n]) + Peak(events, order[n])
  }

  // ---------------------------------------------------------------------- the free lists

  /** The thread's free list makes up the difference between its peak and its surplus. */
  predicate PoolOk(st: State, events: seq<Record>, t: nat) {
    |FreeList(st, t)| + Surplus(events, t) == Peak(events, t)
  }

  lemma PeakSnoc(events: seq<Record>, e: Record, t: nat)
    ensures Surplus(events + [e], t) == Surplus(events, t) + Change(events, e, t)
    ensures Peak(events + [e], t) ==
      if Surplus(events + [e], t) > Peak(events, t) then Surplus(events + [e], t)
      else Peak(events, t)
  {
    Snoc(events, e);
  }

  lemma MatchedIsLive(st: State, events: seq<Record>, r: Record)
    requires Consistent(st, events)
    ensures IsMatched(events, r) <==>
      (IsFreeFunction(r.func) || r.func == FUNC_REALLOC) && r.address in st.live
    ensures 0 !in st.live
  {
    assert LiveMatches(st, events, r.address);
    assert LiveMatches(st, events, 0);
  }

  /** A successful allocation takes a free slot, or a new one when there is none. */
  lemma ObtainSlots(st: State, r: Record, index: nat, t: nat)
    requires Obtain(st, r, index).Success?
    ensures var st1 := Obtain(st, r, index).value.0;
      && (t != r.tid || r.result == 0 ==> FreeList(st1, t) == FreeList(st, t))
      && var free, free1 := |FreeList(st, r.tid)|, |FreeList(st1, r.tid)|;
         && (r.result == 0 ==> st1.nextSlot == st.nextSlot && free1 == free)
         && (r.result != 0 && free == 0 ==> st1.nextSlot == st.nextSlot + 1 && free1 == 0)
         && (r.result != 0 && free > 0 ==> st1.nextSlot == st.nextSlot && free1 == free - 1)
  {}

  /** What a call does to the free lists and the slot counter. */
  lemma CallSlots(
    cfg: Config, st: State, events: seq<Record>, r: Record, index: nat, target: nat, t: nat)
    requires Consistent(st, events) && IsAllocatorFunction(r.func)
    requires CompileCall(cfg, st, r, index, target).Success?
    ensures var st1 := CompileCall(cfg, st, r, index, target).value.0;
      && (t != r.tid ==> FreeList(st1, t) == FreeList(st, t))
      && var free, free1 := |FreeList(st, r.tid)|, |FreeList(st1, r.tid)|;
         if Starts(events, r) then
           if free == 0 then st1.nextSlot == st.nextSlot + 1 && free1 == 0
           else st1.nextSlot == st.nextSlot && free1 == free - 1
         else
           && st1.nextSlot == st.nextSlot
           && free1 == free + if Ends(events, r) then 1 else 0
  {
    hide Consistent, Holder, Obtain, IsMatched;
    MatchedIsLive(st, events, r);
    var base := st.(hasUnknown := true,
      counts := st.counts.(unknownRealloc := st.counts.unknownRealloc + 1));
    assert FreeList(base, t) == FreeList(st, t) && FreeList(base, r.tid) == FreeList(st, r.tid);
    if !IsMatched(events, r) && !IsFreeFunction(r.func) {
      var from := if r.func == FUNC_REALLOC && r.address != 0 then base else st;
      assert Obtain(from, r, index).Success?;
      ObtainSlots(from, r, index, t);
    }
  }

  /** One allocator record: only its own thread's pool moves, and a new slot is taken exactly
      when that thread's peak rises. */
  lemma CallPool(
    cfg: Config, st: State, events: seq<Record>, r: Record, index: nat, target: nat, t: nat)
    requires Consistent(st, events) && IsAllocatorFunction(r.func)
    requires PoolOk(st, events, t) && PoolOk(st, events, r.tid)
    requires CompileCall(cfg, st, r, index, target).Success?
    ensures var st1 := CompileCall(cfg, st, r, index, target).value.0;
      && PoolOk(st1, events + [r], t)
      && (t != r.tid ==> Peak(events + [r], t) == Peak(events, t))
      && st1.nextSlot == st.nextSlot + Peak(events + [r], r.tid) - Peak(events, r.tid)
  {
    hide Consistent, CompileCall, Starts, Ends, FreeList, Surplus, Peak;
    CallSlots(cfg, st, events, r, index, target, t);
    PeakSnoc(events, r, t);
    PeakSnoc(events, r, r.tid);
    PeakIsBound(events, t);
    StartsOrEnds(events, r);
  }

  lemma StartsOrEnds(events: seq<Record>, e: Record)
    ensures !(Starts(events, e) && Ends(events, e))
  {}

  lemma {:induction false} PeakIsBound(events: seq<Record>, t: nat)
    ensures Surplus(events, t) <= Peak(events, t)
  {}

  lemma {:induction false} PeakSumStep(
    before: seq<Record>, after: seq<Record>, order: seq<nat>, t: nat)
    requires I.Distinct(order)
    requires forall u | u != t :: Peak(after, u) == Peak(before, u)
    ensures PeakSum(after, order)
            == PeakSum(before, order)
               + if t in order then Peak(after, t) - Peak(before, t) else 0
  {
    if order != [] {
      var n := |order| - 1;
      I.DistinctPrefix(order, n);
      PeakSumStep(before, after, order[..n], t);
      assert order == order[..n] + [order[n]];
    }
  }

  /** A thread that has not appeared has no surplus and no free slot. */
  lemma {:induction false} Unseen(events: seq<Record>, t: nat)
    requires forall e | e in events :: e.tid != t
    ensures Surplus(events, t) == 0 && Peak(events, t) == 0
  {
    if events != [] {
      var n := |events| - 1;
      assert events[n] in events;
      Unseen(events[..n], t);
    }
  }

  /** The number of slots is the sum of the threads' peaks, for every accepted trace. */
  lemma {:induction false} SlotsArePeaks(cfg: Config, records: seq<Record>)
    requires Compile(cfg, records).Success?
    ensures var st := Compile(cfg, records).value;
      && st.nextSlot == PeakSum(Events(records), st.order)
      && (forall t: nat :: PoolOk(st, Events(records), t))
      && forall e | e in Events(records) :: e.tid in st.order
  {
    if records != [] {
      var n := |records| - 1;
      var st, r, events := Compile(cfg, records[..n]).value, records[n], Events(records[..n]);
      SlotsArePeaks(cfg, records[..n]);
      if IsAllocatorFunction(r.func) {
        CompileConsistent(cfg, records[..n]);
        I.CompiledThreads(cfg, records[..n]);
        I.CompiledThreads(cfg, records);
        RecordSlots(cfg, st, events, r, n);
      } else {
        assert events + [] == events;
      }
    }
  }

  lemma RecordSlots(cfg: Config, st: State, events: seq<Record>, r: Record, index: nat)
    requires Consistent(st, events) && IsAllocatorFunction(r.func)
    requires st.nextSlot == PeakSum(events, st.order) && I.Distinct(st.order)
    requires forall t: nat :: PoolOk(st, events, t)
    requires forall e | e in events :: e.tid in st.order
    requires st.threads.Keys == (set t | t in st.order)
    requires CompileRecord(cfg, st, r, index).Success?
    requires I.Distinct(CompileRecord(cfg, st, r, index).value.order)
    ensures var st' := CompileRecord(cfg, st, r, index).value;
      && st'.nextSlot == PeakSum(events + [r], st'.order)
      && (forall t: nat :: PoolOk(st', events + [r], t))
      && forall e | e in events + [r] :: e.tid in st'.order
  {
    hide Consistent, CompileRecord, CompileCall, Peak, Surplus, FreeList;
    var base := Register(st, r);
    var target := Target(cfg, Elapsed(cfg, r));
    SameView(st, base, events);
    RecordIsCall(cfg, st, r, index);
    var st1 := CompileCall(cfg, base, r, index, target).value.0;
    var st' := CompileRecord(cfg, st, r, index).value;
    forall t: nat
      ensures PoolOk(st', events + [r], t)
      ensures t != r.tid ==> Peak(events + [r], t) == Peak(events, t)
    {
      assert PoolOk(st, events, t) && PoolOk(st, events, r.tid);
      SameList(st, base, t);
      SameList(st, base, r.tid);
      CallPool(cfg, base, events, r, index, target, t);
      SameList(st1, st', t);
    }
    assert PoolOk(st, events, r.tid);
    SameList(st, base, r.tid);
    CallPool(cfg, base, events, r, index, target, r.tid);
    PeakSumStep(events, events + [r], base.order, r.tid);
    if r.tid !in st.order {
      Unseen(events, r.tid);
      assert base.order[..|st.order|] == st.order;
    }
  }

  lemma SameList(st: State, st': State, t: nat)
    requires st'.available == st.available
    ensures FreeList(st', t) == FreeList(st, t)
  {}

  lemma RecordIsCall(cfg: Config, st: State, r: Record, index: nat)
    requires IsAllocatorFunction(r.func) && CompileRecord(cfg, st, r, index).Success?
    ensures var base, st' := Register(st, r), CompileRecord(cfg, st, r, index).value;
      var c := CompileCall(cfg, base, r, index, Target(cfg, Elapsed(cfg, r)));
      && c.Success? && st'.order == base.order && st'.nextSlot == c.value.0.nextSlot
      && st'.available == c.value.0.available
  {
    CallKeepsThreads(cfg, Register(st, r), r, index, Target(cfg, Elapsed(cfg, r)));
  }

  // -------------------------------------------------------------------- remote releases

  /** The event frees or reallocates an object that another thread last published. */
  predicate IsRemote(events: seq<Record>, e: Record) {
    IsMatched(events, e) && events[Holder(events, e.address).value].tid != e.tid
  }

  predicate LocalAt(events: seq<Record>, k: nat)
    requires k < |events|
  {
    !IsRemote(events[..k], events[k])
  }

  /** Every object is released by the thread that last published it. */
  predicate NoRemoteRelease(events: seq<Record>) {
    forall k | 0 <= k < |events| :: LocalAt(events, k)
  }

  function Remotes(events: seq<Record>): nat {
    if events == [] then 0
    else
      var n := |events| - 1;
      Remotes(events[..n]) + if IsRemote(events[..n], events[n]) then 1 else 0
  }

  lemma {:induction false} NoneRemote(events: seq<Record>)
    ensures Remotes(events) == 0 <==> NoRemoteRelease(events)
  {
    if events != [] {
      var n := |events| - 1;
      NoneRemote(events[..n]);
      forall k | 0 <= k < n ensures LocalAt(events[..n], k) == LocalAt(events, k) {
        assert events[..n][..k] == events[..k];
      }
      assert LocalAt(events, n) == !IsRemote(events[..n], events[n]);
    }
  }

  /** The live dictionary names the last publisher as owner. */
  lemma OwnerIsPublisher(st: State, events: seq<Record>, r: Record)
    requires Consistent(st, events) && IsMatched(events, r)
    ensures r.address in st.live
    ensures st.live[r.address].owner == events[Holder(events, r.address).value].tid
  {
    assert LiveMatches(st, events, r.address);
    assert Placed(st.ops, events, Holder(events, r.address).value);
  }

  lemma CallCounts(
    cfg: Config, st: State, events: seq<Record>, r: Record, index: nat, target: nat)
    requires Consistent(st, events) && IsAllocatorFunction(r.func)
    requires CompileCall(cfg, st, r, index, target).Success?
    ensures var c, c1 := st.counts, CompileCall(cfg, st, r, index, target).value.0.counts;
      c1.remoteFree + c1.remoteRealloc
      == c.remoteFree + c.remoteRealloc + if IsRemote(events, r) then 1 else 0
  {
    hide Consistent, Holder;
    MatchedIsLive(st, events, r);
    if IsMatched(events, r) {
      OwnerIsPublisher(st, events, r);
    }
  }

  /** The compiler's two remote counters add up to the trace's remote releases. */
  lemma {:induction false} RemotesAreCounted(cfg: Config, records: seq<Record>)
    requires Compile(cfg, records).Success?
    ensures var c := Compile(cfg, records).value.counts;
      c.remoteFree + c.remoteRealloc == Remotes(Events(records))
  {
    if records != [] {
      var n := |records| - 1;
      var st, r, events := Compile(cfg, records[..n]).value, records[n], Events(records[..n]);
      RemotesAreCounted(cfg, records[..n]);
      if IsAllocatorFunction(r.func) {
        CompileConsistent(cfg, records[..n]);
        var base := Register(st, r);
        var target := Target(cfg, Elapsed(cfg, r));
        SameView(st, base, events);
        CallKeepsThreads(cfg, base, r, n, target);
        CallCounts(cfg, base, events, r, n, target);
        Snoc(events, r);
      } else {
        assert events + [] == events;
      }
    }
  }

  /** Both counters stay zero exactly when the trace has no remote release. */
  lemma CountersTellRemotes(cfg: Config, records: seq<Record>)
    requires Compile(cfg, records).Success?
    ensures var c := Compile(cfg, records).value.counts;
      c.remoteFree == 0 && c.remoteRealloc == 0 <==> NoRemoteRelease(Events(records))
  {
    RemotesAreCounted(cfg, records);
    NoneRemote(Events(records));
  }

  // ----------------------------------------------------------------- surplus and liveness

  /** The addresses whose objects were last published by t. */
  function Owned(live: map<nat, Allocation>, t: nat): set<nat> {
    set a | a in live && live[a].owner == t
  }

  /** What a remote release moves between liveness and surplus: its own thread ends an object
      it did not own, or comes to own one it did not start; the publisher the reverse. */
  function Drift(events: seq<Record>, e: Record, t: nat): int {
    if !IsRemote(events, e) then 0
    else if t == e.tid then 1
    else if t == events[Holder(events, e.address).value].tid then -1
    else 0
  }

  function Drifts(events: seq<Record>, t: nat): int {
    if events == [] then 0
    else
      var n := |events| - 1;
      Drifts(events[..n], t) + Drift(events[..n], events[n], t)
  }

  lemma OwnedRemoved(live: map<nat, Allocation>, a: nat, t: nat)
    requires a in live
    ensures |Owned(live - {a}, t)| == |Owned(live, t)| - if live[a].owner == t then 1 else 0
  {
    assert Owned(live - {a}, t) == Owned(live, t) - {a};
  }

  lemma OwnedAdded(live: map<nat, Allocation>, a: nat, x: Allocation, t: nat)
    requires a !in live
    ensures |Owned(live[a := x], t)| == |Owned(live, t)| + if x.owner == t then 1 else 0
  {
    assert Owned(live[a := x], t) ==
           if x.owner == t then Owned(live, t) + {a} else Owned(live, t);
  }

  /** What a call does to the live dictionary. */
  lemma CallLive(
    cfg: Config, st: State, events: seq<Record>, r: Record, index: nat, target: nat)
    requires Consistent(st, events) && IsAllocatorFunction(r.func)
    requires CompileCall(cfg, st, r, index, target).Success?
    ensures var live, live1 := st.live, CompileCall(cfg, st, r, index, target).value.0.live;
      if IsMatched(events, r) then
        && !Starts(events, r) && r.address in live
        && var rest := live - {r.address};
           if Ends(events, r) then live1 == rest
           else
             var a := if r.result != 0 then r.result else r.address;
             a !in rest && a in live1 && live1 == rest[a := live1[a]] && live1[a].owner == r.tid
      else
        && !Ends(events, r)
        && if Starts(events, r) then
             && r.result !in live && r.result in live1
             && live1 == live[r.result := live1[r.result]] && live1[r.result].owner == r.tid
           else live1 == live
  {
    hide Consistent, Holder;
    MatchedIsLive(st, events, r);
  }

  lemma CallOwns(
    cfg: Config, st: State, events: seq<Record>, r: Record, index: nat, target: nat, t: nat)
    requires Consistent(st, events) && IsAllocatorFunction(r.func)
    requires CompileCall(cfg, st, r, index, target).Success?
    ensures |Owned(CompileCall(cfg, st, r, index, target).value.0.live, t)|
            == |Owned(st.live, t)| + Change(events, r, t) + Drift(events, r, t)
  {
    hide Consistent, CompileCall, Owned, Starts, Ends, IsMatched, Holder;
    StartsOrEnds(events, r);
    CallLive(cfg, st, events, r, index, target);
    var st1 := CompileCall(cfg, st, r, index, target).value.0;
    if IsMatched(events, r) {
      var rest := st.live - {r.address};
      OwnerIsPublisher(st, events, r);
      OwnedRemoved(st.live, r.address, t);
      if !Ends(events, r) {
        var a := if r.result != 0 then r.result else r.address;
        OwnedAdded(rest, a, st1.live[a], t);
      }
    } else if Starts(events, r) {
      OwnedAdded(st.live, r.result, st1.live[r.result], t);
    }
  }

  /** For every accepted trace: a thread owns its surplus, and what it took over from others
      less what others took over from it. */
  lemma {:induction false} OwnedIsSurplusAndDrift(cfg: Config, records: seq<Record>, t: nat)
    requires Compile(cfg, records).Success?
    ensures |Owned(Compile(cfg, records).value.live, t)|
            == Surplus(Events(records), t) + Drifts(Events(records), t)
  {
    if records != [] {
      var n := |records| - 1;
      var st, r, events := Compile(cfg, records[..n]).value, records[n], Events(records[..n]);
      OwnedIsSurplusAndDrift(cfg, records[..n], t);
      if IsAllocatorFunction(r.func) {
        CompileConsistent(cfg, records[..n]);
        var base := Register(st, r);
        var target := Target(cfg, Elapsed(cfg, r));
        SameView(st, base, events);
        CallKeepsThreads(cfg, base, r, n, target);
        CallOwns(cfg, base, events, r, n, target, t);
        Snoc(events, r);
      } else {
        assert events + [] == events;
      }
    }
  }

  /** After n records thread t owns as many objects as it has started and not ended. */
  predicate BalancedAt(cfg: Config, records: seq<Record>, n: nat, t: nat)
    requires n <= |records|
  {
    && Compile(cfg, records[..n]).Success?
    && |Owned(Compile(cfg, records[..n]).value.live, t)| == Surplus(Events(records[..n]), t)
  }

  ghost predicate AlwaysBalanced(cfg: Config, records: seq<Record>) {
    forall n, t: nat | 0 <= n <= |records| :: BalancedAt(cfg, records, n, t)
  }

  lemma {:induction false} NoDrift(events: seq<Record>, t: nat)
    requires NoRemoteRelease(events)
    ensures Drifts(events, t) == 0
  {
    if events != [] {
      var n := |events| - 1;
      assert LocalAt(events, n);
      LocalPrefix(events, n);
      NoDrift(events[..n], t);
    }
  }

  lemma LocalPrefix(events: seq<Record>, n: nat)
    requires NoRemoteRelease(events) && n <= |events|
    ensures NoRemoteRelease(events[..n])
  {
    forall k | 0 <= k < n ensures LocalAt(events[..n], k) {
      assert LocalAt(events, k) && events[..n][..k] == events[..k];
    }
  }

  lemma PrefixAccepted(cfg: Config, records: seq<Record>, n: nat)
    requires n <= |records| && Compile(cfg, records).Success?
    ensures Compile(cfg, records[..n]).Success?
  {
    if Compile(cfg, records[..n]).Failure? {
      FailureSticks(cfg, records, n);
    }
  }

  /** The events of a prefix of the records are a prefix of the events. */
  lemma {:induction false} EventsPrefix(records: seq<Record>, n: nat)
    requires n <= |records|
    ensures Events(records[..n]) <= Events(records)
    decreases |records|
  {
    if n < |records| {
      var m := |records| - 1;
      assert records[..m][..n] == records[..n];
      EventsPrefix(records[..m], n);
    } else {
      assert records[..n] == records;
    }
  }

  /** Exactly when surplus is liveness, for every prefix and every thread: when no object is
      released by another thread than its last publisher. The first remote release unbalances
      its own thread. */
  lemma {:induction false} SurplusIsLiveness(cfg: Config, records: seq<Record>)
    requires Compile(cfg, records).Success?
    ensures AlwaysBalanced(cfg, records) <==> NoRemoteRelease(Events(records))
  {
    if NoRemoteRelease(Events(records)) {
      forall n, t: nat | 0 <= n <= |records| ensures BalancedAt(cfg, records, n, t) {
        PrefixAccepted(cfg, records, n);
        EventsPrefix(records, n);
        LocalPrefix(Events(records), |Events(records[..n])|);
        assert Events(records)[..|Events(records[..n])|] == Events(records[..n]);
        OwnedIsSurplusAndDrift(cfg, records[..n], t);
        NoDrift(Events(records[..n]), t);
      }
    } else if AlwaysBalanced(cfg, records) {
      Unbalanced(cfg, records);
    }
  }

  lemma {:induction false} Unbalanced(cfg: Config, records: seq<Record>)
    requires Compile(cfg, records).Success? && !NoRemoteRelease(Events(records))
    ensures !AlwaysBalanced(cfg, records)
  {
    var n := |records| - 1;
    var events := Events(records[..n]);
    if !NoRemoteRelease(events) {
      Unbalanced(cfg, records[..n]);
      var k, t: nat :| 0 <= k <= n && !BalancedAt(cfg, records[..n], k, t);
      assert records[..n][..k] == records[..k];
      assert !BalancedAt(cfg, records, k, t);
    } else {
      var r := records[n];
      Snoc(events, r);
      assert Events(records) == events + [r] by {
        assert !IsAllocatorFunction(r.func) ==> events + [] == events;
      }
      OnlyLast(events, r);
      OwnedIsSurplusAndDrift(cfg, records, r.tid);
      NoDrift(events, r.tid);
      assert records[..|records|] == records;
      assert !BalancedAt(cfg, records, |records|, r.tid);
    }
  }

  lemma OnlyLast(events: seq<Record>, e: Record)
    requires NoRemoteRelease(events) && !NoRemoteRelease(events + [e])
    ensures IsRemote(events, e)
  {
    Snoc(events, e);
    var k :| 0 <= k < |events + [e]| && !LocalAt(events + [e], k);
    assert k < |events| ==> LocalAt(events, k);
  }

  // ------------------------------------------------------------------------ peak liveness

  /** The most objects thread t has had at once. */
  function PeakOwned(cfg: Config, records: seq<Record>, t: nat): nat
    requires Compile(cfg, records).Success?
  {
    var now := |Owned(Compile(cfg, records).value.live, t)|;
    if records == [] then now
    else
      var before := PeakOwned(cfg, records[..|records| - 1], t);
      if now > before then now else before
  }

  function OwnedSum(cfg: Config, records: seq<Record>, order: seq<nat>): nat
    requires Compile(cfg, records).Success?
  {
    if order == [] then 0
    else
      var n := |order| - 1;
      OwnedSum(cfg, records, order[..n]) + PeakOwned(cfg, records, order[n])
  }

  lemma {:induction false} PeakIsOwned(cfg: Config, records: seq<Record>, t: nat)
    requires Compile(cfg, records).Success? && NoRemoteRelease(Events(records))
    ensures PeakOwned(cfg, records, t) == Peak(Events(records), t)
  {
    OwnedIsSurplusAndDrift(cfg, records, t);
    NoDrift(Events(records), t);
    if records != [] {
      var n := |records| - 1;
      var r, events := records[n], Events(records[..n]);
      EventsPrefix(records, n);
      LocalPrefix(Events(records), |events|);
      PeakIsOwned(cfg, records[..n], t);
      if IsAllocatorFunction(r.func) {
        PeakSnoc(events, r, t);
      } else {
        assert events + [] == events;
        PeakIsBound(events, t);
      }
    }
  }

  /** Without remote releases the slots are the threads' peak liveness, added up. */
  lemma SlotsArePeakLiveness(cfg: Config, records: seq<Record>)
    requires Compile(cfg, records).Success? && NoRemoteRelease(Events(records))
    ensures var st := Compile(cfg, records).value;
      st.nextSlot == OwnedSum(cfg, records, st.order)
  {
    SlotsArePeaks(cfg, records);
    PeaksAreOwned(cfg, records, Compile(cfg, records).value.order);
  }

  lemma {:induction false} PeaksAreOwned(cfg: Config, records: seq<Record>, order: seq<nat>)
    requires Compile(cfg, records).Success? && NoRemoteRelease(Events(records))
    ensures PeakSum(Events(records), order) == OwnedSum(cfg, records, order)
  {
    if order != [] {
      var n := |order| - 1;
      PeaksAreOwned(cfg, records, order[..n]);
      PeakIsOwned(cfg, records, order[n]);
    }
  }
}
