/** What the compiled program does, whatever the schedule and whatever the allocator
    answers. Each theorem is about an arbitrary accepted trace and an arbitrary run of
    the protocol on its compiled operations. */
module ReplayTheorems {
  import opened Wrappers
  import opened NativeFormat
  import opened TraceCompiler
  import opened TraceMeaning
  import P = ReplayProtocol

  /** The compiler's output is a program the protocol is safe for. */
  lemma CompiledProgram(cfg: Config, records: seq<Record>)
    requires Compile(cfg, records).Success?
    ensures var st := Compile(cfg, records).value; P.Program(st.ops, st.nextSlot)
  {
    CompileConsistent(cfg, records);
    var st := Compile(cfg, records).value;
    var events := Events(records);
    forall k | 0 <= k < |st.ops|
      ensures st.ops[k].slot == SLOT_NONE || st.ops[k].slot < st.nextSlot
      ensures Placed(st.ops, events, k)
    {
      P.LastIsLast(st.ops, st.ops[k].slot, k);
    }
  }

  /** The i-th operation on a slot waits for generation i - 1 and publishes i. */
  lemma {:induction false} GenerationsCount(ops: seq<Op>, slot: nat)
    requires Chained(ops) && slot != SLOT_NONE
    ensures match LastOn(ops, slot)
      case None => CountOn(ops, slot) == 0
      case Some(j) => CountOn(ops, slot) == ops[j].outputGeneration
  {
    if ops != [] {
      var n := |ops| - 1;
      forall k | 0 <= k < n ensures Linked(ops[..n], k) {
        assert Linked(ops, k) && ops[..n][..k] == ops[..k];
      }
      GenerationsCount(ops[..n], slot);
      assert Linked(ops, n);
    }
  }

  lemma SerialNumber(ops: seq<Op>, k: nat)
    requires Chained(ops) && k < |ops| && ops[k].slot != SLOT_NONE
    ensures ops[k].waitGeneration == CountOn(ops[..k], ops[k].slot)
    ensures ops[k].outputGeneration == ops[k].waitGeneration + 1
  {
    assert Linked(ops, k);
    forall j | 0 <= j < k ensures Linked(ops[..k], j) {
      assert Linked(ops, j) && ops[..k][..j] == ops[..j];
    }
    GenerationsCount(ops[..k], ops[k].slot);
  }

  lemma CompiledSerialNumbers(cfg: Config, records: seq<Record>, k: nat)
    requires Compile(cfg, records).Success? && k < |Compile(cfg, records).value.ops|
    requires Compile(cfg, records).value.ops[k].slot != SLOT_NONE
    ensures var ops := Compile(cfg, records).value.ops;
      && ops[k].waitGeneration == CountOn(ops[..k], ops[k].slot)
      && ops[k].outputGeneration == ops[k].waitGeneration + 1
  {
    CompiledProgram(cfg, records);
    SerialNumber(Compile(cfg, records).value.ops, k);
  }

  // ------------------------------------------------------------------ meaning, safety

  ghost predicate Replays(cfg: Config, records: seq<Record>, run: seq<P.State>) {
    && Compile(cfg, records).Success?
    && P.IsRun(Compile(cfg, records).value.ops, Compile(cfg, records).value.nextSlot, run)
  }

  /** Meaning preservation: the pointer a free or realloc passes to the allocator is the
      one published for the event that holds its address in the trace, and that
      publication has happened. */
  lemma MeaningPreserved(
    cfg: Config, records: seq<Record>, run: seq<P.State>, i: nat, k: nat)
    requires Replays(cfg, records, run) && i < |run|
    requires k < |Compile(cfg, records).value.ops|
    requires |run[i].status| == |Compile(cfg, records).value.ops|
    requires IsConsumer(Compile(cfg, records).value.ops[k].kind)
    requires run[i].status[k].HasOutcome()
    ensures var events := Events(records);
      && k < |events|
      && var h := Holder(events[..k], events[k].address);
         && h.Some? && run[i].status[h.value].Done?
         && run[i].status[k].argument == run[i].status[h.value].outcome
  {
    CompileConsistent(cfg, records);
    CompiledProgram(cfg, records);
    var st := Compile(cfg, records).value;
    P.RunInv(st.ops, st.nextSlot, run, i);
    assert P.ArgumentOk(st.ops, run[i], k);
    assert Placed(st.ops, Events(records), k);
  }

  /** No schedule frees or reallocates a pointer that is not allocated: every allocator
      call gets NULL or an object the allocator handed out and did not take back. */
  lemma NeverFaults(cfg: Config, records: seq<Record>, run: seq<P.State>, i: nat)
    requires Replays(cfg, records, run) && i < |run|
    ensures !run[i].fault
  {
    CompiledProgram(cfg, records);
    var st := Compile(cfg, records).value;
    P.RunInv(st.ops, st.nextSlot, run, i);
  }

  /** An unmatched release never hands anything to the allocator, and a trace-matched one
      is never replaced by NULL at compile time. */
  lemma ConsumersAreMatched(cfg: Config, records: seq<Record>, k: nat)
    requires Compile(cfg, records).Success? && k < |Events(records)|
    requires IsFreeFunction(Events(records)[k].func) || Events(records)[k].func == FUNC_REALLOC
    ensures k < |Compile(cfg, records).value.ops|
    ensures var events := Events(records);
      IsConsumer(Compile(cfg, records).value.ops[k].kind) ==
      Holder(events[..k], events[k].address).Some?
  {
    CompileConsistent(cfg, records);
    var st := Compile(cfg, records).value;
    assert Placed(st.ops, Events(records), k);
  }

  /** Serialisation: past its wait an operation sees exactly its wait generation, and it
      is alone on its slot until it publishes. */
  lemma SlotExclusive(
    cfg: Config, records: seq<Record>, run: seq<P.State>, i: nat, j: nat, k: nat)
    requires Replays(cfg, records, run) && i < |run|
    requires |run[i].status| == |Compile(cfg, records).value.ops|
    requires j < |run[i].status| && k < |run[i].status|
    requires !run[i].status[j].Idle? && !run[i].status[j].Done?
    requires var ops := Compile(cfg, records).value.ops;
      ops[j].slot == ops[k].slot != SLOT_NONE
    ensures var o := Compile(cfg, records).value.ops[j];
      o.slot < |run[i].slots| && run[i].slots[o.slot].generation == o.waitGeneration
    ensures !run[i].status[k].Idle? && !run[i].status[k].Done? ==> j == k
  {
    CompiledProgram(cfg, records);
    var st := Compile(cfg, records).value;
    P.RunInv(st.ops, st.nextSlot, run, i);
    assert P.GenerationOk(st.ops, run[i], j) && P.GenerationOk(st.ops, run[i], k);
    assert Linked(st.ops, j) && Linked(st.ops, k);
    if j < k {
      P.ChainOrder(st.ops, j, k);
    } else if k < j {
      P.ChainOrder(st.ops, k, j);
    }
  }

  /** Reusing a slot adds no ordering between threads: an operation that starts a new
      object finds its wait already satisfied when its turn in its own thread comes. */
  lemma ReuseNeverWaits(
    cfg: Config, records: seq<Record>, run: seq<P.State>, i: nat, k: nat)
    requires Replays(cfg, records, run) && i < |run|
    requires k < |Compile(cfg, records).value.ops|
    requires P.WellShaped(Compile(cfg, records).value.ops, run[i])
    requires var o := Compile(cfg, records).value.ops[k];
      !IsConsumer(o.kind) && o.slot != SLOT_NONE
    requires P.MyTurn(Compile(cfg, records).value.ops, run[i], k)
    ensures var o := Compile(cfg, records).value.ops[k];
      o.slot < |run[i].slots| && run[i].slots[o.slot].generation >= o.waitGeneration
  {
    CompileConsistent(cfg, records);
    CompiledProgram(cfg, records);
    var st := Compile(cfg, records).value;
    P.RunInv(st.ops, st.nextSlot, run, i);
    assert Placed(st.ops, Events(records), k) && Linked(st.ops, k);
    if LastOn(st.ops[..k], st.ops[k].slot).Some? {
      assert P.GenerationOk(st.ops, run[i], LastOn(st.ops[..k], st.ops[k].slot).value);
    }
  }

  // ----------------------------------------------------------- progress and completion

  predicate Finished(s: P.State) {
    forall k | 0 <= k < |s.status| :: s.status[k].Done?
  }

  /** The steps still to be taken. */
  function Remaining(status: seq<P.Status>): nat {
    if status == [] then 0 else 5 - status[0].Rank() + Remaining(status[1..])
  }

  lemma {:induction false} RemainingUpdate(status: seq<P.Status>, k: nat, x: P.Status)
    requires k < |status|
    ensures Remaining(status[k := x]) + x.Rank() == Remaining(status) + status[k].Rank()
  {
    if k == 0 {
      assert status[0 := x][1..] == status[1..];
    } else {
      assert status[k := x][1..] == status[1..][k - 1 := x];
      RemainingUpdate(status[1..], k - 1, x);
    }
  }

  /** Every step uses up part of a finite budget, so replay always ends. */
  lemma StepDecreases(ops: seq<Op>, s: P.State, s': P.State)
    requires P.Step(ops, s, s')
    ensures Remaining(s'.status) < Remaining(s.status)
  {
    var k :| 0 <= k < |ops| && P.StepOf(ops, s, s', k);
    P.StepShape(ops, s, s', k);
    RemainingUpdate(s.status, k, s'.status[k]);
  }

  lemma {:induction false} RemainingBound(status: seq<P.Status>)
    ensures Remaining(status) <= 5 * |status|
  {
    if status != [] {
      RemainingBound(status[1..]);
    }
  }

  /** The allocator's least obliging answer is always possible. */
  function RefusedHeap(o: Op, heap: set<P.Ptr>, argument: P.Ptr): set<P.Ptr> {
    match o.kind
    case OpFree => heap - {argument}
    case OpRealloc => if argument != 0 && o.size != 0 then heap else heap - {argument}
    case _ => heap
  }

  /** An operation whose turn it is and whose slot has reached its generation can move. */
  lemma CanMove(ops: seq<Op>, s: P.State, k: nat) returns (s': P.State)
    requires P.Inv(ops, s) && k < |ops| && P.MyTurn(ops, s, k)
    requires !s.status[k].Done?
    requires ops[k].slot != SLOT_NONE ==>
      s.slots[ops[k].slot].generation >= ops[k].waitGeneration
    ensures P.StepOf(ops, s, s', k)
  {
    var o := ops[k];
    assert P.GenerationOk(ops, s, k);
    if s.status[k].Idle? && P.Waits(o) {
      s' := s.(status := s.status[k := P.Waited]);
      assert P.WaitStep(ops, s, s', k);
    } else if s.status[k].Waited? {
      s' := s.(status := s.status[k := P.Loaded(s.slots[o.slot].pointer)]);
      assert P.LoadStep(ops, s, s', k);
    } else if s.status[k].Called? {
      var outcome := s.status[k].outcome;
      s' := s.(status := s.status[k := P.Stored(s.status[k].argument, outcome)],
               slots := if o.slot == SLOT_NONE then s.slots
                        else s.slots[o.slot := s.slots[o.slot].(pointer := outcome)]);
      assert P.StorePointerStep(ops, s, s', k);
    } else if s.status[k].Stored? {
      s' := s.(status := s.status[k := P.Done(s.status[k].argument, s.status[k].outcome)],
               slots := if o.slot == SLOT_NONE then s.slots
                        else s.slots[o.slot :=
                                       s.slots[o.slot].(generation := o.outputGeneration)]);
      assert P.StoreGenerationStep(ops, s, s', k);
    } else {
      var argument := P.Argument(o, s.status[k]);
      var outcome := P.Outcome(o, argument, 0);
      s' := s.(
        heap := RefusedHeap(o, s.heap, argument),
        status := s.status[k := P.Called(argument, outcome)],
        fault := s.fault || (argument != 0 && argument !in s.heap),
        failures := s.failures + P.FailureCount(o, 0),
        last := if o.slot == SLOT_NONE then s.last else s.last[o.slot := Some(k)],
        leaked := s.leaked + P.Abandoned(o, s, outcome));
      assert P.CallStep(ops, s, s', k, 0);
    }
    assert P.StepOf(ops, s, s', k);
  }

  /** Deadlock freedom: in every reachable unfinished state the earliest unfinished
      operation of the trace can itself step. */
  lemma EarliestCanStep(
    cfg: Config, records: seq<Record>, run: seq<P.State>, i: nat, k: nat)
    returns (s': P.State)
    requires Replays(cfg, records, run) && i < |run|
    requires k < |Compile(cfg, records).value.ops| == |run[i].status|
    requires !run[i].status[k].Done?
    requires forall j | 0 <= j < k :: run[i].status[j].Done?
    ensures P.WellShaped(Compile(cfg, records).value.ops, run[i])
    ensures P.StepOf(Compile(cfg, records).value.ops, run[i], s', k)
  {
    CompiledProgram(cfg, records);
    var st := Compile(cfg, records).value;
    var s := run[i];
    P.RunInv(st.ops, st.nextSlot, run, i);
    assert Linked(st.ops, k);
    if st.ops[k].slot != SLOT_NONE && LastOn(st.ops[..k], st.ops[k].slot).Some? {
      assert P.GenerationOk(st.ops, s, LastOn(st.ops[..k], st.ops[k].slot).value);
    }
    s' := CanMove(st.ops, s, k);
  }

  lemma FirstUnfinished(s: P.State) returns (k: nat)
    requires !Finished(s)
    ensures k < |s.status| && !s.status[k].Done?
    ensures forall j | 0 <= j < k :: s.status[j].Done?
  {
    var open :| 0 <= open < |s.status| && !s.status[open].Done?;
    k := 0;
    while s.status[k].Done?
      invariant k <= open
      invariant forall j | 0 <= j < k :: s.status[j].Done?
      decreases open - k
    {
      k := k + 1;
    }
  }

  ghost predicate Stuck(ops: seq<Op>, s: P.State) {
    forall s' :: !P.Step(ops, s, s')
  }

  /** Completion: a run has at most five steps per operation, and one that cannot go on
      has executed every operation. */
  lemma RunsComplete(cfg: Config, records: seq<Record>, run: seq<P.State>)
    requires Replays(cfg, records, run)
    ensures var ops := Compile(cfg, records).value.ops;
      && |run| <= 5 * |ops| + 1
      && (Stuck(ops, run[|run| - 1]) <==> Finished(run[|run| - 1]))
  {
    CompiledProgram(cfg, records);
    var st := Compile(cfg, records).value;
    var s := run[|run| - 1];
    P.RunInv(st.ops, st.nextSlot, run, |run| - 1);
    RunLength(st.ops, st.nextSlot, run, |run| - 1);
    RemainingBound(run[0].status);
    if !Finished(s) {
      var k := FirstUnfinished(s);
      var s' := EarliestCanStep(cfg, records, run, |run| - 1, k);
      assert P.Step(st.ops, s, s');
    }
  }

  lemma {:induction false} RunLength(
    ops: seq<Op>, slotCount: nat, run: seq<P.State>, i: nat)
    requires P.IsRun(ops, slotCount, run) && i < |run|
    ensures i + Remaining(run[i].status) <= Remaining(run[0].status)
  {
    if i > 0 {
      RunLength(ops, slotCount, run, i - 1);
      assert P.Step(ops, run[i - 1], run[i - 1 + 1]);
      StepDecreases(ops, run[i - 1], run[i]);
    }
  }

  // -------------------------------------------------------------------- conservation

  /** The allocator served the operations that have run exactly as the trace says: it
      returned an object where the traced call left one behind, and only there. */
  ghost predicate Agrees(records: seq<Record>, s: P.State) {
    && |s.status| == |Events(records)|
    && forall k | 0 <= k < |s.status| && s.status[k].HasOutcome() ::
         s.status[k].outcome == 0 <==> Leaves(Events(records), k).None?
  }

  /** The address at which event k leaves an object of its own behind. */
  function Leaves(events: seq<Record>, k: nat): Option<nat>
    requires k < |events|
  {
    var a := PublishedAddress(events[k]);
    if Holder(events[..k + 1], a) == Some(k) then Some(a) else None
  }

  /** Nothing is abandoned while the allocator agrees with the trace. */
  lemma {:induction false} NoLeaks(
    cfg: Config, records: seq<Record>, run: seq<P.State>, i: nat)
    requires Replays(cfg, records, run) && i < |run|
    requires Agrees(records, run[i])
    ensures run[i].leaked == {}
  {
    CompileConsistent(cfg, records);
    CompiledProgram(cfg, records);
    var st := Compile(cfg, records).value;
    if i > 0 {
      P.RunInv(st.ops, st.nextSlot, run, i - 1);
      assert P.Step(st.ops, run[i - 1], run[i - 1 + 1]);
      var s, s' := run[i - 1], run[i];
      var k :| 0 <= k < |st.ops| && P.StepOf(st.ops, s, s', k);
      P.StepShape(st.ops, s, s', k);
      forall j | 0 <= j < |s.status| && s.status[j].HasOutcome()
        ensures s.status[j].outcome == 0 <==> Leaves(Events(records), j).None?
      {
        assert s'.status[j].HasOutcome();
      }
      NoLeaks(cfg, records, run, i - 1);
      if raw :| P.CallStep(st.ops, s, s', k, raw) {
        CallAbandonsNothing(st, Events(records), s, s', k, raw);
      }
    }
  }

  lemma CallAbandonsNothing(
    st: State, events: seq<Record>, s: P.State, s': P.State, k: nat, raw: P.Ptr)
    requires Consistent(st, events) && P.Program(st.ops, st.nextSlot)
    requires P.Inv(st.ops, s) && |s.slots| == st.nextSlot && k < |st.ops|
    requires P.MyTurn(st.ops, s, k) && P.CallStep(st.ops, s, s', k, raw)
    requires forall j | 0 <= j < |s.status| && s.status[j].HasOutcome() ::
      s.status[j].outcome == 0 <==> Leaves(events, j).None?
    requires s'.status[k].outcome == 0 <==> Leaves(events, k).None?
    ensures P.Abandoned(st.ops[k], s, s'.status[k].outcome) == {}
  {
    var o := st.ops[k];
    assert Placed(st.ops, events, k);
    assert events[..k + 1][..k] == events[..k];
    if o.slot == SLOT_NONE {
      assert Leaves(events, k).None?;
    } else if !IsConsumer(o.kind) {
      P.CallArgument(st.ops, s, k);
      if s.last[o.slot].Some? {
        var j := s.last[o.slot].value;
        assert P.LastOk(st.ops, s, o.slot);
        RetiringLeavesNothing(events, j);
      }
    }
  }

  lemma RetiringLeavesNothing(events: seq<Record>, j: nat)
    requires j < |events| && Retires(events[j])
    ensures Leaves(events, j).None?
  {
    assert events[..j + 1][|events[..j + 1]| - 1] == events[j];
  }

  /** The address a holder published keeps that holder in every prefix that includes it. */
  lemma {:induction false} HolderPrefix(events: seq<Record>, a: nat, n: nat)
    requires Holder(events, a).Some? && Holder(events, a).value < n <= |events|
    ensures Holder(events[..n], a) == Holder(events, a)
    decreases |events|
  {
    if n == |events| {
      assert events[..n] == events;
    } else {
      var init := events[..|events| - 1];
      assert init[..n] == events[..n];
      HolderPrefix(init, a, n);
    }
  }

  lemma HolderLeaves(events: seq<Record>, a: nat)
    requires Holder(events, a).Some?
    ensures Leaves(events, Holder(events, a).value) == Some(a)
  {
    var h := Holder(events, a).value;
    HolderDefines(events, a);
    HolderPrefix(events, a, h + 1);
  }

  /** When everything has run, a slot stands for the outcome of its last operation. */
  lemma LastAtEnd(st: State, s: P.State, slot: nat)
    requires P.Inv(st.ops, s) && Finished(s) && slot < |s.slots|
    ensures s.last[slot] == LastOn(st.ops, slot)
  {
    assert P.LastOk(st.ops, s, slot);
    P.AfterLast(st.ops, slot);
  }

  lemma {:induction false} ImageSize(m: map<nat, nat>)
    requires forall a, b | a in m && b in m && a != b :: m[a] != m[b]
    ensures |m.Values| == |m|
  {
    if m.Keys != {} {
      var a :| a in m;
      var rest := m - {a};
      ImageSize(rest);
      forall v | v in m.Values ensures v in rest.Values + {m[a]} {
        var b :| b in m && m[b] == v;
        assert b != a ==> b in rest && rest[b] == v;
      }
      assert m.Values == rest.Values + {m[a]};
      assert m.Keys == rest.Keys + {a};
      assert |m| == |m.Keys| && |rest| == |rest.Keys|;
    } else {
      assert m == map[];
    }
  }

  /** A finished replay that agreed with the trace. */
  ghost predicate AgreedEnd(st: State, events: seq<Record>, s: P.State) {
    && Consistent(st, events) && P.Program(st.ops, st.nextSlot)
    && P.Inv(st.ops, s) && |s.slots| == st.nextSlot && Finished(s)
    && (forall k | 0 <= k < |events| :: s.status[k].outcome == 0 <==> Leaves(events, k).None?)
  }

  lemma LiveHasObject(st: State, events: seq<Record>, s: P.State, a: nat)
    requires AgreedEnd(st, events, s) && a in st.live
    ensures st.live[a].slot < |P.Values(s)| && P.Values(s)[st.live[a].slot] in s.heap
    ensures P.Values(s)[st.live[a].slot] != 0
  {
    assert LiveMatches(st, events, a);
    LastAtEnd(st, s, st.live[a].slot);
    HolderLeaves(events, a);
  }

  lemma ObjectHasAddress(st: State, events: seq<Record>, s: P.State, p: P.Ptr) returns (a: nat)
    requires AgreedEnd(st, events, s) && p in s.heap && p !in s.leaked
    ensures a in st.live && st.live[a].slot < |P.Values(s)|
    ensures P.Values(s)[st.live[a].slot] == p
  {
    assert p in P.Values(s);
    var slot :| 0 <= slot < |P.Values(s)| && P.Values(s)[slot] == p;
    LastAtEnd(st, s, slot);
    var j := s.last[slot].value;
    a := PublishedAddress(events[j]);
    assert Occupied(st, events, slot);
    if Retires(events[j]) { RetiringLeavesNothing(events, j); }
    assert LiveMatches(st, events, a);
  }

  /** Conservation: if the allocator agrees with the trace, a finished replay holds exactly
      one object for every address the trace leaves live. */
  lemma ConservesLiveObjects(cfg: Config, records: seq<Record>, run: seq<P.State>)
    requires Replays(cfg, records, run)
    requires Finished(run[|run| - 1]) && Agrees(records, run[|run| - 1])
    ensures |run[|run| - 1].heap| == |Compile(cfg, records).value.live|
    ensures var live := Compile(cfg, records).value.live;
      forall a :: a in live <==> Holder(Events(records), a).Some?
  {
    CompileConsistent(cfg, records);
    CompiledProgram(cfg, records);
    var st := Compile(cfg, records).value;
    var events := Events(records);
    var s := run[|run| - 1];
    P.RunInv(st.ops, st.nextSlot, run, |run| - 1);
    NoLeaks(cfg, records, run, |run| - 1);
    CountObjects(st, events, s);
    forall a ensures a in st.live <==> Holder(events, a).Some? {
      assert LiveMatches(st, events, a);
    }
  }

  lemma CountObjects(st: State, events: seq<Record>, s: P.State)
    requires AgreedEnd(st, events, s) && s.leaked == {}
    ensures |s.heap| == |st.live|
  {
    var values := P.Values(s);
    forall a | a in st.live
      ensures st.live[a].slot < |values| && values[st.live[a].slot] in s.heap
    {
      LiveHasObject(st, events, s, a);
    }
    var image := map a | a in st.live :: values[st.live[a].slot];
    forall a, b | a in image && b in image && a != b ensures image[a] != image[b] {
      LiveSlotsDiffer(st, events, a, b);
      LiveHasObject(st, events, s, a);
    }
    ImageSize(image);
    forall p | p in s.heap ensures p in image.Values {
      var a := ObjectHasAddress(st, events, s, p);
      assert image[a] == p;
    }
    assert image.Values == s.heap;
    assert image.Keys == st.live.Keys;
    assert |image| == |image.Keys| && |st.live| == |st.live.Keys|;
  }

  // ------------------------------------------------------------- slot memory in practice

  /** Thread 1 allocates, thread 2 frees, n times over: one object is live at a time. */
  function PingPong(n: nat): seq<Record> {
    if n == 0 then [] else PingPong(n - 1) + [PING, PONG]
  }

  const PING := Record(0, FUNC_MALLOC, 0, 1, 0, 16, 8)
  const PONG := Record(0, FUNC_FREE, 0, 2, 16, 0, 0)

  /** The state after some rounds: every slot so far is on thread 2's free list. */
  predicate Exchanged(c: Result<State, TraceError>, slots: nat) {
    && c.Success? && c.value.nextSlot == slots && c.value.live == map[]
    && FreeList(c.value, 1) == []
  }

  lemma CompileSnoc(cfg: Config, prefix: seq<Record>, r: Record)
    requires Compile(cfg, prefix).Success?
    ensures Compile(cfg, prefix + [r]) ==
            CompileRecord(cfg, Compile(cfg, prefix).value, r, |prefix|)
  {
    assert (prefix + [r])[..|prefix|] == prefix;
  }

  lemma ProducerTurn(cfg: Config, st: State, i: nat)
    requires st.live == map[] && FreeList(st, 1) == [] && st.nextSlot < SLOT_NONE
    ensures var c := CompileRecord(cfg, st, PING, i);
      && c.Success? && c.value.nextSlot == st.nextSlot + 1 && FreeList(c.value, 1) == []
      && c.value.live == map[16 := Allocation(st.nextSlot, 1, 1)]
  {}

  lemma ConsumerTurn(cfg: Config, st: State, slot: nat, i: nat)
    requires st.live == map[16 := Allocation(slot, 1, 1)] && FreeList(st, 1) == []
    ensures Exchanged(CompileRecord(cfg, st, PONG, i), st.nextSlot)
  {
    assert st.live - {16} == map[];
  }

  lemma PingPongRound(cfg: Config, prefix: seq<Record>, slots: nat)
    requires Exchanged(Compile(cfg, prefix), slots) && slots < SLOT_NONE
    ensures Exchanged(Compile(cfg, prefix + [PING, PONG]), slots + 1)
  {
    CompileSnoc(cfg, prefix, PING);
    ProducerTurn(cfg, Compile(cfg, prefix).value, |prefix|);
    var middle := prefix + [PING];
    CompileSnoc(cfg, middle, PONG);
    ConsumerTurn(cfg, Compile(cfg, middle).value, slots, |middle|);
    assert prefix + [PING, PONG] == middle + [PONG];
  }

  /** The compiler reuses a slot only in the thread that freed it, so a producer and a
      consumer use a new slot for every object: slot memory follows the number of calls
      although peak liveness is one. */
  lemma {:induction false} RemoteFreesNeverRecycle(cfg: Config, n: nat)
    requires n < SLOT_NONE
    ensures Exchanged(Compile(cfg, PingPong(n)), n)
  {
    if n > 0 {
      RemoteFreesNeverRecycle(cfg, n - 1);
      PingPongRound(cfg, PingPong(n - 1), n - 1);
    }
  }
}
