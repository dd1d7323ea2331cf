/** The worker threads of native_replay_runtime.c: each walks its own range of the loaded
    image and updates the shared slot array in place. Every method is one atomic step of
    worker_main/execute_operation and is proved to be a step of ReplayProtocol on the
    operation in trace order, so the protocol's theorems hold for the threads that run
    the written image. */
module NativeRuntime {
  import opened Wrappers
  import opened NativeFormat
  import opened NativeImage
  import P = ReplayProtocol
  import C = TraceCompiler
  import T = TraceMeaning

  // ------------------------------------------------ positions in a thread's own stream

  /** The place in the whole trace of a thread's c-th operation. */
  function TraceIndex(ops: seq<Op>, tid: nat, c: nat): (k: nat)
    requires c < |Stream(ops, tid)|
    ensures k < |ops| && ops[k].tid == tid && ops[k] == Stream(ops, tid)[c]
    ensures |Stream(ops[..k], tid)| == c
  {
    var n := |ops| - 1;
    if |Stream(ops[..n], tid)| == c then n else
      var k := TraceIndex(ops[..n], tid, c);
      assert ops[..n][..k] == ops[..k];
      k
  }

  lemma {:induction false} RankBelow(ops: seq<Op>, k: nat)
    requires k < |ops|
    ensures |Stream(ops[..k], ops[k].tid)| < |Stream(ops, ops[k].tid)|
  {
    StreamSnoc(ops, k, ops[k].tid);
    StreamGrows(ops, k + 1, ops[k].tid);
  }

  /** Every operation is its own thread's rank-th one. */
  lemma {:induction false} IndexOfRank(ops: seq<Op>, k: nat)
    requires k < |ops|
    ensures |Stream(ops[..k], ops[k].tid)| < |Stream(ops, ops[k].tid)|
    ensures TraceIndex(ops, ops[k].tid, |Stream(ops[..k], ops[k].tid)|) == k
  {
    RankBelow(ops, k);
    var tid := ops[k].tid;
    var n := |ops| - 1;
    if k < n {
      var init := ops[..n];
      assert init[..k] == ops[..k];
      IndexOfRank(init, k);
    }
  }

  lemma RankOrder(ops: seq<Op>, j: nat, k: nat)
    requires j < k < |ops| && ops[j].tid == ops[k].tid
    ensures |Stream(ops[..j], ops[j].tid)| < |Stream(ops[..k], ops[k].tid)|
  {
    var prefix := ops[..k];
    assert prefix[..j] == ops[..j];
    RankBelow(prefix, j);
  }

  /** A worker at its c-th operation: those before are done, that one is at its phase,
      those after have not started. */
  predicate Coupled(
    ops: seq<Op>, tid: nat, c: nat, phase: P.Status, status: seq<P.Status>)
  {
    && |status| == |ops| && !phase.Done?
    && c <= |Stream(ops, tid)|
    && (c == |Stream(ops, tid)| ==> phase.Idle?)
    && forall i | 0 <= i < |Stream(ops, tid)| :: CoupledAt(ops, tid, c, phase, status, i)
  }

  predicate CoupledAt(
    ops: seq<Op>, tid: nat, c: nat, phase: P.Status, status: seq<P.Status>, i: nat)
    requires |status| == |ops| && i < |Stream(ops, tid)|
  {
    var x := status[TraceIndex(ops, tid, i)];
    if i < c then x.Done? else if i == c then x == phase else x.Idle?
  }

  /** It is the turn of the operation a worker is at. */
  lemma WorkerTurn(ops: seq<Op>, tid: nat, c: nat, phase: P.Status, s: P.State)
    requires P.WellShaped(ops, s) && Coupled(ops, tid, c, phase, s.status)
    requires c < |Stream(ops, tid)|
    ensures s.status[TraceIndex(ops, tid, c)] == phase
    ensures P.MyTurn(ops, s, TraceIndex(ops, tid, c))
  {
    var k := TraceIndex(ops, tid, c);
    assert CoupledAt(ops, tid, c, phase, s.status, c);
    forall j | 0 <= j < k && ops[j].tid == ops[k].tid ensures s.status[j].Done? {
      RankOrder(ops, j, k);
      IndexOfRank(ops, j);
      assert CoupledAt(ops, tid, c, phase, s.status, |Stream(ops[..j], tid)|);
    }
  }

  /** The image cell a worker reads is its operation at that place in the trace. */
  lemma CellIsOperation(image: Image, st: C.State, w: nat, c: nat)
    requires Represents(image, st) && w < |image.threads| && c < image.threads[w].count
    ensures image.threads[w].first + c < |image.ops|
    ensures w < |st.order| && c < |Stream(st.ops, st.order[w])|
    ensures image.ops[image.threads[w].first + c]
            == st.ops[TraceIndex(st.ops, st.order[w], c)]
  {
    RangeIsStream(image, st, w);
    assert RecordOk(image, st, w);
    var t := image.threads[w];
    var stream := image.ops[t.first..t.first + t.count];
    assert stream[c] == image.ops[t.first + c];
  }

  /** Updating the operation a worker is at leaves every other worker coupled. */
  lemma OthersStayCoupled(
    ops: seq<Op>, tid: nat, c: nat, x: P.Status, other: nat, oc: nat, phase: P.Status,
    status: seq<P.Status>)
    requires c < |Stream(ops, tid)| && other != tid
    requires Coupled(ops, other, oc, phase, status)
    ensures Coupled(ops, other, oc, phase, status[TraceIndex(ops, tid, c) := x])
  {
    var status' := status[TraceIndex(ops, tid, c) := x];
    forall i | 0 <= i < |Stream(ops, other)|
      ensures CoupledAt(ops, other, oc, phase, status', i)
    {
      assert CoupledAt(ops, other, oc, phase, status, i);
    }
  }

  lemma SelfStaysCoupled(
    ops: seq<Op>, tid: nat, c: nat, phase: P.Status, x: P.Status, status: seq<P.Status>)
    requires c < |Stream(ops, tid)| && Coupled(ops, tid, c, phase, status)
    ensures !x.Done? ==> Coupled(ops, tid, c, x, status[TraceIndex(ops, tid, c) := x])
    ensures x.Done? ==>
      Coupled(ops, tid, c + 1, P.Idle, status[TraceIndex(ops, tid, c) := x])
  {
    var status' := status[TraceIndex(ops, tid, c) := x];
    var c' := if x.Done? then c + 1 else c;
    var phase' := if x.Done? then P.Idle else x;
    forall i | 0 <= i < |Stream(ops, tid)|
      ensures CoupledAt(ops, tid, c', phase', status', i)
    {
      assert CoupledAt(ops, tid, c, phase, status, i);
    }
  }

  /** All workers at once. */
  ghost predicate AllCoupled(
    st: C.State, next: seq<nat>, phases: seq<P.Status>, status: seq<P.Status>)
  {
    && |next| == |phases| == |st.order|
    && forall w | 0 <= w < |next| :: WorkerCoupled(st, next, phases, status, w)
  }

  predicate WorkerCoupled(
    st: C.State, next: seq<nat>, phases: seq<P.Status>, status: seq<P.Status>, w: nat)
    requires w < |next| == |phases| == |st.order|
  {
    Coupled(st.ops, st.order[w], next[w], phases[w], status)
  }

  lemma AllStayCoupled(
    st: C.State, next: seq<nat>, phases: seq<P.Status>, status: seq<P.Status>, w: nat,
    x: P.Status)
    requires AllCoupled(st, next, phases, status) && Distinct(st.order)
    requires w < |next| && next[w] < |Stream(st.ops, st.order[w])|
    ensures |status| == |st.ops|
    ensures var status' := status[TraceIndex(st.ops, st.order[w], next[w]) := x];
      && (!x.Done? ==> AllCoupled(st, next, phases[w := x], status'))
      && (x.Done? ==> AllCoupled(st, next[w := next[w] + 1], phases[w := P.Idle], status'))
  {
    assert WorkerCoupled(st, next, phases, status, w);
    SelfStaysCoupled(st.ops, st.order[w], next[w], phases[w], x, status);
    var status' := status[TraceIndex(st.ops, st.order[w], next[w]) := x];
    var next' := if x.Done? then next[w := next[w] + 1] else next;
    var phases' := if x.Done? then phases[w := P.Idle] else phases[w := x];
    forall v | 0 <= v < |next| ensures WorkerCoupled(st, next', phases', status', v) {
      if v != w {
        assert WorkerCoupled(st, next, phases, status, v);
        assert Differ(st.order, if v < w then v else w, if v < w then w else v);
        OthersStayCoupled(
          st.ops, st.order[w], next[w], x, st.order[v], next[v], phases[v], status);
      }
    }
  }

  lemma StartsCoupled(st: C.State, slotCount: nat, next: seq<nat>, phases: seq<P.Status>)
    requires |next| == |phases| == |st.order|
    requires forall w | 0 <= w < |next| :: next[w] == 0 && phases[w] == P.Idle
    ensures AllCoupled(st, next, phases, P.Initial(st.ops, slotCount).status)
  {}

  // ------------------------------------------------------ memory against the protocol

  /** The runtime's memory as values: g_slots, each worker's index and position inside
      execute_operation, the allocator's objects and the failure counters. */
  datatype Memory = Memory(
    slots: seq<P.Slot>, next: seq<nat>, phases: seq<P.Status>,
    heap: set<P.Ptr>, failures: nat)

  /** The memory is the protocol state s of the compiled trace st. */
  ghost predicate Refines(image: Image, st: C.State, m: Memory, s: P.State) {
    && Represents(image, st) && Counted(st.ops, st.order, st.threads)
    && P.Program(st.ops, st.nextSlot) && P.Inv(st.ops, s) && |s.slots| == st.nextSlot
    && m.slots == s.slots && m.heap == s.heap && m.failures == s.failures
    && AllCoupled(st, m.next, m.phases, s.status)
  }

  predicate Busy(image: Image, m: Memory, w: nat) {
    && w < |m.next| == |m.phases| == |image.threads|
    && m.next[w] < image.threads[w].count
    && image.threads[w].first + m.next[w] < |image.ops|
  }

  /** g_ops[thread->first_op + index] */
  function Current(image: Image, m: Memory, w: nat): Op
    requires Busy(image, m, w)
  {
    image.ops[image.threads[w].first + m.next[w]]
  }

  lemma AtTurn(image: Image, st: C.State, m: Memory, s: P.State, w: nat) returns (k: nat)
    requires Refines(image, st, m, s) && Busy(image, m, w)
    ensures w < |st.order| && m.next[w] < |Stream(st.ops, st.order[w])|
    ensures k == TraceIndex(st.ops, st.order[w], m.next[w])
    ensures Current(image, m, w) == st.ops[k] && s.status[k] == m.phases[w]
    ensures P.MyTurn(st.ops, s, k)
  {
    k := WorkerPosition(image, st, m, s, w);
  }

  lemma WorkerPosition(image: Image, st: C.State, m: Memory, s: P.State, w: nat)
    returns (k: nat)
    requires Represents(image, st) && P.WellShaped(st.ops, s)
    requires AllCoupled(st, m.next, m.phases, s.status) && Busy(image, m, w)
    ensures w < |st.order| && m.next[w] < |Stream(st.ops, st.order[w])|
    ensures k == TraceIndex(st.ops, st.order[w], m.next[w])
    ensures Current(image, m, w) == st.ops[k] && s.status[k] == m.phases[w]
    ensures P.MyTurn(st.ops, s, k)
  {
    CellIsOperation(image, st, w, m.next[w]);
    assert WorkerCoupled(st, m.next, m.phases, s.status, w);
    WorkerTurn(st.ops, st.order[w], m.next[w], m.phases[w], s);
    k := TraceIndex(st.ops, st.order[w], m.next[w]);
  }

  /** The memory after worker w moves its operation to status x. */
  function Moved(m: Memory, w: nat, x: P.Status): Memory
    requires w < |m.next| == |m.phases|
  {
    if x.Done? then m.(next := m.next[w := m.next[w] + 1], phases := m.phases[w := P.Idle])
    else m.(phases := m.phases[w := x])
  }

  lemma MoveRefines(
    image: Image, st: C.State, m: Memory, s: P.State, w: nat, k: nat, m': Memory, s': P.State)
    requires Refines(image, st, m, s) && Busy(image, m, w)
    requires w < |st.order| && m.next[w] < |Stream(st.ops, st.order[w])|
    requires k == TraceIndex(st.ops, st.order[w], m.next[w])
    requires P.MyTurn(st.ops, s, k) && P.StepOf(st.ops, s, s', k)
    requires m'.next == Moved(m, w, s'.status[k]).next
    requires m'.phases == Moved(m, w, s'.status[k]).phases
    requires m'.slots == s'.slots && m'.heap == s'.heap && m'.failures == s'.failures
    ensures Refines(image, st, m', s') && P.Step(st.ops, s, s')
  {
    P.StepKeeps(st.ops, s, s');
    CouplingMoves(st, m, s, w, k, m', s');
  }

  lemma CouplingMoves(
    st: C.State, m: Memory, s: P.State, w: nat, k: nat, m': Memory, s': P.State)
    requires P.WellShaped(st.ops, s) && Distinct(st.order)
    requires AllCoupled(st, m.next, m.phases, s.status)
    requires w < |m.next| && m.next[w] < |Stream(st.ops, st.order[w])|
    requires k == TraceIndex(st.ops, st.order[w], m.next[w])
    requires P.StepOf(st.ops, s, s', k)
    requires k < |s'.status|
    requires m'.next == Moved(m, w, s'.status[k]).next
    requires m'.phases == Moved(m, w, s'.status[k]).phases
    ensures AllCoupled(st, m'.next, m'.phases, s'.status)
  {
    P.StepShape(st.ops, s, s', k);
    AllStayCoupled(st, m.next, m.phases, s.status, w, s'.status[k]);
  }

  lemma TestRefines(image: Image, st: C.State, m: Memory, s: P.State, w: nat)
    returns (s': P.State)
    requires Refines(image, st, m, s) && Busy(image, m, w)
    requires m.phases[w].Idle? && P.Waits(Current(image, m, w))
    ensures Current(image, m, w).slot < |m.slots|
    ensures m.slots[Current(image, m, w).slot].generation >= Current(image, m, w).waitGeneration ==>
      P.Step(st.ops, s, s') && Refines(image, st, Moved(m, w, P.Waited), s')
  {
    var k := AtTurn(image, st, m, s, w);
    s' := s.(status := s.status[k := P.Waited]);
    if m.slots[st.ops[k].slot].generation >= st.ops[k].waitGeneration {
      assert P.WaitStep(st.ops, s, s', k);
      MoveRefines(image, st, m, s, w, k, Moved(m, w, P.Waited), s');
    }
  }

  lemma LoadRefines(image: Image, st: C.State, m: Memory, s: P.State, w: nat)
    returns (s': P.State)
    requires Refines(image, st, m, s) && Busy(image, m, w) && m.phases[w].Waited?
    ensures Current(image, m, w).slot < |m.slots|
    ensures P.Step(st.ops, s, s')
    ensures Refines(
      image, st, Moved(m, w, P.Loaded(m.slots[Current(image, m, w).slot].pointer)), s')
  {
    var k := AtTurn(image, st, m, s, w);
    assert P.GenerationOk(st.ops, s, k);
    var x := P.Loaded(m.slots[st.ops[k].slot].pointer);
    s' := s.(status := s.status[k := x]);
    assert P.LoadStep(st.ops, s, s', k);
    MoveRefines(image, st, m, s, w, k, Moved(m, w, x), s');
  }

  /** The status a call moves the operation to. */
  function CalledStatus(o: Op, phase: P.Status, raw: P.Ptr): P.Status {
    P.Called(P.Argument(o, phase), P.Outcome(o, P.Argument(o, phase), raw))
  }

  lemma CallRefines(
    image: Image, st: C.State, m: Memory, s: P.State, w: nat, raw: P.Ptr, heap': set<P.Ptr>)
    returns (s': P.State)
    requires Refines(image, st, m, s) && Busy(image, m, w)
    requires var o := Current(image, m, w);
      && P.Callable(o, m.phases[w])
      && P.AllocatorCall(o, m.heap, P.Argument(o, m.phases[w]), raw, heap')
    ensures P.Step(st.ops, s, s')
    ensures var o := Current(image, m, w);
      Refines(image, st,
              Moved(m, w, CalledStatus(o, m.phases[w], raw))
                .(heap := heap', failures := m.failures + P.FailureCount(o, raw)), s')
  {
    hide P.AllocatorCall, P.Outcome, P.FailureCount, P.Program, Represents, Counted, AllCoupled;
    var k := AtTurn(image, st, m, s, w);
    var o := st.ops[k];
    var x := CalledStatus(o, m.phases[w], raw);
    s' := s.(
      heap := heap',
      status := s.status[k := x],
      fault := s.fault || (x.argument != 0 && x.argument !in s.heap),
      failures := s.failures + P.FailureCount(o, raw),
      last := if o.slot == SLOT_NONE then s.last else s.last[o.slot := Some(k)],
      leaked := s.leaked + P.Abandoned(o, s, x.outcome));
    assert P.CallStep(st.ops, s, s', k, raw);
    MoveRefines(image, st, m, s, w, k,
                Moved(m, w, x).(heap := heap', failures := m.failures + P.FailureCount(o, raw)),
                s');
  }

  /** publish_slot's first and second store. */
  function WithPointer(slots: seq<P.Slot>, o: Op, pointer: P.Ptr): seq<P.Slot>
    requires o.slot == SLOT_NONE || o.slot < |slots|
  {
    if o.slot == SLOT_NONE then slots else slots[o.slot := slots[o.slot].(pointer := pointer)]
  }

  function WithGeneration(slots: seq<P.Slot>, o: Op): seq<P.Slot>
    requires o.slot == SLOT_NONE || o.slot < |slots|
  {
    if o.slot == SLOT_NONE then slots
    else slots[o.slot := slots[o.slot].(generation := o.outputGeneration)]
  }

  lemma StorePointerRefines(image: Image, st: C.State, m: Memory, s: P.State, w: nat)
    returns (s': P.State)
    requires Refines(image, st, m, s) && Busy(image, m, w) && m.phases[w].Called?
    ensures Current(image, m, w).slot == SLOT_NONE || Current(image, m, w).slot < |m.slots|
    ensures P.Step(st.ops, s, s')
    ensures var x := m.phases[w];
      Refines(image, st,
              Moved(m, w, P.Stored(x.argument, x.outcome))
                .(slots := WithPointer(m.slots, Current(image, m, w), x.outcome)), s')
  {
    var k := AtTurn(image, st, m, s, w);
    var x := m.phases[w];
    var stored := P.Stored(x.argument, x.outcome);
    var slots := WithPointer(s.slots, st.ops[k], x.outcome);
    s' := s.(status := s.status[k := stored], slots := slots);
    assert P.StorePointerStep(st.ops, s, s', k);
    MoveRefines(image, st, m, s, w, k, Moved(m, w, stored).(slots := slots), s');
  }

  lemma StoreGenerationRefines(image: Image, st: C.State, m: Memory, s: P.State, w: nat)
    returns (s': P.State)
    requires Refines(image, st, m, s) && Busy(image, m, w) && m.phases[w].Stored?
    ensures Current(image, m, w).slot == SLOT_NONE || Current(image, m, w).slot < |m.slots|
    ensures P.Step(st.ops, s, s')
    ensures var x := m.phases[w];
      Refines(image, st,
              Moved(m, w, P.Done(x.argument, x.outcome))
                .(slots := WithGeneration(m.slots, Current(image, m, w))), s')
  {
    var k := AtTurn(image, st, m, s, w);
    var x := m.phases[w];
    var done := P.Done(x.argument, x.outcome);
    var slots := WithGeneration(s.slots, st.ops[k]);
    s' := s.(status := s.status[k := done], slots := slots);
    assert P.StoreGenerationStep(st.ops, s, s', k);
    MoveRefines(image, st, m, s, w, k, Moved(m, w, done).(slots := slots), s');
  }

  lemma StartRefines(image: Image, st: C.State, m: Memory)
    requires Represents(image, st) && Counted(st.ops, st.order, st.threads)
    requires P.Program(st.ops, st.nextSlot)
    requires m == Memory(seq(image.slotCount, _ => P.Slot(0, 0)), seq(|image.threads|, _ => 0),
                         seq(|image.threads|, _ => P.Idle), {}, 0)
    ensures Refines(image, st, m, P.Initial(st.ops, st.nextSlot))
  {
    P.InitialInv(st.ops, st.nextSlot);
    StartsCoupled(st, st.nextSlot, m.next, m.phases);
  }

  /** A worker has left its loop exactly when its range is used up, so all workers have
      returned exactly when every operation of the trace is done. */
  lemma AllReturned(image: Image, st: C.State, m: Memory, s: P.State)
    requires Refines(image, st, m, s)
    ensures |m.next| == |image.threads| && |s.status| == |st.ops|
    ensures (forall w | 0 <= w < |m.next| :: m.next[w] == image.threads[w].count)
            <==> (forall k | 0 <= k < |st.ops| :: s.status[k].Done?)
  {
    if forall w | 0 <= w < |m.next| :: m.next[w] == image.threads[w].count {
      forall k | 0 <= k < |st.ops| ensures s.status[k].Done? {
        ReturnedMeansDone(image, st, m, s, k);
      }
    }
    if w: nat :| w < |m.next| && m.next[w] != image.threads[w].count {
      var k := NextUnfinished(image, st, m, s, w);
    }
  }

  lemma ReturnedMeansDone(image: Image, st: C.State, m: Memory, s: P.State, k: nat)
    requires Refines(image, st, m, s) && k < |st.ops| && |m.next| <= |image.threads|
    requires forall w | 0 <= w < |m.next| :: m.next[w] == image.threads[w].count
    ensures s.status[k].Done?
  {
    assert st.ops[k].tid in st.threads.Keys;
    var w :| 0 <= w < |st.order| && st.order[w] == st.ops[k].tid;
    assert WorkerCoupled(st, m.next, m.phases, s.status, w);
    assert RecordOk(image, st, w);
    IndexOfRank(st.ops, k);
    assert CoupledAt(st.ops, st.order[w], m.next[w], m.phases[w], s.status,
                     |Stream(st.ops[..k], st.order[w])|);
  }

  lemma NextUnfinished(image: Image, st: C.State, m: Memory, s: P.State, w: nat)
    returns (k: nat)
    requires Refines(image, st, m, s) && w < |m.next| <= |image.threads|
    requires m.next[w] != image.threads[w].count
    ensures k < |st.ops| && !s.status[k].Done?
  {
    assert WorkerCoupled(st, m.next, m.phases, s.status, w);
    assert RecordOk(image, st, w);
    k := TraceIndex(st.ops, st.order[w], m.next[w]);
    assert CoupledAt(st.ops, st.order[w], m.next[w], m.phases[w], s.status, m.next[w]);
  }

  // ------------------------------------------------------------ from the trace to memory

  /** End to end: a worker walking its range of the image written for a trace frees or
      reallocates the outcome of the event that, by the trace alone, last published the
      address, and that event's operation has been completed by whichever worker has it. */
  lemma MemoryMeansTrace(
    cfg: C.Config, records: seq<Record>, image: Image, m: Memory, s: P.State, w: nat)
    returns (k: nat, h: nat)
    requires C.Compile(cfg, records).Success?
    requires Refines(image, C.Compile(cfg, records).value, m, s) && Busy(image, m, w)
    requires T.IsConsumer(Current(image, m, w).kind) && m.phases[w].HasOutcome()
    ensures var st, events := C.Compile(cfg, records).value, T.Events(records);
      && k < |st.ops| == |events| && Current(image, m, w) == st.ops[k]
      && T.Holder(events[..k], events[k].address) == Some(h)
      && h < |s.status| && s.status[h].Done? && m.phases[w].argument == s.status[h].outcome
  {
    var st, events := C.Compile(cfg, records).value, T.Events(records);
    T.CompileConsistent(cfg, records);
    k := AtTurn(image, st, m, s, w);
    assert P.ArgumentOk(st.ops, s, k);
    assert T.Placed(st.ops, events, k);
    h := T.LastOn(st.ops[..k], st.ops[k].slot).value;
  }

  /** The pointer a worker is about to free or reallocate is NULL or allocated. */
  lemma MemoryIsSafe(image: Image, st: C.State, m: Memory, s: P.State, w: nat)
    requires Refines(image, st, m, s) && Busy(image, m, w)
    requires T.IsConsumer(Current(image, m, w).kind) && m.phases[w].Loaded?
    ensures m.phases[w].pointer == 0 || m.phases[w].pointer in m.heap
  {
    var k := AtTurn(image, st, m, s, w);
    var slot := st.ops[k].slot;
    assert P.ProgramOp(st.ops, st.nextSlot, k);
    P.CallArgument(st.ops, s, k);
    assert P.Values(s)[slot] == m.phases[w].pointer;
  }

  // --------------------------------------------------------------------- the runtime

  class Runtime {
    const image: Image
    const slots: array<P.Slot>
    const next: array<nat>
    const phase: array<P.Status>
    var heap: set<P.Ptr>
    var failures: nat
    ghost const source: C.State
    ghost var model: P.State

    ghost function View(): Memory
      reads this, slots, next, phase
    {
      Memory(slots[..], next[..], phase[..], heap, failures)
    }

    ghost predicate Valid()
      reads this, slots, next, phase
    {
      Refines(image, source, View(), model)
    }

    constructor (image: Image, ghost source: C.State)
      requires Represents(image, source)
      requires Counted(source.ops, source.order, source.threads)
      requires P.Program(source.ops, source.nextSlot)
      ensures Valid() && this.image == image && this.source == source
      ensures model == P.Initial(source.ops, source.nextSlot)
    {
      this.image := image;
      this.source := source;
      slots := new P.Slot[image.slotCount](_ => P.Slot(0, 0));
      next := new nat[|image.threads|](_ => 0);
      phase := new P.Status[|image.threads|](_ => P.Idle);
      heap, failures := {}, 0;
      model := P.Initial(source.ops, source.nextSlot);
      new;
      assert slots[..] == seq(image.slotCount, _ => P.Slot(0, 0));
      assert next[..] == seq(|image.threads|, _ => 0);
      assert phase[..] == seq(|image.threads|, _ => P.Idle);
      StartRefines(image, source, View());
    }

    /** One test of the waiting loop in wait_for_slot. */
    method TestGeneration(w: nat) returns (reached: bool)
      requires Valid() && Busy(image, View(), w)
      requires phase[w].Idle? && P.Waits(Current(image, View(), w))
      modifies this`model, phase
      ensures Valid()
      ensures if reached then P.Step(source.ops, old(model), model) else model == old(model)
      ensures var op := Current(image, old(View()), w);
        && op.slot < slots.Length
        && (reached <==> slots[op.slot].generation >= op.waitGeneration)
        && View() == if reached then Moved(old(View()), w, P.Waited) else old(View())
    {
      hide Refines;
      ghost var model' := TestRefines(image, source, View(), model, w);
      var op := image.ops[image.threads[w].first + next[w]];
      reached := slots[op.slot].generation >= op.waitGeneration;
      if reached {
        phase[w] := P.Waited;
        model := model';
        assert View() == Moved(old(View()), w, P.Waited);
      }
    }

    /** The pointer load that ends wait_for_slot. */
    method LoadPointer(w: nat)
      requires Valid() && Busy(image, View(), w) && phase[w].Waited?
      modifies this`model, phase
      ensures Valid() && P.Step(source.ops, old(model), model)
      ensures var op := Current(image, old(View()), w);
        && op.slot < slots.Length
        && View() == Moved(old(View()), w, P.Loaded(slots[op.slot].pointer))
    {
      hide Refines;
      ghost var model' := LoadRefines(image, source, View(), model, w);
      var op := image.ops[image.threads[w].first + next[w]];
      phase[w] := P.Loaded(slots[op.slot].pointer);
      model := model';
      assert View() == Moved(old(View()), w, phase[w]);
    }

    /** The allocator call; `raw` and `heap'` are the allocator's choice. */
    method CallAllocator(w: nat, raw: P.Ptr, heap': set<P.Ptr>)
      requires Valid() && Busy(image, View(), w)
      requires var op := Current(image, View(), w);
        && P.Callable(op, phase[w])
        && P.AllocatorCall(op, heap, P.Argument(op, phase[w]), raw, heap')
      modifies this`model, this`heap, this`failures, phase
      ensures Valid() && P.Step(source.ops, old(model), model)
      ensures var op := Current(image, old(View()), w);
        View() == Moved(old(View()), w, CalledStatus(op, old(phase[w]), raw))
                    .(heap := heap', failures := old(failures) + P.FailureCount(op, raw))
    {
      hide Refines;
      ghost var model' := CallRefines(image, source, View(), model, w, raw, heap');
      var op := image.ops[image.threads[w].first + next[w]];
      phase[w] := CalledStatus(op, phase[w], raw);
      heap := heap';
      failures := failures + P.FailureCount(op, raw);
      model := model';
      assert View() == Moved(old(View()), w, phase[w]).(heap := heap, failures := failures);
    }

    /** publish_slot, first store. */
    method StorePointer(w: nat)
      requires Valid() && Busy(image, View(), w) && phase[w].Called?
      modifies this`model, slots, phase
      ensures Valid() && P.Step(source.ops, old(model), model)
      ensures var op, x := Current(image, old(View()), w), old(phase[w]);
        && (op.slot == SLOT_NONE || op.slot < slots.Length)
        && View() == Moved(old(View()), w, P.Stored(x.argument, x.outcome))
                       .(slots := WithPointer(old(slots[..]), op, x.outcome))
    {
      hide Refines;
      ghost var model' := StorePointerRefines(image, source, View(), model, w);
      var op := image.ops[image.threads[w].first + next[w]];
      if op.slot != SLOT_NONE {
        slots[op.slot] := slots[op.slot].(pointer := phase[w].outcome);
      }
      phase[w] := P.Stored(phase[w].argument, phase[w].outcome);
      model := model';
      assert View() == Moved(old(View()), w, phase[w]).(slots := slots[..]);
    }

    /** publish_slot, second store; the worker moves to its next operation. */
    method StoreGeneration(w: nat)
      requires Valid() && Busy(image, View(), w) && phase[w].Stored?
      modifies this`model, slots, next, phase
      ensures Valid() && P.Step(source.ops, old(model), model)
      ensures var op, x := Current(image, old(View()), w), old(phase[w]);
        && (op.slot == SLOT_NONE || op.slot < slots.Length)
        && View() == Moved(old(View()), w, P.Done(x.argument, x.outcome))
                       .(slots := WithGeneration(old(slots[..]), op))
    {
      hide Refines;
      ghost var model' := StoreGenerationRefines(image, source, View(), model, w);
      var op := image.ops[image.threads[w].first + next[w]];
      Publish(op);
      Advance(w);
      model := model';
    }

    method Publish(op: Op)
      requires op.slot == SLOT_NONE || op.slot < slots.Length
      modifies slots
      ensures slots[..] == WithGeneration(old(slots[..]), op)
    {
      if op.slot != SLOT_NONE {
        slots[op.slot] := slots[op.slot].(generation := op.outputGeneration);
      }
    }

    method Advance(w: nat)
      requires w < next.Length == phase.Length
      modifies next, phase
      ensures next[..] == old(next[..])[w := old(next[w]) + 1]
      ensures phase[..] == old(phase[..])[w := P.Idle]
    {
      next[w] := next[w] + 1;
      phase[w] := P.Idle;
    }
  }
}
