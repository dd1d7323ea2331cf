/** The replay protocol of native_replay_runtime.c as a state machine. Each operation is
    split into the atomic steps of execute_operation: the generation test that ends a
    wait, the pointer load, the allocator call, and the two stores of publish_slot. An
    operation may move once all earlier operations of its thread are done; nothing else
    orders the threads. The allocator is nondeterministic. */
module ReplayProtocol {
  import opened Wrappers
  import opened NativeFormat
  import opened TraceMeaning

  /** An address of the replaying process; 0 is NULL. */
  type Ptr = nat

  datatype Slot = Slot(pointer: Ptr, generation: nat)

  /** `argument` is what the operation passes to the allocator and `outcome` what it
      publishes. */
  datatype Status =
    | Idle
    | Waited
    | Loaded(pointer: Ptr)
    | Called(argument: Ptr, outcome: Ptr)
    | Stored(argument: Ptr, outcome: Ptr)
    | Done(argument: Ptr, outcome: Ptr)
  {
    predicate HasOutcome() {
      Called? || Stored? || Done?
    }

    function Rank(): nat {
      match this
      case Idle => 0
      case Waited => 1
      case Loaded(_) => 2
      case Called(_, _) => 3
      case Stored(_, _) => 4
      case Done(_, _) => 5
    }
  }

  /** `heap` is the set of objects the allocator has handed out to the replay and not
      taken back. `fault` records undefined behaviour: an allocator call on a pointer that
      is neither NULL nor allocated. `last` and `leaked` only observe: the operation that
      last obtained an outcome for each slot, and the objects no slot stands for. */
  datatype State = State(
    slots: seq<Slot>, status: seq<Status>, heap: set<Ptr>, fault: bool, failures: nat,
    last: seq<Option<nat>>, leaked: set<Ptr>)

  // ---------------------------------------------------------------------- allocator

  /** malloc and its relatives, ISO/IEC 9899:2011 section 7.22.3. */
  predicate Mallocs(heap: set<Ptr>, raw: Ptr, heap': set<Ptr>) {
    if raw == 0 then heap' == heap else raw !in heap && heap' == heap + {raw}
  }

  /** realloc, section 7.22.3.5: NULL behaves like malloc; size zero frees the argument and
      may still return an object; a failure leaves the argument allocated. */
  predicate Reallocs(heap: set<Ptr>, argument: Ptr, size: nat, raw: Ptr, heap': set<Ptr>) {
    if argument != 0 && raw == 0 && size != 0 then heap' == heap
    else Mallocs(heap - {argument}, raw, heap')
  }

  predicate AllocatorCall(
    o: Op, heap: set<Ptr>, argument: Ptr, raw: Ptr, heap': set<Ptr>)
  {
    match o.kind
    case OpAlloc => Mallocs(heap, raw, heap')
    case OpReallocNull => Reallocs(heap, 0, o.size, raw, heap')
    case OpRealloc => Reallocs(heap, argument, o.size, raw, heap')
    case OpFree => raw == 0 && heap' == heap - {argument}
    case OpUnknownFree => raw == 0 && heap' == heap
  }

  /** What execute_operation publishes for the allocator's answer. */
  function Outcome(o: Op, argument: Ptr, raw: Ptr): Ptr {
    if o.kind == OpRealloc && raw == 0 && o.size != 0 then argument else raw
  }

  function FailureCount(o: Op, raw: Ptr): nat {
    if o.traceSucceeded && raw == 0
       && (o.kind == OpAlloc || o.kind == OpReallocNull || (o.kind == OpRealloc && o.size != 0))
    then 1 else 0
  }

  // -------------------------------------------------------------------------- steps

  predicate Waits(o: Op) {
    IsConsumer(o.kind)
    || ((o.kind == OpAlloc || o.kind == OpReallocNull) && o.waitGeneration != 0)
  }

  predicate WellShaped(ops: seq<Op>, s: State) {
    && |s.status| == |ops| && |s.slots| == |s.last|
    && (forall k | 0 <= k < |ops| :: ops[k].slot == SLOT_NONE || ops[k].slot < |s.slots|)
    && (forall k | 0 <= k < |ops| && Waits(ops[k]) :: ops[k].slot != SLOT_NONE)
  }

  /** All earlier operations of the thread are done. */
  predicate MyTurn(ops: seq<Op>, s: State, k: nat)
    requires WellShaped(ops, s) && k < |ops|
  {
    forall j | 0 <= j < k && ops[j].tid == ops[k].tid :: s.status[j].Done?
  }

  /** The value a slot stands for: the outcome of the last call made for it. */
  function Owned(s: State, slot: nat): Ptr
    requires slot < |s.last|
  {
    match s.last[slot]
    case Some(j) => if j < |s.status| && s.status[j].HasOutcome() then s.status[j].outcome else 0
    case None => 0
  }

  predicate WaitStep(ops: seq<Op>, s: State, s': State, k: nat)
    requires WellShaped(ops, s) && k < |ops|
  {
    var o := ops[k];
    && s.status[k].Idle? && Waits(o)
    && s.slots[o.slot].generation >= o.waitGeneration
    && s' == s.(status := s.status[k := Waited])
  }

  predicate LoadStep(ops: seq<Op>, s: State, s': State, k: nat)
    requires WellShaped(ops, s) && k < |ops|
  {
    && s.status[k].Waited? && Waits(ops[k])
    && s' == s.(status := s.status[k := Loaded(s.slots[ops[k].slot].pointer)])
  }

  predicate Callable(o: Op, status: Status) {
    if Waits(o) then status.Loaded? else status.Idle?
  }

  /** Consumers pass the loaded pointer; the other kinds pass NULL or nothing. */
  function Argument(o: Op, status: Status): Ptr {
    if IsConsumer(o.kind) && status.Loaded? then status.pointer else 0
  }

  function Abandoned(o: Op, s: State, outcome: Ptr): set<Ptr>
    requires o.slot == SLOT_NONE || o.slot < |s.last|
  {
    if o.slot == SLOT_NONE then {outcome} - {0}
    else if IsConsumer(o.kind) then {}
    else {Owned(s, o.slot)} - {0}
  }

  predicate CallStep(ops: seq<Op>, s: State, s': State, k: nat, raw: Ptr)
    requires WellShaped(ops, s) && k < |ops|
  {
    var o := ops[k];
    var argument := Argument(o, s.status[k]);
    var outcome := Outcome(o, argument, raw);
    && Callable(o, s.status[k])
    && AllocatorCall(o, s.heap, argument, raw, s'.heap)
    && s' == s.(
         heap := s'.heap,
         status := s.status[k := Called(argument, outcome)],
         fault := s.fault || (argument != 0 && argument !in s.heap),
         failures := s.failures + FailureCount(o, raw),
         last := if o.slot == SLOT_NONE then s.last else s.last[o.slot := Some(k)],
         leaked := s.leaked + Abandoned(o, s, outcome))
  }

  predicate StorePointerStep(ops: seq<Op>, s: State, s': State, k: nat)
    requires WellShaped(ops, s) && k < |ops|
  {
    var o := ops[k];
    && s.status[k].Called?
    && s' == s.(
         status := s.status[k := Stored(s.status[k].argument, s.status[k].outcome)],
         slots := if o.slot == SLOT_NONE then s.slots
                  else s.slots[o.slot := s.slots[o.slot].(pointer := s.status[k].outcome)])
  }

  predicate StoreGenerationStep(ops: seq<Op>, s: State, s': State, k: nat)
    requires WellShaped(ops, s) && k < |ops|
  {
    var o := ops[k];
    && s.status[k].Stored?
    && s' == s.(
         status := s.status[k := Done(s.status[k].argument, s.status[k].outcome)],
         slots := if o.slot == SLOT_NONE then s.slots
                  else s.slots[o.slot := s.slots[o.slot].(generation := o.outputGeneration)])
  }

  ghost predicate StepOf(ops: seq<Op>, s: State, s': State, k: nat)
    requires WellShaped(ops, s) && k < |ops|
  {
    && MyTurn(ops, s, k)
    && (|| WaitStep(ops, s, s', k)
        || LoadStep(ops, s, s', k)
        || (exists raw :: CallStep(ops, s, s', k, raw))
        || StorePointerStep(ops, s, s', k)
        || StoreGenerationStep(ops, s, s', k))
  }

  ghost predicate Step(ops: seq<Op>, s: State, s': State) {
    WellShaped(ops, s) && exists k :: 0 <= k < |ops| && StepOf(ops, s, s', k)
  }

  function Initial(ops: seq<Op>, slotCount: nat): State {
    State(seq(slotCount, _ => Slot(0, 0)), seq(|ops|, _ => Idle), {}, false, 0,
          seq(slotCount, _ => None), {})
  }

  ghost predicate IsRun(ops: seq<Op>, slotCount: nat, run: seq<State>) {
    && |run| > 0
    && run[0] == Initial(ops, slotCount)
    && forall i | 0 <= i < |run| - 1 :: Step(ops, run[i], run[i + 1])
  }

  // ---------------------------------------------------------------------- invariant

  /** A compiled program: chained slots below the slot count, consumers behind a
      predecessor. */
  predicate Program(ops: seq<Op>, slotCount: nat) {
    && Chained(ops)
    && slotCount <= SLOT_NONE
    && forall k | 0 <= k < |ops| :: ProgramOp(ops, slotCount, k)
  }

  predicate ProgramOp(ops: seq<Op>, slotCount: nat, k: nat)
    requires k < |ops|
  {
    var o := ops[k];
    && (o.slot == SLOT_NONE || o.slot < slotCount)
    && (IsConsumer(o.kind) ==> o.slot != SLOT_NONE && LastOn(ops[..k], o.slot).Some?)
    && (o.slot == SLOT_NONE ==> o.waitGeneration == 0)
    && (o.kind == OpUnknownFree ==> o.slot == SLOT_NONE)
  }

  /** Generations count finished operations, and no operation overtakes its slot. */
  predicate GenerationOk(ops: seq<Op>, s: State, k: nat)
    requires WellShaped(ops, s) && k < |ops|
  {
    var o := ops[k];
    && (s.status[k].Waited? || s.status[k].Loaded? ==> Waits(o))
    && (o.slot != SLOT_NONE ==>
          var g := s.slots[o.slot].generation;
          && (if s.status[k].Done? then o.outputGeneration <= g else g <= o.waitGeneration)
          && (!s.status[k].Idle? ==> o.waitGeneration <= g))
  }

  predicate LastOk(ops: seq<Op>, s: State, slot: nat)
    requires WellShaped(ops, s) && slot < |s.slots|
  {
    match s.last[slot]
    case None =>
      && s.slots[slot] == Slot(0, 0)
      && forall k | 0 <= k < |ops| && ops[k].slot == slot :: !s.status[k].HasOutcome()
    case Some(j) =>
      && j < |ops| && ops[j].slot == slot && s.status[j].HasOutcome()
      && s.slots[slot].generation ==
           (if s.status[j].Done? then ops[j].outputGeneration else ops[j].waitGeneration)
      && (!s.status[j].Called? ==> s.slots[slot].pointer == s.status[j].outcome)
      && forall k | j < k < |ops| && ops[k].slot == slot :: !s.status[k].HasOutcome()
  }

  /** The pointer a consumer hands to the allocator is what its predecessor published. */
  predicate ArgumentOk(ops: seq<Op>, s: State, k: nat)
    requires WellShaped(ops, s) && k < |ops|
  {
    IsConsumer(ops[k].kind) && (s.status[k].Loaded? || s.status[k].HasOutcome()) ==>
      var p := LastOn(ops[..k], ops[k].slot);
      && p.Some? && s.status[p.value].Done?
      && s.status[p.value].outcome ==
           if s.status[k].Loaded? then s.status[k].pointer else s.status[k].argument
  }

  /** What the slots stand for, in slot order. */
  function Values(s: State): seq<Ptr> {
    seq(|s.last|, a requires 0 <= a < |s.last| => Owned(s, a))
  }

  /** Every slot stands for NULL or for an allocated object of its own, and every object
      is either some slot's or abandoned. */
  predicate HeapShape(values: seq<Ptr>, heap: set<Ptr>, leaked: set<Ptr>) {
    && 0 !in heap && leaked <= heap
    && (forall a | 0 <= a < |values| && values[a] != 0 ::
          values[a] in heap && values[a] !in leaked)
    && (forall a, b | 0 <= a < b < |values| && values[a] != 0 :: values[a] != values[b])
    && (forall p | p in heap && p !in leaked :: p in values)
  }

  predicate HeapOk(s: State) {
    HeapShape(Values(s), s.heap, s.leaked)
  }

  ghost predicate Inv(ops: seq<Op>, s: State) {
    && WellShaped(ops, s)
    && (forall k | 0 <= k < |ops| :: GenerationOk(ops, s, k))
    && (forall slot | 0 <= slot < |s.slots| :: LastOk(ops, s, slot))
    && (forall k | 0 <= k < |ops| :: ArgumentOk(ops, s, k))
    && (forall k | 0 <= k < |ops| && !s.status[k].Idle? :: MyTurn(ops, s, k))
    && HeapOk(s)
    && !s.fault
  }

  // ------------------------------------------------------------------- chain lemmas

  /** Generations grow strictly along a slot. */
  lemma {:induction false} ChainOrder(ops: seq<Op>, j: nat, k: nat)
    requires Chained(ops) && j < k < |ops|
    requires ops[j].slot == ops[k].slot != SLOT_NONE
    ensures ops[j].outputGeneration <= ops[k].waitGeneration
    ensures LastOn(ops[..k], ops[k].slot).Some? && LastOn(ops[..k], ops[k].slot).value >= j
    decreases k
  {
    LastIsLast(ops[..k], ops[k].slot, j);
    var p := LastOn(ops[..k], ops[k].slot).value;
    assert Linked(ops, k);
    if p != j {
      assert Linked(ops, p);
      ChainOrder(ops, j, p);
    }
  }

  lemma {:induction false} LastIsLast(ops: seq<Op>, slot: nat, j: nat)
    requires j < |ops| && ops[j].slot == slot
    ensures LastOn(ops, slot).Some? && j <= LastOn(ops, slot).value
    ensures forall i | LastOn(ops, slot).value < i < |ops| :: ops[i].slot != slot
  {
    var n := |ops| - 1;
    if ops[n].slot != slot {
      LastIsLast(ops[..n], slot, j);
    }
  }

  /** Nothing after the last operation uses the slot. */
  lemma {:induction false} AfterLast(ops: seq<Op>, slot: nat)
    ensures match LastOn(ops, slot)
      case None => forall i | 0 <= i < |ops| :: ops[i].slot != slot
      case Some(j) => forall i | j < i < |ops| :: ops[i].slot != slot
  {
    if ops != [] && ops[|ops| - 1].slot != slot {
      AfterLast(ops[..|ops| - 1], slot);
    }
  }

  /** An operation with an outcome is not after one that has none on the same slot. */
  lemma OutcomeOrder(ops: seq<Op>, s: State, k: nat, i: nat)
    requires Inv(ops, s) && Chained(ops) && k < |ops| && i < |ops|
    requires ops[k].slot == ops[i].slot != SLOT_NONE
    requires !s.status[k].Done? && s.status[i].HasOutcome()
    ensures i <= k
  {
    assert GenerationOk(ops, s, k) && GenerationOk(ops, s, i);
    assert Linked(ops, i) && Linked(ops, k);
    if k < i {
      ChainOrder(ops, k, i);
    }
  }

  /** Past its wait, an operation finds its slot exactly as its predecessor left it, and
      nobody else is between a call and a publication there. */
  lemma TurnOnSlot(ops: seq<Op>, s: State, k: nat)
    requires Inv(ops, s) && Program(ops, |s.slots|) && k < |ops|
    requires ops[k].slot != SLOT_NONE && !s.status[k].HasOutcome()
    requires s.slots[ops[k].slot].generation >= ops[k].waitGeneration
    ensures s.slots[ops[k].slot].generation == ops[k].waitGeneration
    ensures s.last[ops[k].slot] == LastOn(ops[..k], ops[k].slot)
    ensures s.last[ops[k].slot].Some? ==> s.status[s.last[ops[k].slot].value].Done?
  {
    var slot := ops[k].slot;
    assert GenerationOk(ops, s, k) && LastOk(ops, s, slot) && Linked(ops, k);
    AfterLast(ops[..k], slot);
    if s.last[slot].Some? {
      var i := s.last[slot].value;
      OutcomeOrder(ops, s, k, i);
      assert ops[..k][i] == ops[i];
    }
    if LastOn(ops[..k], slot).Some? {
      var j := LastOn(ops[..k], slot).value;
      assert ops[..k][j] == ops[j];
      assert GenerationOk(ops, s, j) && Linked(ops, j);
    }
  }

  /** Between its call and its publication an operation is the last one on its slot. */
  lemma HoldsSlot(ops: seq<Op>, s: State, k: nat)
    requires Inv(ops, s) && Program(ops, |s.slots|) && k < |ops|
    requires ops[k].slot != SLOT_NONE && (s.status[k].Called? || s.status[k].Stored?)
    ensures s.last[ops[k].slot] == Some(k)
    ensures s.slots[ops[k].slot].generation == ops[k].waitGeneration
  {
    var slot := ops[k].slot;
    assert GenerationOk(ops, s, k) && LastOk(ops, s, slot);
    OutcomeOrder(ops, s, k, s.last[slot].value);
  }

  /** A step moves one operation forward and rewrites no outcome. */
  lemma StepShape(ops: seq<Op>, s: State, s': State, k: nat)
    requires WellShaped(ops, s) && k < |ops| && StepOf(ops, s, s', k)
    ensures |s'.status| == |s.status| && s'.status == s.status[k := s'.status[k]]
    ensures s.status[k].Rank() < s'.status[k].Rank()
    ensures s.status[k].HasOutcome() ==>
      s'.status[k].HasOutcome() && s'.status[k].outcome == s.status[k].outcome
    ensures (forall raw :: !CallStep(ops, s, s', k, raw)) ==> s'.leaked == s.leaked
  {
    if WaitStep(ops, s, s', k) {
    } else if LoadStep(ops, s, s', k) {
    } else if raw :| CallStep(ops, s, s', k, raw) {
    } else if StorePointerStep(ops, s, s', k) {
    }
  }

  // ------------------------------------------------------- every step keeps the invariant

  /** Done operations stay done, so turns are never lost. */
  lemma TurnsKept(ops: seq<Op>, s: State, s': State, k: nat)
    requires Inv(ops, s) && WellShaped(ops, s') && k < |ops| && MyTurn(ops, s, k)
    requires forall j | 0 <= j < |ops| && j != k :: s'.status[j] == s.status[j]
    requires !s.status[k].Done?
    ensures forall j | 0 <= j < |ops| && !s'.status[j].Idle? :: MyTurn(ops, s', j)
  {
    forall j | 0 <= j < |ops| && !s'.status[j].Idle? ensures MyTurn(ops, s', j) {
      assert j == k || MyTurn(ops, s, j);
    }
  }

  /** No finished operation has the argument of one that is not: predecessors of k's
      successors are untouched while k is not done. */
  lemma ArgumentsKept(ops: seq<Op>, s: State, s': State, k: nat)
    requires Inv(ops, s) && WellShaped(ops, s') && k < |ops|
    requires forall j | 0 <= j < |ops| && j != k :: s'.status[j] == s.status[j]
    requires !s.status[k].Done?
    requires ArgumentOk(ops, s', k)
    ensures forall j | 0 <= j < |ops| :: ArgumentOk(ops, s', j)
  {
    forall j | 0 <= j < |ops| ensures ArgumentOk(ops, s', j) {
      assert ArgumentOk(ops, s, j);
    }
  }

  lemma KeepWait(ops: seq<Op>, s: State, s': State, k: nat)
    requires Inv(ops, s) && k < |ops| && MyTurn(ops, s, k) && WaitStep(ops, s, s', k)
    ensures Inv(ops, s')
  {
    TurnsKept(ops, s, s', k);
    ArgumentsKept(ops, s, s', k);
    forall j | 0 <= j < |ops| ensures GenerationOk(ops, s', j) {
      assert GenerationOk(ops, s, j);
    }
    forall a | 0 <= a < |s'.slots| ensures LastOk(ops, s', a) && Owned(s', a) == Owned(s, a) {
      assert LastOk(ops, s, a);
    }
    assert Values(s') == Values(s);
  }

  lemma KeepLoad(ops: seq<Op>, s: State, s': State, k: nat)
    requires Inv(ops, s) && Program(ops, |s.slots|) && k < |ops|
    requires MyTurn(ops, s, k) && LoadStep(ops, s, s', k)
    ensures Inv(ops, s')
  {
    var slot := ops[k].slot;
    TurnsKept(ops, s, s', k);
    assert GenerationOk(ops, s, k) && LastOk(ops, s, slot) && ProgramOp(ops, |s.slots|, k);
    TurnOnSlot(ops, s, k);
    ArgumentsKept(ops, s, s', k);
    forall j | 0 <= j < |ops| ensures GenerationOk(ops, s', j) {
      assert GenerationOk(ops, s, j);
    }
    forall a | 0 <= a < |s'.slots| ensures LastOk(ops, s', a) && Owned(s', a) == Owned(s, a) {
      assert LastOk(ops, s, a);
    }
    assert Values(s') == Values(s);
  }

  /** At its call a consumer holds the value its slot stands for, and an operation that
      starts a new object on a used slot passes nothing. */
  lemma CallArgument(ops: seq<Op>, s: State, k: nat)
    requires Inv(ops, s) && Program(ops, |s.slots|) && k < |ops|
    requires Callable(ops[k], s.status[k]) && ops[k].slot != SLOT_NONE
    ensures s.slots[ops[k].slot].generation == ops[k].waitGeneration
    ensures IsConsumer(ops[k].kind) ==>
      Argument(ops[k], s.status[k]) == Owned(s, ops[k].slot)
    ensures !IsConsumer(ops[k].kind) ==> Argument(ops[k], s.status[k]) == 0
    ensures s.last[ops[k].slot] == LastOn(ops[..k], ops[k].slot)
  {
    assert GenerationOk(ops, s, k) && ArgumentOk(ops, s, k) && ProgramOp(ops, |s.slots|, k);
    TurnOnSlot(ops, s, k);
  }

  lemma KeepCallSlots(ops: seq<Op>, s: State, s': State, k: nat, raw: Ptr)
    requires Inv(ops, s) && Program(ops, |s.slots|) && k < |ops|
    requires MyTurn(ops, s, k) && CallStep(ops, s, s', k, raw)
    ensures forall j | 0 <= j < |ops| :: GenerationOk(ops, s', j) && ArgumentOk(ops, s', j)
    ensures forall a | 0 <= a < |s'.slots| :: LastOk(ops, s', a)
    ensures forall a | 0 <= a < |s'.slots| && a != ops[k].slot :: Owned(s', a) == Owned(s, a)
    ensures ops[k].slot != SLOT_NONE ==>
      Owned(s', ops[k].slot) == s'.status[k].outcome
  {
    var slot := ops[k].slot;
    assert GenerationOk(ops, s, k) && ArgumentOk(ops, s, k);
    if slot != SLOT_NONE {
      CallArgument(ops, s, k);
    }
    ArgumentsKept(ops, s, s', k);
    forall j | 0 <= j < |ops| ensures GenerationOk(ops, s', j) {
      assert GenerationOk(ops, s, j);
    }
    forall a | 0 <= a < |s'.slots|
      ensures LastOk(ops, s', a)
      ensures a != slot ==> Owned(s', a) == Owned(s, a)
    {
      assert LastOk(ops, s, a);
      if a == slot {
        forall j | k < j < |ops| && ops[j].slot == slot ensures !s'.status[j].HasOutcome() {
          assert Linked(ops, k) && Linked(ops, j) && GenerationOk(ops, s, j);
          ChainOrder(ops, k, j);
        }
      }
    }
  }

  /** A consumer replaces the value of its slot by what realloc or free leaves. */
  lemma ConsumeShape(
    values: seq<Ptr>, heap: set<Ptr>, leaked: set<Ptr>, slot: nat, outcome: Ptr,
    heap': set<Ptr>)
    requires HeapShape(values, heap, leaked) && slot < |values|
    requires || (outcome == values[slot] && heap' == heap)
             || Mallocs(heap - {values[slot]}, outcome, heap')
    ensures HeapShape(values[slot := outcome], heap', leaked)
  {
    var values' := values[slot := outcome];
    forall p | p in heap' && p !in leaked ensures p in values' {
      if p == outcome {
        assert values'[slot] == p;
      } else {
        assert p in values;
        var a :| 0 <= a < |values| && values[a] == p;
        assert values'[a] == p;
      }
    }
  }

  /** A new object takes over its slot; what the slot stood for is abandoned. */
  lemma StartShape(
    values: seq<Ptr>, heap: set<Ptr>, leaked: set<Ptr>, slot: nat, outcome: Ptr,
    heap': set<Ptr>)
    requires HeapShape(values, heap, leaked) && slot < |values|
    requires Mallocs(heap, outcome, heap')
    ensures HeapShape(values[slot := outcome], heap', leaked + ({values[slot]} - {0}))
  {
    var values' := values[slot := outcome];
    forall p | p in heap' && p !in leaked + ({values[slot]} - {0}) ensures p in values' {
      if p == outcome {
        assert values'[slot] == p;
      } else {
        assert p in values;
        var a :| 0 <= a < |values| && values[a] == p;
        assert values'[a] == p;
      }
    }
  }

  lemma KeepCallHeap(ops: seq<Op>, s: State, s': State, k: nat, raw: Ptr)
    requires Inv(ops, s) && Program(ops, |s.slots|) && k < |ops|
    requires MyTurn(ops, s, k) && CallStep(ops, s, s', k, raw)
    ensures HeapOk(s') && !s'.fault
  {
    var o := ops[k];
    var slot := o.slot;
    var argument := Argument(o, s.status[k]);
    var outcome := s'.status[k].outcome;
    KeepCallSlots(ops, s, s', k, raw);
    if slot == SLOT_NONE {
      assert Values(s') == Values(s);
      assert !IsConsumer(o.kind);
    } else {
      CallArgument(ops, s, k);
      assert Values(s') == Values(s)[slot := outcome];
      if IsConsumer(o.kind) {
        assert argument == Values(s)[slot];
        ConsumeShape(Values(s), s.heap, s.leaked, slot, outcome, s'.heap);
      } else {
        StartShape(Values(s), s.heap, s.leaked, slot, outcome, s'.heap);
      }
    }
  }

  lemma KeepCall(ops: seq<Op>, s: State, s': State, k: nat, raw: Ptr)
    requires Inv(ops, s) && Program(ops, |s.slots|) && k < |ops|
    requires MyTurn(ops, s, k) && CallStep(ops, s, s', k, raw)
    ensures Inv(ops, s')
  {
    TurnsKept(ops, s, s', k);
    KeepCallSlots(ops, s, s', k, raw);
    KeepCallHeap(ops, s, s', k, raw);
  }

  lemma KeepStorePointer(ops: seq<Op>, s: State, s': State, k: nat)
    requires Inv(ops, s) && Program(ops, |s.slots|) && k < |ops|
    requires MyTurn(ops, s, k) && StorePointerStep(ops, s, s', k)
    ensures Inv(ops, s')
  {
    var slot := ops[k].slot;
    TurnsKept(ops, s, s', k);
    assert ArgumentOk(ops, s, k);
    ArgumentsKept(ops, s, s', k);
    if slot != SLOT_NONE {
      HoldsSlot(ops, s, k);
    }
    forall j | 0 <= j < |ops| ensures GenerationOk(ops, s', j) {
      assert GenerationOk(ops, s, j);
    }
    forall a | 0 <= a < |s'.slots| ensures LastOk(ops, s', a) && Owned(s', a) == Owned(s, a) {
      assert LastOk(ops, s, a);
    }
    assert Values(s') == Values(s);
  }

  lemma KeepStoreGeneration(ops: seq<Op>, s: State, s': State, k: nat)
    requires Inv(ops, s) && Program(ops, |s.slots|) && k < |ops|
    requires MyTurn(ops, s, k) && StoreGenerationStep(ops, s, s', k)
    ensures Inv(ops, s')
  {
    var slot := ops[k].slot;
    TurnsKept(ops, s, s', k);
    assert ArgumentOk(ops, s, k);
    ArgumentsKept(ops, s, s', k);
    if slot != SLOT_NONE {
      HoldsSlot(ops, s, k);
      assert Linked(ops, k);
    }
    forall j | 0 <= j < |ops| ensures GenerationOk(ops, s', j) {
      assert GenerationOk(ops, s, j);
      if j != k && slot != SLOT_NONE && ops[j].slot == slot {
        assert Linked(ops, j);
        if j < k { ChainOrder(ops, j, k); } else { ChainOrder(ops, k, j); }
      }
    }
    forall a | 0 <= a < |s'.slots| ensures LastOk(ops, s', a) && Owned(s', a) == Owned(s, a) {
      assert LastOk(ops, s, a);
    }
    assert Values(s') == Values(s);
  }

  /** Every step of every thread keeps the invariant. */
  lemma StepKeeps(ops: seq<Op>, s: State, s': State)
    requires Inv(ops, s) && Program(ops, |s.slots|) && Step(ops, s, s')
    ensures Inv(ops, s') && |s'.slots| == |s.slots|
  {
    var k :| 0 <= k < |ops| && StepOf(ops, s, s', k);
    if WaitStep(ops, s, s', k) {
      KeepWait(ops, s, s', k);
    } else if LoadStep(ops, s, s', k) {
      KeepLoad(ops, s, s', k);
    } else if raw :| CallStep(ops, s, s', k, raw) {
      KeepCall(ops, s, s', k, raw);
    } else if StorePointerStep(ops, s, s', k) {
      KeepStorePointer(ops, s, s', k);
    } else {
      KeepStoreGeneration(ops, s, s', k);
    }
  }

  lemma InitialInv(ops: seq<Op>, slotCount: nat)
    requires Program(ops, slotCount)
    ensures Inv(ops, Initial(ops, slotCount))
  {
    var s := Initial(ops, slotCount);
    forall k | 0 <= k < |ops|
      ensures ops[k].slot == SLOT_NONE || ops[k].slot < slotCount
      ensures Waits(ops[k]) ==> ops[k].slot != SLOT_NONE
    {
      assert ProgramOp(ops, slotCount, k);
    }
    forall a | 0 <= a < |s.slots| ensures LastOk(ops, s, a) && Owned(s, a) == 0 {}
    assert forall a | 0 <= a < |Values(s)| :: Values(s)[a] == 0;
    forall k | 0 <= k < |ops| ensures GenerationOk(ops, s, k) && ArgumentOk(ops, s, k) {}
  }

  /** Safety over whole runs. */
  lemma {:induction false} RunInv(ops: seq<Op>, slotCount: nat, run: seq<State>, i: nat)
    requires Program(ops, slotCount) && IsRun(ops, slotCount, run) && i < |run|
    ensures Inv(ops, run[i]) && |run[i].slots| == slotCount
  {
    if i == 0 {
      InitialInv(ops, slotCount);
    } else {
      RunInv(ops, slotCount, run, i - 1);
      assert Step(ops, run[i - 1], run[i - 1 + 1]);
      StepKeeps(ops, run[i - 1], run[i]);
    }
  }
}
