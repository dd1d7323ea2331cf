/** What a compiled trace means. The reference is the trace itself: `Holder` scans the
    records backwards and knows nothing of dictionaries, slots or generations. The
    theorems say that the slot/generation pairs of the compiled operations encode exactly
    that reference, and that reusing a slot never orders two different threads. */
module TraceMeaning {
  import opened Wrappers
  import opened NativeFormat
  import opened TraceCompiler

  // ------------------------------------------------------------------- reference

  /** The allocator records of a trace; the others produce no operation. */
  function Events(records: seq<Record>): seq<Record> {
    if records == [] then []
    else
      var r := records[|records| - 1];
      Events(records[..|records| - 1]) + if IsAllocatorFunction(r.func) then [r] else []
  }

  /** The event returned a new object at address a. */
  predicate Returns(e: Record, a: nat) {
    !IsFreeFunction(e.func) && e.result == a && a != 0
  }

  /** The event hands the object at address a to the allocator. */
  predicate Consumes(e: Record, a: nat) {
    (IsFreeFunction(e.func) || e.func == FUNC_REALLOC) && e.address == a && a != 0
  }

  /** A realloc that failed: its argument stays valid. */
  predicate FailedRealloc(e: Record) {
    e.func == FUNC_REALLOC && e.result == 0 && e.size != 0
  }

  /** The event that last (re)published the object now living at address a, if any. */
  function Holder(events: seq<Record>, a: nat): Option<nat>
    ensures Holder(events, a).Some? ==> Holder(events, a).value < |events| && a != 0
  {
    if events == [] then None
    else
      var n := |events| - 1;
      var e := events[n];
      if Returns(e, a) then Some(n)
      else if Consumes(e, a) then
        if FailedRealloc(e) && Holder(events[..n], a).Some? then Some(n) else None
      else Holder(events[..n], a)
  }

  /** The last operation compiled onto a slot. */
  function LastOn(ops: seq<Op>, slot: nat): Option<nat>
    ensures LastOn(ops, slot).Some? ==>
      LastOn(ops, slot).value < |ops| && ops[LastOn(ops, slot).value].slot == slot
  {
    if ops == [] then None
    else
      var n := |ops| - 1;
      if ops[n].slot == slot then Some(n) else LastOn(ops[..n], slot)
  }

  /** How many operations were compiled onto a slot. */
  function CountOn(ops: seq<Op>, slot: nat): nat {
    if ops == [] then 0
    else
      var n := |ops| - 1;
      CountOn(ops[..n], slot) + if ops[n].slot == slot then 1 else 0
  }

  // ------------------------------------------------- what each operation guarantees

  /** The operation starts on the generation its slot's previous operation ends on. */
  predicate Linked(ops: seq<Op>, k: nat)
    requires k < |ops|
  {
    var o := ops[k];
    o.slot != SLOT_NONE ==>
      && o.outputGeneration == o.waitGeneration + 1
      && o.waitGeneration == match LastOn(ops[..k], o.slot)
           case None => 0
           case Some(j) => ops[j].outputGeneration
  }

  predicate Chained(ops: seq<Op>) {
    forall k | 0 <= k < |ops| :: Linked(ops, k)
  }

  predicate IsConsumer(kind: OpKind) {
    kind == OpFree || kind == OpRealloc
  }

  /** The operation ends the life of its slot's object, so the slot may be reused. */
  predicate Retires(e: Record) {
    IsFreeFunction(e.func) || (e.func == FUNC_REALLOC && e.result == 0 && e.size == 0)
  }

  /** A consumer takes its object from its trace holder; an operation that starts a new
      object on a used slot follows an operation of its own thread that retired the slot. */
  predicate Placed(ops: seq<Op>, events: seq<Record>, k: nat)
    requires |ops| == |events| && k < |ops|
  {
    var o := ops[k];
    && o.tid == events[k].tid && o.func == events[k].func && o.size == events[k].size
    && (o.slot == SLOT_NONE ==> o.waitGeneration == 0)
    && (IsConsumer(o.kind) ==>
          && o.slot != SLOT_NONE
          && LastOn(ops[..k], o.slot).Some?
          && LastOn(ops[..k], o.slot) == Holder(events[..k], events[k].address))
    && (o.kind == OpUnknownFree ==> o.slot == SLOT_NONE)
    && (o.kind == OpAlloc || o.kind == OpReallocNull ==>
          && o.traceSucceeded == (events[k].result != 0)
          && (o.slot == SLOT_NONE <==> events[k].result == 0)
          && (o.slot != SLOT_NONE ==>
                match LastOn(ops[..k], o.slot)
                case None => true
                case Some(j) => ops[j].tid == o.tid && Retires(events[j])))
    && (o.kind == OpRealloc ==>
          o.traceSucceeded == (events[k].result != 0) && o.func == FUNC_REALLOC)
    && (o.kind == OpFree ==> IsFreeFunction(o.func))
    && (o.kind == OpUnknownFree || (o.kind == OpReallocNull && events[k].address != 0) ==>
          Holder(events[..k], events[k].address).None?)
    && (IsFreeFunction(o.func) || o.func == FUNC_REALLOC ==>
          Holder(events[..k], events[k].address).Some? ==> IsConsumer(o.kind))
  }

  // ------------------------------------------------------------- compiler invariant

  predicate LiveMatches(st: State, events: seq<Record>, a: nat)
    requires |st.ops| == |events|
  {
    match Holder(events, a)
    case None => a !in st.live
    case Some(h) =>
      && a in st.live
      && var l := st.live[a];
         && l.slot < st.nextSlot && LastOn(st.ops, l.slot) == Some(h)
         && st.ops[h].outputGeneration == l.generation && st.ops[h].tid == l.owner
  }

  predicate FreeMatches(st: State, events: seq<Record>, tid: nat, i: nat)
    requires |st.ops| == |events| && i < |FreeList(st, tid)|
  {
    var c := FreeList(st, tid)[i];
    && c.slot < st.nextSlot
    && match LastOn(st.ops, c.slot)
       case None => false
       case Some(h) =>
         && st.ops[h].outputGeneration == c.generation && st.ops[h].tid == tid
         && Retires(events[h])
  }

  predicate SlotsDiffer(list: seq<Completed>) {
    forall i, j | 0 <= i < j < |list| :: list[i].slot != list[j].slot
  }

  /** The address under which the object an event (re)publishes is live. */
  function PublishedAddress(e: Record): nat {
    if e.result != 0 then e.result else e.address
  }

  /** A slot whose last operation did not retire it is held by that operation. */
  predicate Occupied(st: State, events: seq<Record>, slot: nat)
    requires |st.ops| == |events|
  {
    match LastOn(st.ops, slot)
    case None => true
    case Some(h) =>
      slot != SLOT_NONE && !Retires(events[h]) ==>
        Holder(events, PublishedAddress(events[h])) == Some(h)
  }

  ghost predicate Consistent(st: State, events: seq<Record>) {
    && |st.ops| == |events|
    && st.nextSlot <= SLOT_NONE
    && Chained(st.ops)
    && (forall k | 0 <= k < |st.ops| :: Placed(st.ops, events, k))
    && (forall a :: LiveMatches(st, events, a))
    && (forall t, i | 0 <= i < |FreeList(st, t)| :: FreeMatches(st, events, t, i))
    && (forall t: nat :: SlotsDiffer(FreeList(st, t)))
    && (forall s: nat :: Occupied(st, events, s))
    && (forall s: nat :: LastOn(st.ops, s).Some? ==> s == SLOT_NONE || s < st.nextSlot)
  }

  // ----------------------------------------------------------------- small facts

  lemma Snoc<T>(s: seq<T>, x: T)
    ensures (s + [x])[..|s|] == s && (s + [x])[|s|] == x
    ensures forall k | 0 <= k <= |s| :: (s + [x])[..k] == s[..k]
  {}

  lemma LastOnSnoc(ops: seq<Op>, o: Op, slot: nat)
    ensures LastOn(ops + [o], slot) == if o.slot == slot then Some(|ops|) else LastOn(ops, slot)
  {
    Snoc(ops, o);
  }

  lemma HolderSnoc(events: seq<Record>, e: Record, a: nat)
    ensures Holder(events + [e], a) ==
      if Returns(e, a) then Some(|events|)
      else if Consumes(e, a) then
        if FailedRealloc(e) && Holder(events, a).Some? then Some(|events|) else None
      else Holder(events, a)
  {
    Snoc(events, e);
  }

  /** The event that last published an address did not retire it. */
  lemma {:induction false} HolderDefines(events: seq<Record>, a: nat)
    requires Holder(events, a).Some?
    ensures var h := Holder(events, a).value;
      && !Retires(events[h])
      && (Returns(events[h], a) || (FailedRealloc(events[h]) && Consumes(events[h], a)))
  {
    var n := |events| - 1;
    if !Returns(events[n], a) && !Consumes(events[n], a) {
      HolderDefines(events[..n], a);
    }
  }

  /** Two live addresses never share a slot. */
  lemma LiveSlotsDiffer(st: State, events: seq<Record>, a: nat, b: nat)
    requires Consistent(st, events) && a in st.live && b in st.live && a != b
    ensures st.live[a].slot != st.live[b].slot
  {
    assert LiveMatches(st, events, a) && LiveMatches(st, events, b);
    HolderDefines(events, a);
    HolderDefines(events, b);
  }

  /** A live slot is on no free list. */
  lemma LiveSlotNotFree(st: State, events: seq<Record>, a: nat, t: nat, i: nat)
    requires Consistent(st, events) && a in st.live && i < |FreeList(st, t)|
    ensures st.live[a].slot != FreeList(st, t)[i].slot
  {
    assert LiveMatches(st, events, a) && FreeMatches(st, events, t, i);
    HolderDefines(events, a);
  }

  /** The free lists of two threads never share a slot. */
  lemma FreeListsDisjoint(st: State, events: seq<Record>, t: nat, i: nat, u: nat, j: nat)
    requires Consistent(st, events) && i < |FreeList(st, t)| && j < |FreeList(st, u)|
    requires t != u || i != j
    ensures FreeList(st, t)[i].slot != FreeList(st, u)[j].slot
  {
    assert FreeMatches(st, events, t, i) && FreeMatches(st, events, u, j);
    assert SlotsDiffer(FreeList(st, t));
  }

  // ------------------------------------------------------- one record keeps the invariant

  /** The part of the invariant that does not look at the dictionaries. */
  lemma OpsExtend(st: State, events: seq<Record>, st': State, o: Op, e: Record)
    requires Consistent(st, events)
    requires st'.ops == st.ops + [o] && st.nextSlot <= st'.nextSlot
    requires o.slot == SLOT_NONE || o.slot < st'.nextSlot
    requires Linked(st.ops + [o], |st.ops|)
    requires Placed(st.ops + [o], events + [e], |st.ops|)
    ensures Chained(st'.ops)
    ensures forall k | 0 <= k < |st'.ops| :: Placed(st'.ops, events + [e], k)
    ensures forall s: nat :: LastOn(st'.ops, s).Some? ==> s == SLOT_NONE || s < st'.nextSlot
  {
    Snoc(st.ops, o);
    Snoc(events, e);
    forall k | 0 <= k < |st'.ops|
      ensures Linked(st'.ops, k) && Placed(st'.ops, events + [e], k)
    {
      if k < |st.ops| {
        assert Linked(st.ops, k) && Placed(st.ops, events, k);
      }
    }
    forall s: nat
      ensures LastOn(st'.ops, s).Some? ==> s == SLOT_NONE || s < st'.nextSlot
    {
      LastOnSnoc(st.ops, o, s);
    }
  }

  /** An address the event neither returns nor consumes keeps its dictionary entry valid,
      as long as the operation goes to another slot. */
  lemma LiveFrame(st: State, events: seq<Record>, st': State, o: Op, e: Record, a: nat)
    requires Consistent(st, events)
    requires st'.ops == st.ops + [o] && st.nextSlot <= st'.nextSlot
    requires !Returns(e, a) && !Consumes(e, a)
    requires a in st.live <==> a in st'.live
    requires a in st.live ==> st'.live[a] == st.live[a] && st.live[a].slot != o.slot
    ensures LiveMatches(st', events + [e], a)
  {
    assert LiveMatches(st, events, a);
    HolderSnoc(events, e, a);
    Snoc(st.ops, o);
    if a in st.live {
      LastOnSnoc(st.ops, o, st.live[a].slot);
    }
  }

  lemma FreeFrame(
    st: State, events: seq<Record>, st': State, o: Op, e: Record, t: nat, i: nat)
    requires Consistent(st, events)
    requires st'.ops == st.ops + [o] && st.nextSlot <= st'.nextSlot
    requires i < |FreeList(st, t)| && i < |FreeList(st', t)|
    requires FreeList(st', t)[i] == FreeList(st, t)[i]
    requires FreeList(st, t)[i].slot != o.slot
    ensures FreeMatches(st', events + [e], t, i)
  {
    assert FreeMatches(st, events, t, i);
    Snoc(st.ops, o);
    Snoc(events, e);
    LastOnSnoc(st.ops, o, FreeList(st, t)[i].slot);
  }

  /** Slots other than the operation's keep their holder: the event touches no live
      address outside the operation's slot. */
  lemma OccupiedFrame(
    st: State, events: seq<Record>, st': State, o: Op, e: Record, slot: nat)
    requires Consistent(st, events) && st'.ops == st.ops + [o]
    requires forall a | a in st.live && (Returns(e, a) || Consumes(e, a)) ::
      st.live[a].slot == o.slot
    requires slot != o.slot
    ensures Occupied(st', events + [e], slot)
  {
    assert Occupied(st, events, slot);
    LastOnSnoc(st.ops, o, slot);
    Snoc(events, e);
    if LastOn(st.ops, slot).Some? {
      var a := PublishedAddress(events[LastOn(st.ops, slot).value]);
      assert LiveMatches(st, events, a);
      HolderSnoc(events, e, a);
    }
  }

  /** An operation without a slot: a failed allocation or an unmatched release. */
  lemma KeepNoSlot(st: State, events: seq<Record>, st': State, o: Op, e: Record)
    requires Consistent(st, events)
    requires o.slot == SLOT_NONE && o.waitGeneration == 0
    requires st'.ops == st.ops + [o] && st'.live == st.live
    requires st'.available == st.available && st'.nextSlot == st.nextSlot
    requires Placed(st.ops + [o], events + [e], |st.ops|)
    requires forall a :: !Returns(e, a)
    requires forall a :: Consumes(e, a) ==> a !in st.live
    ensures Consistent(st', events + [e])
  {
    Snoc(st.ops, o);
    OpsExtend(st, events, st', o, e);
    forall a ensures LiveMatches(st', events + [e], a) {
      assert LiveMatches(st, events, a);
      if Consumes(e, a) {
        HolderSnoc(events, e, a);
      } else {
        LiveFrame(st, events, st', o, e, a);
      }
    }
    forall t: nat ensures SlotsDiffer(FreeList(st', t)) {
      assert SlotsDiffer(FreeList(st, t));
    }
    forall s: nat ensures Occupied(st', events + [e], s) {
      if s == o.slot {
        LastOnSnoc(st.ops, o, s);
      } else {
        OccupiedFrame(st, events, st', o, e, s);
      }
    }
    forall t, i | 0 <= i < |FreeList(st', t)| ensures FreeMatches(st', events + [e], t, i) {
      assert FreeMatches(st, events, t, i);
      FreeFrame(st, events, st', o, e, t, i);
    }
  }

  /** An operation that starts a new object on an acquired slot. */
  lemma KeepObtain(st: State, events: seq<Record>, st': State, o: Op, e: Record, index: nat)
    requires Consistent(st, events)
    requires e.result != 0 && !IsFreeFunction(e.func)
    requires Obtain(st, e, index).Success?
    requires forall a :: Consumes(e, a) ==> a !in st.live
    requires var (st1, g) := Obtain(st, e, index).value;
      && st' == st1.(ops := st.ops + [o])
      && o.slot == g.slot && o.waitGeneration == g.waitGeneration
      && o.outputGeneration == g.outputGeneration
    requires o.tid == e.tid && o.func == e.func && o.size == e.size
    requires if o.kind == OpAlloc then e.func != FUNC_REALLOC
             else o.kind == OpReallocNull && (e.address == 0 || e.address !in st.live)
    requires o.traceSucceeded
    ensures Consistent(st', events + [e])
  {
    var list := FreeList(st, e.tid);
    Snoc(st.ops, o);
    Snoc(events, e);
    if |list| > 0 {
      assert FreeMatches(st, events, e.tid, |list| - 1);
    } else {
      assert LastOn(st.ops, o.slot).None?;
    }
    assert LiveMatches(st, events, e.address);
    assert Placed(st.ops + [o], events + [e], |st.ops|);
    OpsExtend(st, events, st', o, e);
    forall a ensures LiveMatches(st', events + [e], a) {
      assert LiveMatches(st, events, a);
      HolderSnoc(events, e, a);
      if Returns(e, a) {
        LastOnSnoc(st.ops, o, o.slot);
      } else if !Consumes(e, a) {
        if a in st.live && |list| > 0 {
          LiveSlotNotFree(st, events, a, e.tid, |list| - 1);
        }
        LiveFrame(st, events, st', o, e, a);
      }
    }
    forall t: nat ensures SlotsDiffer(FreeList(st', t)) {
      assert SlotsDiffer(FreeList(st, t));
    }
    forall s: nat ensures Occupied(st', events + [e], s) {
      if s == o.slot {
        LastOnSnoc(st.ops, o, s);
        HolderSnoc(events, e, e.result);
      } else {
        OccupiedFrame(st, events, st', o, e, s);
      }
    }
    forall t, i | 0 <= i < |FreeList(st', t)| ensures FreeMatches(st', events + [e], t, i) {
      assert FreeMatches(st, events, t, i);
      if |list| > 0 {
        FreeListsDisjoint(st, events, t, i, e.tid, |list| - 1);
      }
      FreeFrame(st, events, st', o, e, t, i);
    }
  }

  predicate IsConsumerOf(o: Op, e: Record) {
    && o.tid == e.tid && o.func == e.func && o.size == e.size
    && if o.kind == OpFree then IsFreeFunction(e.func)
       else o.kind == OpRealloc && e.func == FUNC_REALLOC
            && o.traceSucceeded == (e.result != 0)
  }

  /** What every operation on a matched object does before its outcome is filed. */
  lemma ConsumerPlaced(st: State, events: seq<Record>, o: Op, e: Record)
    requires Consistent(st, events) && e.address in st.live
    requires IsConsumerOf(o, e)
    requires var a := st.live[e.address];
      o.slot == a.slot && o.waitGeneration == a.generation
      && o.outputGeneration == a.generation + 1
    ensures Linked(st.ops + [o], |st.ops|)
    ensures Placed(st.ops + [o], events + [e], |st.ops|)
    ensures e.address != 0 && o.slot < st.nextSlot
  {
    assert LiveMatches(st, events, e.address);
    Snoc(st.ops, o);
    Snoc(events, e);
  }

  /** The matched object ends: a free, or a realloc to size zero that returned NULL. */
  lemma KeepRetire(st: State, events: seq<Record>, st': State, o: Op, e: Record)
    requires Consistent(st, events) && e.address in st.live
    requires IsConsumerOf(o, e)
    requires Retires(e)
    requires var a := st.live[e.address];
      && o.slot == a.slot && o.waitGeneration == a.generation
      && o.outputGeneration == a.generation + 1
      && st'.live == st.live - {e.address}
      && st'.available == Release(st, e.tid, a.slot, a.generation + 1).available
    requires st'.nextSlot == st.nextSlot && st'.ops == st.ops + [o]
    ensures Consistent(st', events + [e])
  {
    var slot := st.live[e.address].slot;
    var before := FreeList(st, e.tid);
    ConsumerPlaced(st, events, o, e);
    OpsExtend(st, events, st', o, e);
    Snoc(st.ops, o);
    Snoc(events, e);
    forall a ensures LiveMatches(st', events + [e], a) {
      assert LiveMatches(st, events, a);
      HolderSnoc(events, e, a);
      if a != e.address {
        if a in st.live {
          LiveSlotsDiffer(st, events, a, e.address);
        }
        LiveFrame(st, events, st', o, e, a);
      }
    }
    assert FreeList(st', e.tid) == before + [Completed(slot, o.outputGeneration)];
    forall t, i | 0 <= i < |FreeList(st', t)| ensures FreeMatches(st', events + [e], t, i) {
      if t == e.tid && i == |before| {
        LastOnSnoc(st.ops, o, slot);
      } else {
        LiveSlotNotFree(st, events, e.address, t, i);
        FreeFrame(st, events, st', o, e, t, i);
      }
    }
    forall s: nat ensures Occupied(st', events + [e], s) {
      if s == o.slot {
        LastOnSnoc(st.ops, o, s);
      } else {
        OccupiedFrame(st, events, st', o, e, s);
      }
    }
    forall t: nat ensures SlotsDiffer(FreeList(st', t)) {
      assert SlotsDiffer(FreeList(st, t));
      forall i | 0 <= i < |before| ensures before[i].slot != slot {
        LiveSlotNotFree(st, events, e.address, e.tid, i);
      }
    }
  }

  /** The matched object lives on, at the address a realloc returned or, when the realloc
      failed, at its old address. */
  lemma KeepRealloc(
    st: State, events: seq<Record>, st': State, o: Op, e: Record, address: nat)
    requires Consistent(st, events) && e.address in st.live
    requires IsConsumerOf(o, e) && o.kind == OpRealloc
    requires if e.result != 0
             then address == e.result && (address == e.address || address !in st.live)
             else address == e.address && e.size != 0
    requires var a := st.live[e.address];
      && o.slot == a.slot && o.waitGeneration == a.generation
      && o.outputGeneration == a.generation + 1
      && st'.live == (st.live - {e.address})
                     [address := Allocation(a.slot, a.generation + 1, e.tid)]
    requires st'.available == st.available
    requires st'.nextSlot == st.nextSlot && st'.ops == st.ops + [o]
    ensures Consistent(st', events + [e])
  {
    var slot := st.live[e.address].slot;
    ConsumerPlaced(st, events, o, e);
    OpsExtend(st, events, st', o, e);
    Snoc(st.ops, o);
    forall a ensures LiveMatches(st', events + [e], a) {
      assert LiveMatches(st, events, a);
      HolderSnoc(events, e, a);
      if a == address {
        LastOnSnoc(st.ops, o, slot);
        assert LiveMatches(st, events, e.address);
      } else if a != e.address {
        if a in st.live {
          LiveSlotsDiffer(st, events, a, e.address);
        }
        LiveFrame(st, events, st', o, e, a);
      }
    }
    forall t: nat ensures SlotsDiffer(FreeList(st', t)) {
      assert SlotsDiffer(FreeList(st, t));
    }
    forall s: nat ensures Occupied(st', events + [e], s) {
      if s == o.slot {
        LastOnSnoc(st.ops, o, s);
        HolderSnoc(events, e, address);
      } else {
        OccupiedFrame(st, events, st', o, e, s);
      }
    }
    forall t, i | 0 <= i < |FreeList(st', t)| ensures FreeMatches(st', events + [e], t, i) {
      LiveSlotNotFree(st, events, e.address, t, i);
      FreeFrame(st, events, st', o, e, t, i);
    }
  }

  /** The invariant only looks at the dictionaries and the operations. */
  lemma SameView(st: State, st': State, events: seq<Record>)
    requires Consistent(st, events)
    requires st'.live == st.live && st'.available == st.available
    requires st'.nextSlot == st.nextSlot && st'.ops == st.ops
    ensures Consistent(st', events)
  {
    forall a ensures LiveMatches(st', events, a) { assert LiveMatches(st, events, a); }
    forall t, i | 0 <= i < |FreeList(st', t)| ensures FreeMatches(st', events, t, i) {
      assert FreeMatches(st, events, t, i);
    }
    forall t: nat ensures SlotsDiffer(FreeList(st', t)) { assert SlotsDiffer(FreeList(st, t)); }
    forall s: nat ensures Occupied(st', events, s) { assert Occupied(st, events, s); }
  }

  lemma ConsumerKeeps(
    cfg: Config, st: State, events: seq<Record>, r: Record, index: nat, target: nat)
    requires Consistent(st, events) && r.address in st.live
    requires IsFreeFunction(r.func) || r.func == FUNC_REALLOC
    requires CompileCall(cfg, st, r, index, target).Success?
    ensures var (st1, op) := CompileCall(cfg, st, r, index, target).value;
      Consistent(st1.(ops := st.ops + [op]), events + [r])
  {
    var (st1, op) := CompileCall(cfg, st, r, index, target).value;
    var st' := st1.(ops := st.ops + [op]);
    assert LiveMatches(st, events, 0);
    if Retires(r) {
      KeepRetire(st, events, st', op, r);
    } else {
      KeepRealloc(st, events, st', op, r, if r.result != 0 then r.result else r.address);
    }
  }

  lemma StarterKeeps(
    cfg: Config, st: State, events: seq<Record>, r: Record, index: nat, target: nat)
    requires Consistent(st, events) && !IsFreeFunction(r.func) && r.result != 0
    requires r.func == FUNC_REALLOC ==> r.address !in st.live
    requires CompileCall(cfg, st, r, index, target).Success?
    ensures var (st1, op) := CompileCall(cfg, st, r, index, target).value;
      Consistent(st1.(ops := st.ops + [op]), events + [r])
  {
    var (st1, op) := CompileCall(cfg, st, r, index, target).value;
    var st' := st1.(ops := st.ops + [op]);
    var base := if op.kind == OpReallocNull && r.address != 0
      then st.(hasUnknown := true,
               counts := st.counts.(unknownRealloc := st.counts.unknownRealloc + 1))
      else st;
    SameView(st, base, events);
    KeepObtain(base, events, st', op, r, index);
  }

  lemma CallKeeps(
    cfg: Config, st: State, events: seq<Record>, r: Record, index: nat, target: nat)
    requires Consistent(st, events) && IsAllocatorFunction(r.func)
    requires CompileCall(cfg, st, r, index, target).Success?
    ensures var (st1, op) := CompileCall(cfg, st, r, index, target).value;
      Consistent(st1.(ops := st.ops + [op]), events + [r])
  {
    if (IsFreeFunction(r.func) || r.func == FUNC_REALLOC) && r.address in st.live {
      ConsumerKeeps(cfg, st, events, r, index, target);
    } else if !IsFreeFunction(r.func) && r.result != 0 {
      StarterKeeps(cfg, st, events, r, index, target);
    } else {
      var (st1, op) := CompileCall(cfg, st, r, index, target).value;
      assert LiveMatches(st, events, r.address);
      Snoc(st.ops, op);
      Snoc(events, r);
      KeepNoSlot(st, events, st1.(ops := st.ops + [op]), op, r);
    }
  }

  /** Main result about the compiler: whatever trace it accepts, every operation is chained
      to the previous one on its slot, consumers take the trace's own object, and the
      dictionaries hold exactly the addresses the trace has live. */
  lemma {:induction false} CompileConsistent(cfg: Config, records: seq<Record>)
    requires Compile(cfg, records).Success?
    ensures Consistent(Compile(cfg, records).value, Events(records))
  {
    if records != [] {
      var n := |records| - 1;
      var st := Compile(cfg, records[..n]).value;
      var r := records[n];
      CompileConsistent(cfg, records[..n]);
      var events := Events(records[..n]);
      if IsAllocatorFunction(r.func) {
        var base := Register(st, r);
        SameView(st, base, events);
        var target := Target(cfg, Elapsed(cfg, r));
        CallKeeps(cfg, base, events, r, n, target);
        var (st1, op) := CompileCall(cfg, base, r, n, target).value;
        CallKeepsThreads(cfg, base, r, n, target);
        SameView(st1.(ops := st.ops + [op]), Emit(st1, op), events + [r]);
      } else {
        assert events + [] == events;
      }
    } else {
      assert forall a: nat :: LiveMatches(INITIAL, [], a);
    }
  }
}
