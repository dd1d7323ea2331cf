/** The preprocessing loop of replay_main.c: records become operations that hand objects over
    through (slot, generation) pairs, with the open-addressing object map as its live set.
    The loop is proved against a fold over a mathematical map; the fold's operations form a
    program the epoch barrier can run. */
module EpochCompiler {
  import opened Wrappers
  import opened NativeFormat
  import M = ObjectMap

  datatype EpochOp = EpochOp(
    tid: nat, ts: nat, size: nat, slot: nat, waitGen: nat, outGen: nat, kind: OpKind)

  datatype State = State(live: map<nat, M.Entry>, nextSlot: nat, ops: seq<EpochOp>)

  datatype Overflow = SlotOverflow

  const INITIAL := State(map[], 0, [])

  function Max(a: nat, b: nat): nat {
    if a > b then a else b
  }

  // -------------------------------------------------------------------- specification

  /** A new object: slot nextSlot, generation one. An address that is already live is
      overwritten. */
  function Start(st: State, r: Record, kind: OpKind): Result<State, Overflow> {
    if st.nextSlot > U32_MAX then Failure(SlotOverflow)
    else
      Success(State(
        st.live[r.result := M.Entry(st.nextSlot, 1, r.tid, r.size, r.timestamp)],
        st.nextSlot + 1,
        st.ops + [EpochOp(r.tid, r.timestamp, r.size, st.nextSlot, 0, 1, kind)]))
  }

  function CompileFree(st: State, r: Record, unknownSize: nat): State {
    if r.address == 0 then st
    else if r.address !in st.live then
      st.(ops := st.ops + [EpochOp(r.tid, r.timestamp, unknownSize, 0, 0, 0, OpUnknownFree)])
    else
      var x := st.live[r.address];
      st.(live := st.live - {r.address},
          ops := st.ops + [EpochOp(r.tid, Max(r.timestamp, x.lastTs), x.size, x.slot, x.gen, 0,
                              OpFree)])
  }

  function CompileRealloc(st: State, r: Record): Result<State, Overflow> {
    if r.address == 0 then
      if r.result == 0 then Success(st) else Start(st, r, OpReallocNull)
    else if r.address !in st.live then
      if r.result == 0 then Success(st) else Start(st, r, OpAlloc)
    else if r.result == 0 && r.size != 0 then Success(st)
    else
      var x := st.live[r.address];
      var ts := Max(r.timestamp, x.lastTs);
      var op := EpochOp(r.tid, ts, r.size, x.slot, x.gen, x.gen + 1, OpRealloc);
      var rest := st.live - {r.address};
      Success(State(
        if r.result == 0 then rest
        else rest[r.result := M.Entry(x.slot, x.gen + 1, r.tid, r.size, ts)],
        st.nextSlot, st.ops + [op]))
  }

  function CompileRecord(st: State, r: Record, unknownSize: nat): Result<State, Overflow> {
    if !IsAllocatorFunction(r.func) then Success(st)
    else if IsFreeFunction(r.func) then Success(CompileFree(st, r, unknownSize))
    else if r.func == FUNC_REALLOC then CompileRealloc(st, r)
    else if r.result == 0 then Success(st)
    else Start(st, r, OpAlloc)
  }

  function Compile(records: seq<Record>, unknownSize: nat): Result<State, Overflow> {
    if records == [] then Success(INITIAL)
    else
      var n := |records| - 1;
      var st :- Compile(records[..n], unknownSize);
      CompileRecord(st, records[n], unknownSize)
  }

  lemma {:induction false} FailureSticks(records: seq<Record>, unknownSize: nat, n: nat)
    requires n <= |records| && Compile(records[..n], unknownSize).Failure?
    ensures Compile(records, unknownSize).Failure?
    decreases |records|
  {
    if n == |records| {
      assert records[..n] == records;
    } else {
      var init := records[..|records| - 1];
      assert init[..n] == records[..n];
      FailureSticks(init, unknownSize, n);
    }
  }

  // --------------------------------------------------------------------------- the loop

  class Preprocessor {
    const live: M.Table
    const unknownSize: nat
    var nextSlot: nat
    var ops: seq<EpochOp>

    ghost function View(): State
      reads this, live
    {
      State(live.contents, nextSlot, ops)
    }

    ghost predicate Valid()
      reads this, live, live.keys, live.entries
    {
      live.Valid()
    }

    constructor (hash: (nat, nat) -> nat, cap: nat, unknownSize: nat)
      requires M.PowerOfTwo(cap)
      ensures Valid() && View() == INITIAL && this.unknownSize == unknownSize
      ensures fresh(live) && fresh(live.keys) && fresh(live.entries)
    {
      live := new M.Table.Alloc(hash, cap);
      this.unknownSize := unknownSize;
      nextSlot, ops := 0, [];
    }

    method StartObject(r: Record, kind: OpKind) returns (ok: bool)
      requires Valid() && r.result != 0
      modifies this`nextSlot, this`ops, live, live.keys, live.entries
      ensures Valid()
      ensures fresh(live.keys) || live.keys == old(live.keys)
      ensures fresh(live.entries) || live.entries == old(live.entries)
      ensures match Start(old(View()), r, kind)
        case Failure(_) => !ok
        case Success(st) => ok && View() == st
    {
      hide M.Represents, M.Gapped, M.PowerOfTwo;
      if nextSlot > U32_MAX {
        return false;
      }
      var slot := nextSlot;
      nextSlot := nextSlot + 1;
      ops := ops + [EpochOp(r.tid, r.timestamp, r.size, slot, 0, 1, kind)];
      live.Put(r.result, M.Entry(slot, 1, r.tid, r.size, r.timestamp));
      return true;
    }

    method Free(r: Record)
      requires Valid()
      modifies this`ops, live, live.keys, live.entries
      ensures Valid() && View() == CompileFree(old(View()), r, unknownSize)
      ensures fresh(live.keys) || live.keys == old(live.keys)
      ensures fresh(live.entries) || live.entries == old(live.entries)
    {
      hide M.Represents, M.Gapped, M.PowerOfTwo;
      if r.address == 0 {
        return;
      }
      var taken := live.Take(r.address);
      if taken.None? {
        assert live.contents == old(live.contents);
        ops := ops + [EpochOp(r.tid, r.timestamp, unknownSize, 0, 0, 0, OpUnknownFree)];
        return;
      }
      var x := taken.value;
      ops := ops + [EpochOp(r.tid, Max(r.timestamp, x.lastTs), x.size, x.slot, x.gen, 0, OpFree)];
    }

    method Realloc(r: Record) returns (ok: bool)
      requires Valid()
      modifies this`nextSlot, this`ops, live, live.keys, live.entries
      ensures Valid()
      ensures fresh(live.keys) || live.keys == old(live.keys)
      ensures fresh(live.entries) || live.entries == old(live.entries)
      ensures match CompileRealloc(old(View()), r)
        case Failure(_) => !ok
        case Success(st) => ok && View() == st
    {
      hide M.Represents, M.Gapped, M.PowerOfTwo;
      if r.address == 0 {
        if r.result == 0 {
          return true;
        }
        ok := StartObject(r, OpReallocNull);
        return;
      }
      var taken := live.Take(r.address);
      if taken.None? {
        assert live.contents == old(live.contents);
        if r.result != 0 {
          ok := StartObject(r, OpAlloc);
          return;
        }
        return true;
      }
      var x := taken.value;
      if r.result == 0 && r.size != 0 {
        live.Put(r.address, x);
        assert live.contents == old(live.contents);
        return true;
      }
      var ts := Max(r.timestamp, x.lastTs);
      ops := ops + [EpochOp(r.tid, ts, r.size, x.slot, x.gen, x.gen + 1, OpRealloc)];
      if r.result != 0 {
        live.Put(r.result, M.Entry(x.slot, x.gen + 1, r.tid, r.size, ts));
      }
      return true;
    }

    /** One turn of the loop over records. */
    method Record(r: Record) returns (ok: bool)
      requires Valid()
      modifies this`nextSlot, this`ops, live, live.keys, live.entries
      ensures Valid()
      ensures fresh(live.keys) || live.keys == old(live.keys)
      ensures fresh(live.entries) || live.entries == old(live.entries)
      ensures match CompileRecord(old(View()), r, unknownSize)
        case Failure(_) => !ok
        case Success(st) => ok && View() == st
    {
      hide M.Represents, M.Gapped, M.PowerOfTwo;
      if !IsAllocatorFunction(r.func) {
        return true;
      }
      if IsFreeFunction(r.func) {
        Free(r);
        return true;
      }
      if r.func == FUNC_REALLOC {
        ok := Realloc(r);
        return;
      }
      if r.result == 0 {
        return true;
      }
      ok := StartObject(r, OpAlloc);
    }

    /** The whole loop: it computes the fold, or stops when the slots run out. */
    method Preprocess(records: seq<Record>) returns (ok: bool)
      requires Valid() && View() == INITIAL
      modifies this`nextSlot, this`ops, live, live.keys, live.entries
      ensures match Compile(records, unknownSize)
        case Failure(_) => !ok
        case Success(st) => ok && View() == st
    {
      hide M.Represents, M.Gapped, M.PowerOfTwo;
      for i := 0 to |records|
        invariant Valid()
        invariant fresh(live.keys) || live.keys == old(live.keys)
        invariant fresh(live.entries) || live.entries == old(live.entries)
        invariant Compile(records[..i], unknownSize) == Success(View())
      {
        assert records[..i + 1][..i] == records[..i];
        ok := Record(records[i]);
        if !ok {
          FailureSticks(records, unknownSize, i + 1);
          return;
        }
      }
      assert records[..|records|] == records;
      return true;
    }
  }

  // ------------------------------------------------------- what a compiled program is

  predicate Publishes(o: EpochOp, slot: nat, gen: nat) {
    o.slot == slot && o.outGen == gen && gen > 0
  }

  /** The operation that hands over what operation k waits for. */
  predicate Hands(ops: seq<EpochOp>, j: nat, k: nat)
    requires j < |ops| && k < |ops|
  {
    j < k && Publishes(ops[j], ops[k].slot, ops[k].waitGen) && ops[j].ts <= ops[k].ts
  }

  predicate ShapeOk(o: EpochOp) {
    match o.kind
    case OpUnknownFree => o.waitGen == 0 && o.outGen == 0
    case OpFree => o.waitGen > 0 && o.outGen == 0
    case OpRealloc => o.waitGen > 0 && o.outGen == o.waitGen + 1
    case _ => o.waitGen == 0 && o.outGen == 1
  }

  predicate Linked(ops: seq<EpochOp>, k: nat)
    requires k < |ops|
  {
    ShapeOk(ops[k]) && (ops[k].waitGen > 0 ==> exists j | 0 <= j < k :: Hands(ops, j, k))
  }

  /** Two operations on one slot wait for different generations, in trace order. */
  predicate Ordered(ops: seq<EpochOp>, j: nat, k: nat)
    requires j < k < |ops|
  {
    !ops[j].kind.OpUnknownFree? && !ops[k].kind.OpUnknownFree? && ops[j].slot == ops[k].slot
    ==> ops[j].waitGen < ops[k].waitGen
  }

  predicate Program(ops: seq<EpochOp>) {
    && (forall k | 0 <= k < |ops| :: Linked(ops, k))
    && forall j, k | 0 <= j < k < |ops| :: Ordered(ops, j, k)
  }

  // ----------------------------------------------------------------- compiler invariant

  predicate Published(ops: seq<EpochOp>, x: M.Entry) {
    exists j | 0 <= j < |ops| ::
      Publishes(ops[j], x.slot, x.gen) && ops[j].ts <= x.lastTs
  }

  /** Operations so far wait for less than `gen` on the slot. */
  predicate WaitsBelow(ops: seq<EpochOp>, slot: nat, gen: nat, k: nat)
    requires k < |ops|
  {
    !ops[k].kind.OpUnknownFree? && ops[k].slot == slot ==> ops[k].waitGen < gen
  }

  ghost predicate EntryOk(st: State, x: M.Entry) {
    && x.gen >= 1 && x.slot < st.nextSlot && Published(st.ops, x)
    && forall k | 0 <= k < |st.ops| :: WaitsBelow(st.ops, x.slot, x.gen, k)
  }

  predicate SlotUsed(st: State, k: nat)
    requires k < |st.ops|
  {
    !st.ops[k].kind.OpUnknownFree? ==> st.ops[k].slot < st.nextSlot
  }

  predicate SlotsApart(live: map<nat, M.Entry>, a: nat, b: nat) {
    a in live && b in live && a != b ==> live[a].slot != live[b].slot
  }

  ghost predicate Inv(st: State) {
    && Program(st.ops)
    && (forall k | 0 <= k < |st.ops| :: SlotUsed(st, k))
    && (forall a | a in st.live :: EntryOk(st, st.live[a]))
    && forall a, b :: SlotsApart(st.live, a, b)
  }

  lemma ProgramSnoc(ops: seq<EpochOp>, o: EpochOp)
    requires Program(ops) && ShapeOk(o)
    requires o.waitGen > 0 ==>
      exists j | 0 <= j < |ops| :: Publishes(ops[j], o.slot, o.waitGen) && ops[j].ts <= o.ts
    requires !o.kind.OpUnknownFree? ==>
      forall k | 0 <= k < |ops| :: WaitsBelow(ops, o.slot, o.waitGen, k)
    ensures Program(ops + [o])
  {
    var ops' := ops + [o];
    forall k | 0 <= k < |ops'| ensures Linked(ops', k) {
      if k < |ops| {
        assert Linked(ops, k);
        if ops[k].waitGen > 0 {
          var j :| 0 <= j < k && Hands(ops, j, k);
          assert Hands(ops', j, k);
        }
      } else if o.waitGen > 0 {
        var j :| 0 <= j < |ops| && Publishes(ops[j], o.slot, o.waitGen) && ops[j].ts <= o.ts;
        assert Hands(ops', j, k);
      }
    }
    forall j, k | 0 <= j < k < |ops'| ensures Ordered(ops', j, k) {
      if k < |ops| {
        assert Ordered(ops, j, k);
      } else {
        assert !o.kind.OpUnknownFree? ==> WaitsBelow(ops, o.slot, o.waitGen, j);
      }
    }
  }

  lemma EntryStays(st: State, st': State, x: M.Entry, o: EpochOp)
    requires EntryOk(st, x) && st'.ops == st.ops + [o] && st'.nextSlot >= st.nextSlot
    requires o.kind.OpUnknownFree? || o.slot != x.slot
    ensures EntryOk(st', x)
  {
    var j :| 0 <= j < |st.ops| && Publishes(st.ops[j], x.slot, x.gen) && st.ops[j].ts <= x.lastTs;
    assert st'.ops[j] == st.ops[j];
    forall k | 0 <= k < |st'.ops| ensures WaitsBelow(st'.ops, x.slot, x.gen, k) {
      if k < |st.ops| {
        assert WaitsBelow(st.ops, x.slot, x.gen, k);
      }
    }
  }

  lemma SlotsUsedSnoc(st: State, st': State, o: EpochOp)
    requires forall k | 0 <= k < |st.ops| :: SlotUsed(st, k)
    requires st'.ops == st.ops + [o] && st'.nextSlot >= st.nextSlot
    requires !o.kind.OpUnknownFree? ==> o.slot < st'.nextSlot
    ensures forall k | 0 <= k < |st'.ops| :: SlotUsed(st', k)
  {
    forall k | 0 <= k < |st'.ops| ensures SlotUsed(st', k) {
      assert k < |st.ops| ==> SlotUsed(st, k);
    }
  }

  lemma StartKeeps(st: State, r: Record, kind: OpKind)
    requires Inv(st) && kind in {OpAlloc, OpReallocNull}
    ensures Start(st, r, kind).Success? ==> Inv(Start(st, r, kind).value)
  {
    if st.nextSlot <= U32_MAX {
      var st' := Start(st, r, kind).value;
      var o := EpochOp(r.tid, r.timestamp, r.size, st.nextSlot, 0, 1, kind);
      forall k | 0 <= k < |st.ops| ensures WaitsBelow(st.ops, o.slot, o.waitGen, k) {
        assert SlotUsed(st, k);
      }
      ProgramSnoc(st.ops, o);
      SlotsUsedSnoc(st, st', o);
      forall a | a in st'.live ensures EntryOk(st', st'.live[a]) {
        if a == r.result {
          assert st'.ops[|st.ops|] == o;
          forall k | 0 <= k < |st'.ops| ensures WaitsBelow(st'.ops, o.slot, 1, k) {
            assert k < |st.ops| ==> SlotUsed(st, k);
          }
        } else {
          EntryStays(st, st', st.live[a], o);
        }
      }
      forall a, b ensures SlotsApart(st'.live, a, b) {
        assert SlotsApart(st.live, a, b);
        assert a in st.live ==> EntryOk(st, st.live[a]);
        assert b in st.live ==> EntryOk(st, st.live[b]);
      }
    }
  }

  /** An operation that consumes the object at address a. */
  lemma ConsumeKeeps(st: State, a: nat, o: EpochOp, live: map<nat, M.Entry>)
    requires Inv(st) && a in st.live && ShapeOk(o) && !o.kind.OpUnknownFree?
    requires var x := st.live[a];
      o.slot == x.slot && o.waitGen == x.gen && o.ts >= x.lastTs
    requires live.Keys == st.live.Keys - {a}
    requires forall b | b in live :: live[b] == st.live[b]
    ensures Inv(State(live, st.nextSlot, st.ops + [o]))
  {
    var x := st.live[a];
    var st' := State(live, st.nextSlot, st.ops + [o]);
    assert EntryOk(st, x);
    var j :| 0 <= j < |st.ops| && Publishes(st.ops[j], x.slot, x.gen) && st.ops[j].ts <= x.lastTs;
    ProgramSnoc(st.ops, o);
    SlotsUsedSnoc(st, st', o);
    forall b | b in live ensures EntryOk(st', live[b]) {
      assert SlotsApart(st.live, a, b);
      EntryStays(st, st', st.live[b], o);
    }
    forall b, c ensures SlotsApart(live, b, c) {
      assert SlotsApart(st.live, b, c);
    }
  }

  /** The consumed object is republished at another generation. */
  lemma RepublishKeeps(st: State, a: nat, x: M.Entry)
    requires Inv(st) && EntryOk(st, x)
    requires forall b | b in st.live :: st.live[b].slot != x.slot
    ensures Inv(st.(live := st.live[a := x]))
  {
    var st' := st.(live := st.live[a := x]);
    assert forall k | 0 <= k < |st.ops| :: SlotUsed(st, k) ==> SlotUsed(st', k);
    forall b | b in st'.live ensures EntryOk(st', st'.live[b]) {
      assert EntryOk(st, st'.live[b]);
      assert forall k | 0 <= k < |st.ops| ::
        WaitsBelow(st.ops, st'.live[b].slot, st'.live[b].gen, k);
    }
    forall b, c ensures SlotsApart(st'.live, b, c) {
      assert SlotsApart(st.live, b, c);
    }
  }

  lemma ReallocKeeps(st: State, r: Record)
    requires Inv(st) && r.address in st.live && !(r.result == 0 && r.size != 0) && r.address != 0
    ensures CompileRealloc(st, r).Success? && Inv(CompileRealloc(st, r).value)
  {
    var x := st.live[r.address];
    var ts := Max(r.timestamp, x.lastTs);
    var o := EpochOp(r.tid, ts, r.size, x.slot, x.gen, x.gen + 1, OpRealloc);
    var rest := st.live - {r.address};
    assert EntryOk(st, x);
    ConsumeKeeps(st, r.address, o, rest);
    var st1 := State(rest, st.nextSlot, st.ops + [o]);
    if r.result != 0 {
      var x' := M.Entry(x.slot, x.gen + 1, r.tid, r.size, ts);
      assert st1.ops[|st.ops|] == o;
      forall k | 0 <= k < |st1.ops| ensures WaitsBelow(st1.ops, x'.slot, x'.gen, k) {
        assert k < |st.ops| ==> WaitsBelow(st.ops, x.slot, x.gen, k);
      }
      assert EntryOk(st1, x');
      forall b | b in rest ensures rest[b].slot != x.slot {
        assert SlotsApart(st.live, r.address, b);
      }
      RepublishKeeps(st1, r.result, x');
    }
  }

  lemma FreeKeeps(st: State, r: Record, unknownSize: nat)
    requires Inv(st)
    ensures Inv(CompileFree(st, r, unknownSize))
  {
    if r.address == 0 {
    } else if r.address !in st.live {
      var o := EpochOp(r.tid, r.timestamp, unknownSize, 0, 0, 0, OpUnknownFree);
      var st' := st.(ops := st.ops + [o]);
      ProgramSnoc(st.ops, o);
      SlotsUsedSnoc(st, st', o);
      forall a | a in st.live ensures EntryOk(st', st.live[a]) {
        EntryStays(st, st', st.live[a], o);
      }
    } else {
      var x := st.live[r.address];
      assert EntryOk(st, x);
      ConsumeKeeps(st, r.address,
                   EpochOp(r.tid, Max(r.timestamp, x.lastTs), x.size, x.slot, x.gen, 0, OpFree),
                   st.live - {r.address});
    }
  }

  /** Every operation waits for a generation that an earlier operation, no later in time,
      publishes; no two operations wait for, or publish, the same one. */
  lemma {:induction false} CompiledProgram(records: seq<Record>, unknownSize: nat)
    requires Compile(records, unknownSize).Success?
    ensures Inv(Compile(records, unknownSize).value)
  {
    if records != [] {
      var n := |records| - 1;
      CompiledProgram(records[..n], unknownSize);
      var st := Compile(records[..n], unknownSize).value;
      var r := records[n];
      if IsAllocatorFunction(r.func) {
        if IsFreeFunction(r.func) {
          FreeKeeps(st, r, unknownSize);
        } else if r.func == FUNC_REALLOC {
          if r.address == 0 {
            StartKeeps(st, r, OpReallocNull);
          } else if r.address !in st.live {
            StartKeeps(st, r, OpAlloc);
          } else if !(r.result == 0 && r.size != 0) {
            ReallocKeeps(st, r);
          }
        } else {
          StartKeeps(st, r, OpAlloc);
        }
      }
    }
  }

  // ------------------------------------------------------------------------- timestamps

  predicate Nondecreasing(records: seq<Record>) {
    forall i, j | 0 <= i < j < |records| :: records[i].timestamp <= records[j].timestamp
  }

  predicate Timed(ops: seq<EpochOp>) {
    forall j, k | 0 <= j < k < |ops| :: ops[j].ts <= ops[k].ts
  }

  /** With nondecreasing record times the operations are in time order: taking the maximum
      with the object's last time then changes nothing. */
  lemma {:induction false} CompiledInTimeOrder(records: seq<Record>, unknownSize: nat)
    requires Compile(records, unknownSize).Success? && Nondecreasing(records)
    ensures Timed(Compile(records, unknownSize).value.ops)
    ensures var st := Compile(records, unknownSize).value;
      && (forall k | 0 <= k < |st.ops| ::
            records != [] && st.ops[k].ts <= records[|records| - 1].timestamp)
      && (forall a | a in st.live ::
            records != [] && st.live[a].lastTs <= records[|records| - 1].timestamp)
  {
    if records != [] {
      var n := |records| - 1;
      CompiledInTimeOrder(records[..n], unknownSize);
      var st := Compile(records[..n], unknownSize).value;
      if n > 0 {
        assert records[..n][n - 1].timestamp <= records[n].timestamp;
      }
    }
  }
}
