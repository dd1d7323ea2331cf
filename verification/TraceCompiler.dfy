/** Model of transform_trace in trace_to_native.py: the loop that compiles a totally
    ordered allocator trace into operations that hand objects over through
    (slot, generation) pairs. The class keeps the source's mutable dictionaries and is
    proved against the functional fold `Compile`, whose meaning is the subject of
    module TraceMeaning. */
module TraceCompiler {
  import opened Wrappers
  import opened NativeFormat

  datatype Config = Config(
    minimumTimestamp: nat, timestampMultiplier: pos, quantumNs: nat, allowUnknown: bool)

  type pos = n: nat | 0 < n witness 1

  datatype TraceError =
    | UnsupportedFunction(record: nat)
    | TimestampOverflow(record: nat)
    | SlotOverflow
    | GenerationOverflow(slot: nat)
    | AlreadyLive(record: nat)
    | UnmatchedFree(record: nat)
    | UnmatchedRealloc(record: nat)

  /** Where a live trace address is kept: the slot, the generation that publishes it
      and the thread that publishes it. */
  datatype Allocation = Allocation(slot: nat, generation: nat, owner: nat)

  /** A free-list entry: a slot and the generation its last operation publishes. */
  datatype Completed = Completed(slot: nat, generation: nat)

  datatype Grant = Grant(slot: nat, waitGeneration: nat, outputGeneration: nat)

  const NO_GRANT := Grant(SLOT_NONE, 0, 0)

  datatype Thread = Thread(cpu: nat, count: nat)

  datatype Counts = Counts(
    unknownFree: nat, unknownRealloc: nat, remoteFree: nat, remoteRealloc: nat)

  datatype State = State(
    live: map<nat, Allocation>,
    available: map<nat, seq<Completed>>,
    nextSlot: nat,
    hasUnknown: bool,
    counts: Counts,
    threads: map<nat, Thread>,
    order: seq<nat>,
    ops: seq<Op>)

  const INITIAL := State(map[], map[], 0, false, Counts(0, 0, 0, 0), map[], [], [])

  // ---------------------------------------------------------------- specification

  function FreeList(st: State, tid: nat): seq<Completed> {
    if tid in st.available then st.available[tid] else []
  }

  function Acquire(st: State, tid: nat): Result<(State, Grant), TraceError> {
    var list := FreeList(st, tid);
    if |list| > 0 then
      var entry := list[|list| - 1];
      if entry.generation == U32_MAX then
        Failure(GenerationOverflow(entry.slot))
      else
        Success((st.(available := st.available[tid := list[..|list| - 1]]),
                 Grant(entry.slot, entry.generation, entry.generation + 1)))
    else if st.nextSlot >= SLOT_NONE then
      Failure(SlotOverflow)
    else
      Success((st.(nextSlot := st.nextSlot + 1), Grant(st.nextSlot, 0, 1)))
  }

  function Release(st: State, tid: nat, slot: nat, generation: nat): State {
    st.(available := st.available[tid := FreeList(st, tid) + [Completed(slot, generation)]])
  }

  function Remember(st: State, address: nat, allocation: Allocation, index: nat)
    : Result<State, TraceError>
  {
    if address in st.live then Failure(AlreadyLive(index))
    else Success(st.(live := st.live[address := allocation]))
  }

  /** The slot a successful allocation publishes to, or none for a failed one. */
  function Obtain(st: State, r: Record, index: nat): Result<(State, Grant), TraceError> {
    if r.result == 0 then Success((st, NO_GRANT))
    else
      var (st1, grant) :- Acquire(st, r.tid);
      var st2 :- Remember(
        st1, r.result, Allocation(grant.slot, grant.outputGeneration, r.tid), index);
      Success((st2, grant))
  }

  function Register(st: State, r: Record): State {
    if r.tid in st.threads then st
    else st.(threads := st.threads[r.tid := Thread(r.cpu, 0)], order := st.order + [r.tid])
  }

  function Emit(st: State, op: Op): State
    requires op.tid in st.threads
  {
    var thread := st.threads[op.tid];
    st.(threads := st.threads[op.tid := thread.(count := thread.count + 1)],
        ops := st.ops + [op])
  }

  function Elapsed(cfg: Config, r: Record): nat {
    if r.timestamp < cfg.minimumTimestamp then 0 else r.timestamp - cfg.minimumTimestamp
  }

  function Target(cfg: Config, elapsed: nat): nat {
    var scaled := elapsed * cfg.timestampMultiplier;
    if cfg.quantumNs == 0 then scaled else Quantise(scaled, cfg.quantumNs)
  }

  function Quantise(value: nat, quantum: pos): nat {
    (value / quantum) * quantum
  }

  function Aux(r: Record): nat {
    if r.func in {FUNC_CALLOC, FUNC_POSIX_MEMALIGN, FUNC_ALIGNED_ALLOC, FUNC_MEMALIGN}
       && r.address <= U32_MAX
    then r.address else 0
  }

  function MakeOp(r: Record, target: nat, grant: Grant, aux: nat, kind: OpKind, ok: bool): Op {
    Op(r.tid, target, r.size, grant.slot, grant.waitGeneration, grant.outputGeneration,
       aux, r.func, kind, ok)
  }

  function CompileAlloc(st: State, r: Record, index: nat, target: nat)
    : Result<(State, Op), TraceError>
  {
    var (st1, grant) :- Obtain(st, r, index);
    Success((st1, MakeOp(r, target, grant, Aux(r), OpAlloc, r.result != 0)))
  }

  function CompileFree(cfg: Config, st: State, r: Record, index: nat, target: nat)
    : Result<(State, Op), TraceError>
  {
    if r.address !in st.live then
      if !cfg.allowUnknown then Failure(UnmatchedFree(index))
      else
        Success((st.(hasUnknown := true,
                     counts := st.counts.(unknownFree := st.counts.unknownFree + 1)),
                 MakeOp(r, target, NO_GRANT, 0, OpUnknownFree, false)))
    else
      var a := st.live[r.address];
      if a.generation == U32_MAX then Failure(GenerationOverflow(a.slot))
      else
        var st1 := st.(live := st.live - {r.address},
                       counts := if a.owner == r.tid then st.counts
                                 else st.counts.(remoteFree := st.counts.remoteFree + 1));
        Success((Release(st1, r.tid, a.slot, a.generation + 1),
                 MakeOp(r, target, Grant(a.slot, a.generation, a.generation + 1), 0,
                        OpFree, false)))
  }

  function CompileReallocNull(st: State, r: Record, index: nat, target: nat)
    : Result<(State, Op), TraceError>
  {
    var (st1, grant) :- Obtain(st, r, index);
    Success((st1, MakeOp(r, target, grant, 0, OpReallocNull, r.result != 0)))
  }

  function CompileReallocLive(st: State, r: Record, index: nat, target: nat)
    : Result<(State, Op), TraceError>
    requires r.address in st.live
  {
    var a := st.live[r.address];
    if a.generation + 1 > U32_MAX then Failure(GenerationOverflow(a.slot))
    else
      var st1 := st.(live := st.live - {r.address},
                     counts := if a.owner == r.tid then st.counts
                               else st.counts.(remoteRealloc := st.counts.remoteRealloc + 1));
      var kept := Allocation(a.slot, a.generation + 1, r.tid);
      var st2 :- if r.result != 0 then Remember(st1, r.result, kept, index)
                 else if r.size != 0 then Success(st1.(live := st1.live[r.address := kept]))
                 else Success(Release(st1, r.tid, a.slot, a.generation + 1));
      Success((st2, MakeOp(r, target, Grant(a.slot, a.generation, a.generation + 1), 0,
                           OpRealloc, r.result != 0)))
  }

  function CompileRealloc(cfg: Config, st: State, r: Record, index: nat, target: nat)
    : Result<(State, Op), TraceError>
  {
    if r.address == 0 then CompileReallocNull(st, r, index, target)
    else if r.address in st.live then CompileReallocLive(st, r, index, target)
    else if !cfg.allowUnknown then Failure(UnmatchedRealloc(index))
    else
      CompileReallocNull(
        st.(hasUnknown := true,
            counts := st.counts.(unknownRealloc := st.counts.unknownRealloc + 1)),
        r, index, target)
  }

  function CompileCall(cfg: Config, st: State, r: Record, index: nat, target: nat)
    : Result<(State, Op), TraceError>
  {
    if IsFreeFunction(r.func) then CompileFree(cfg, st, r, index, target)
    else if r.func == FUNC_REALLOC then CompileRealloc(cfg, st, r, index, target)
    else CompileAlloc(st, r, index, target)
  }

  function CompileRecord(cfg: Config, st: State, r: Record, index: nat)
    : Result<State, TraceError>
  {
    if !IsAllocatorFunction(r.func) then
      if IsLifecycleFunction(r.func) then Success(st)
      else Failure(UnsupportedFunction(index))
    else
      var elapsed := Elapsed(cfg, r);
      if elapsed > U64_MAX / cfg.timestampMultiplier then Failure(TimestampOverflow(index))
      else
        var (st1, op) :- CompileCall(cfg, Register(st, r), r, index, Target(cfg, elapsed));
        CallKeepsThreads(cfg, Register(st, r), r, index, Target(cfg, elapsed));
        Success(Emit(st1, op))
  }

  /** The state after compiling a whole trace, record by record. */
  function Compile(cfg: Config, records: seq<Record>): Result<State, TraceError> {
    if records == [] then Success(INITIAL)
    else
      var n := |records| - 1;
      var st :- Compile(cfg, records[..n]);
      CompileRecord(cfg, st, records[n], n)
  }

  lemma CallKeepsThreads(cfg: Config, st: State, r: Record, index: nat, target: nat)
    ensures var c := CompileCall(cfg, st, r, index, target);
      c.Success? ==>
        && c.value.0.threads == st.threads && c.value.0.order == st.order
        && c.value.0.ops == st.ops && c.value.1.tid == r.tid
  {
    if IsFreeFunction(r.func) {
    } else if r.func == FUNC_REALLOC {
      if r.address != 0 && r.address !in st.live {
        ObtainKeepsThreads(
          st.(hasUnknown := true,
              counts := st.counts.(unknownRealloc := st.counts.unknownRealloc + 1)),
          r, index);
      }
    } else {
      ObtainKeepsThreads(st, r, index);
    }
  }

  lemma ObtainKeepsThreads(st: State, r: Record, index: nat)
    ensures var c := Obtain(st, r, index);
      c.Success? ==>
        && c.value.0.threads == st.threads && c.value.0.order == st.order
        && c.value.0.ops == st.ops
  {}

  // ------------------------------------------------------------ the mutating compiler

  class Compiler {
    const cfg: Config
    var live: map<nat, Allocation>
    var available: map<nat, seq<Completed>>
    var nextSlot: nat
    var hasUnknown: bool
    var counts: Counts
    var threads: map<nat, Thread>
    var order: seq<nat>
    var spool: seq<Op>

    ghost function View(): State
      reads this
    {
      State(live, available, nextSlot, hasUnknown, counts, threads, order, spool)
    }

    constructor (cfg: Config)
      ensures this.cfg == cfg && View() == INITIAL
    {
      this.cfg := cfg;
      live, available, nextSlot, hasUnknown := map[], map[], 0, false;
      counts, threads, order, spool := Counts(0, 0, 0, 0), map[], [], [];
    }

    method AcquireSlot(tid: nat) returns (r: Result<Grant, TraceError>)
      modifies this
      ensures match Acquire(old(View()), tid)
        case Failure(e) => r == Failure(e)
        case Success((st, grant)) => r == Success(grant) && View() == st
    {
      if tid in available && |available[tid]| > 0 {
        var list := available[tid];
        var entry := list[|list| - 1];
        available := available[tid := list[..|list| - 1]];
        if entry.generation == U32_MAX {
          return Failure(GenerationOverflow(entry.slot));
        }
        return Success(Grant(entry.slot, entry.generation, entry.generation + 1));
      }
      if nextSlot >= SLOT_NONE {
        return Failure(SlotOverflow);
      }
      nextSlot := nextSlot + 1;
      return Success(Grant(nextSlot - 1, 0, 1));
    }

    method ReleaseSlot(tid: nat, slot: nat, generation: nat)
      modifies this`available
      ensures View() == Release(old(View()), tid, slot, generation)
    {
      if tid !in available {
        available := available[tid := []];
      }
      available := available[tid := available[tid] + [Completed(slot, generation)]];
    }

    method RememberLive(address: nat, allocation: Allocation, index: nat)
      returns (r: Result<(), TraceError>)
      modifies this`live
      ensures match Remember(old(View()), address, allocation, index)
        case Failure(e) => r == Failure(e)
        case Success(st) => r.Success? && View() == st
    {
      if address in live {
        return Failure(AlreadyLive(index));
      }
      live := live[address := allocation];
      return Success(());
    }

    method ObtainSlot(r: Record, index: nat) returns (g: Result<Grant, TraceError>)
      modifies this
      ensures match Obtain(old(View()), r, index)
        case Failure(e) => g == Failure(e)
        case Success((st, grant)) => g == Success(grant) && View() == st
    {
      if r.result == 0 {
        return Success(NO_GRANT);
      }
      g := AcquireSlot(r.tid);
      if g.Success? {
        var grant := g.value;
        var remembered := RememberLive(
          r.result, Allocation(grant.slot, grant.outputGeneration, r.tid), index);
        if remembered.Failure? {
          g := Failure(remembered.error);
        }
      }
    }

    method TransformFree(r: Record, index: nat, target: nat) returns (o: Result<Op, TraceError>)
      modifies this
      ensures match CompileFree(cfg, old(View()), r, index, target)
        case Failure(e) => o == Failure(e)
        case Success((st, op)) => o == Success(op) && View() == st
    {
      if r.address !in live {
        counts := counts.(unknownFree := counts.unknownFree + 1);
        if !cfg.allowUnknown {
          return Failure(UnmatchedFree(index));
        }
        hasUnknown := true;
        return Success(MakeOp(r, target, NO_GRANT, 0, OpUnknownFree, false));
      }
      var a := live[r.address];
      live := live - {r.address};
      if a.owner != r.tid {
        counts := counts.(remoteFree := counts.remoteFree + 1);
      }
      if a.generation == U32_MAX {
        return Failure(GenerationOverflow(a.slot));
      }
      ReleaseSlot(r.tid, a.slot, a.generation + 1);
      var grant := Grant(a.slot, a.generation, a.generation + 1);
      return Success(MakeOp(r, target, grant, 0, OpFree, false));
    }

    method TransformReallocNull(r: Record, index: nat, target: nat)
      returns (o: Result<Op, TraceError>)
      modifies this
      ensures match CompileReallocNull(old(View()), r, index, target)
        case Failure(e) => o == Failure(e)
        case Success((st, op)) => o == Success(op) && View() == st
    {
      var g := ObtainSlot(r, index);
      if g.Failure? {
        return Failure(g.error);
      }
      return Success(MakeOp(r, target, g.value, 0, OpReallocNull, r.result != 0));
    }

    method TransformRealloc(r: Record, index: nat, target: nat)
      returns (o: Result<Op, TraceError>)
      modifies this
      ensures match CompileRealloc(cfg, old(View()), r, index, target)
        case Failure(e) => o == Failure(e)
        case Success((st, op)) => o == Success(op) && View() == st
    {
      if r.address == 0 {
        o := TransformReallocNull(r, index, target);
        return;
      }
      if r.address !in live {
        counts := counts.(unknownRealloc := counts.unknownRealloc + 1);
        if !cfg.allowUnknown {
          return Failure(UnmatchedRealloc(index));
        }
        hasUnknown := true;
        o := TransformReallocNull(r, index, target);
        return;
      }
      var a := live[r.address];
      live := live - {r.address};
      if a.owner != r.tid {
        counts := counts.(remoteRealloc := counts.remoteRealloc + 1);
      }
      if a.generation + 1 > U32_MAX {
        return Failure(GenerationOverflow(a.slot));
      }
      var kept := Allocation(a.slot, a.generation + 1, r.tid);
      if r.result != 0 {
        var remembered := RememberLive(r.result, kept, index);
        if remembered.Failure? {
          return Failure(remembered.error);
        }
      } else if r.size != 0 {
        live := live[r.address := kept];
      } else {
        ReleaseSlot(r.tid, a.slot, a.generation + 1);
      }
      var grant := Grant(a.slot, a.generation, a.generation + 1);
      return Success(MakeOp(r, target, grant, 0, OpRealloc, r.result != 0));
    }

    method TransformCall(r: Record, index: nat, target: nat) returns (o: Result<Op, TraceError>)
      modifies this
      ensures match CompileCall(cfg, old(View()), r, index, target)
        case Failure(e) => o == Failure(e)
        case Success((st, op)) => o == Success(op) && View() == st
    {
      if IsFreeFunction(r.func) {
        o := TransformFree(r, index, target);
      } else if r.func == FUNC_REALLOC {
        o := TransformRealloc(r, index, target);
      } else {
        var g := ObtainSlot(r, index);
        if g.Failure? {
          return Failure(g.error);
        }
        return Success(MakeOp(r, target, g.value, Aux(r), OpAlloc, r.result != 0));
      }
    }

    /** One turn of the loop over records. */
    method TransformRecord(r: Record, index: nat) returns (ok: Result<(), TraceError>)
      modifies this
      ensures match CompileRecord(cfg, old(View()), r, index)
        case Failure(e) => ok == Failure(e)
        case Success(st) => ok.Success? && View() == st
    {
      if !IsAllocatorFunction(r.func) {
        if IsLifecycleFunction(r.func) {
          return Success(());
        }
        return Failure(UnsupportedFunction(index));
      }
      if r.tid !in threads {
        threads := threads[r.tid := Thread(r.cpu, 0)];
        order := order + [r.tid];
      }
      var elapsed := Elapsed(cfg, r);
      if elapsed > U64_MAX / cfg.timestampMultiplier {
        return Failure(TimestampOverflow(index));
      }
      ghost var before := View();
      var op := TransformCall(r, index, Target(cfg, elapsed));
      if op.Failure? {
        return Failure(op.error);
      }
      CallKeepsThreads(cfg, before, r, index, Target(cfg, elapsed));
      spool := spool + [op.value];
      threads := threads[r.tid := threads[r.tid].(count := threads[r.tid].count + 1)];
      return Success(());
    }

    /** The whole loop: the mutated state is the fold's, and it stops on the first record
        the fold rejects, with the same error. */
    method TransformTrace(records: seq<Record>) returns (ok: Result<(), TraceError>)
      requires View() == INITIAL
      modifies this
      ensures match Compile(cfg, records)
        case Failure(e) => ok == Failure(e)
        case Success(st) => ok.Success? && View() == st
    {
      for index := 0 to |records|
        invariant Compile(cfg, records[..index]) == Success(View())
      {
        assert records[..index + 1][..index] == records[..index];
        ok := TransformRecord(records[index], index);
        if ok.Failure? {
          FailureSticks(cfg, records, index + 1);
          return;
        }
      }
      assert records[..|records|] == records;
      return Success(());
    }
  }

  /** Once a prefix is rejected, every longer trace is rejected with the same error. */
  lemma {:induction false} FailureSticks(cfg: Config, records: seq<Record>, n: nat)
    requires n <= |records| && Compile(cfg, records[..n]).Failure?
    ensures Compile(cfg, records) == Failure(Compile(cfg, records[..n]).error)
    decreases |records|
  {
    if n == |records| {
      assert records[..n] == records;
    } else {
      var init := records[..|records| - 1];
      assert init[..n] == records[..n];
      FailureSticks(cfg, init, n);
    }
  }
}
