/** From the records to the epochs: the scan of replay_main.c for times and lifetimes, the
    order of the workers and the number of epochs. A planned configuration meets all the
    assumptions of the barrier, so its guarantees hold of every trace in time order. */
module EpochPlan {
  import opened Wrappers
  import opened NativeFormat
  import C = EpochCompiler
  import opened EpochBarrier
  import opened EpochTheorems
  import P = EpochProgress
  import L = LateWorkers

  const FUNC_THREAD_CREATE: nat := 100
  const FUNC_THREAD_START: nat := 101
  const FUNC_THREAD_END: nat := 102

  datatype Life = Life(
    startTs: nat, endTs: nat, firstOp: nat, lastOp: nat, hasStart: bool, hasEnd: bool)

  const FRESH := Life(U64_MAX, 0, U64_MAX, 0, false, false)

  /** `tids` in the order in which the threads were first seen. */
  datatype Times = Times(minTs: nat, maxTs: nat, tids: seq<nat>, lives: map<nat, Life>)

  function Min(a: nat, b: nat): nat {
    if a < b then a else b
  }

  // --------------------------------------------------------------------------- the scan

  function Register(t: Times, tid: nat): Times {
    if tid in t.lives then t
    else t.(tids := t.tids + [tid], lives := t.lives[tid := FRESH])
  }

  /** The records that register their thread as a worker with operations. */
  predicate Notes(r: Record) {
    && IsAllocatorFunction(r.func)
    && (IsFreeFunction(r.func) ==> r.address != 0)
    && (!IsFreeFunction(r.func) && r.func != FUNC_REALLOC ==> r.result != 0)
  }

  function NextLife(l: Life, r: Record): Life {
    if r.func == FUNC_THREAD_START then
      l.(hasStart := true, startTs := Min(l.startTs, r.timestamp))
    else if r.func == FUNC_THREAD_END then
      l.(hasEnd := true, endTs := C.Max(l.endTs, r.timestamp))
    else if r.func >= FUNC_THREAD_CREATE then l
    else l.(firstOp := Min(l.firstOp, r.timestamp), lastOp := C.Max(l.lastOp, r.timestamp))
  }

  function NoteRecord(t: Times, r: Record): Times {
    var t' := t.(minTs := Min(t.minTs, r.timestamp), maxTs := C.Max(t.maxTs, r.timestamp));
    if r.func < FUNC_THREAD_CREATE && !Notes(r) then t'
    else
      var t'' := Register(t', r.tid);
      t''.(lives := t''.lives[r.tid := NextLife(t''.lives[r.tid], r)])
  }

  function Scan(records: seq<Record>): Times {
    if records == [] then Times(U64_MAX, 0, [], map[])
    else NoteRecord(Scan(records[..|records| - 1]), records[|records| - 1])
  }

  /** The part of the loop over records that keeps times and lifetimes. */
  method ScanRecords(records: seq<Record>) returns (t: Times)
    ensures t == Scan(records)
  {
    var minTs, maxTs := U64_MAX, 0;
    var tids: seq<nat>, lives: map<nat, Life> := [], map[];
    for i := 0 to |records|
      invariant Times(minTs, maxTs, tids, lives) == Scan(records[..i])
    {
      var r := records[i];
      if r.timestamp < minTs { minTs := r.timestamp; }
      if r.timestamp > maxTs { maxTs := r.timestamp; }
      if r.func >= FUNC_THREAD_CREATE || Notes(r) {
        if r.tid !in lives {
          tids := tids + [r.tid];
          lives := lives[r.tid := FRESH];
        }
        lives := lives[r.tid := NextLife(lives[r.tid], r)];
      }
      assert records[..i + 1][..i] == records[..i];
    }
    assert records[..|records|] == records;
    t := Times(minTs, maxTs, tids, lives);
  }

  // --------------------------------------------------------------------------- the plan

  /** A trace without a record starts at 0. */
  function MinTs(t: Times): nat {
    if t.minTs == U64_MAX then 0 else t.minTs
  }

  function Span(t: Times): pos {
    if t.maxTs >= MinTs(t) then t.maxTs - MinTs(t) + 1 else 1
  }

  function CeilDiv(a: nat, b: pos): nat {
    (a + b - 1) / b
  }

  /** The size asked for, or the one that cuts the trace into about `target` epochs. */
  function EpochSize(t: Times, size: nat, target: pos): (r: pos)
    ensures size == 0 || r == size
  {
    if size != 0 then size
    else if CeilDiv(Span(t), target) == 0 then 1 else CeilDiv(Span(t), target)
  }

  function Lifetime(t: Times, tid: nat): (w: WorkerInfo)
    requires tid in t.lives
    ensures w.startTs <= w.endTs
  {
    var l := t.lives[tid];
    var start := if l.hasStart then l.startTs else if l.firstOp != U64_MAX then l.firstOp else MinTs(t);
    var end := if l.hasEnd then l.endTs else if l.lastOp != 0 then l.lastOp else t.maxTs;
    var start' := if start == U64_MAX then MinTs(t) else start;
    WorkerInfo(tid, start', C.Max(end, start'))
  }

  predicate HasOps(ops: seq<C.EpochOp>, tid: nat) {
    exists k | 0 <= k < |ops| :: ops[k].tid == tid
  }

  /** Thread number i becomes a worker. */
  predicate Works(t: Times, ops: seq<C.EpochOp>, i: nat)
    requires i < |t.tids|
  {
    && t.tids[i] in t.lives
    && (HasOps(ops, t.tids[i]) || t.lives[t.tids[i]].hasStart || t.lives[t.tids[i]].hasEnd)
  }

  /** By start, and by first appearance among equals. */
  predicate Before(t: Times, i: nat, j: nat)
    requires i < |t.tids| && j < |t.tids| && t.tids[i] in t.lives && t.tids[j] in t.lives
  {
    var a, b := Lifetime(t, t.tids[i]).startTs, Lifetime(t, t.tids[j]).startTs;
    a < b || (a == b && i < j)
  }

  /** The result of sorting the workers among the first n threads. */
  ghost predicate Sorted(t: Times, ops: seq<C.EpochOp>, order: seq<nat>, n: nat) {
    && n <= |t.tids|
    && (forall k | 0 <= k < |order| :: order[k] < n && Works(t, ops, order[k]))
    && (forall i | 0 <= i < n && Works(t, ops, i) :: i in order)
    && forall j, k | 0 <= j < k < |order| :: Before(t, order[j], order[k])
  }

  /** The configuration that the replay of these records runs with. */
  ghost predicate Planned(
    records: seq<Record>, unknownSize: nat, size: nat, target: pos, order: seq<nat>, cfg: Config)
  {
    var t := Scan(records);
    && C.Compile(records, unknownSize).Success?
    && cfg.ops == C.Compile(records, unknownSize).value.ops
    && Sorted(t, cfg.ops, order, |t.tids|)
    && |cfg.workers| == |order|
    && (forall k | 0 <= k < |order| :: cfg.workers[k] == Lifetime(t, t.tids[order[k]]))
    && cfg.minTs == MinTs(t) && cfg.epochSize == EpochSize(t, size, target)
    && cfg.epochs == if CeilDiv(Span(t), cfg.epochSize) == 0 then 1
                     else CeilDiv(Span(t), cfg.epochSize)
  }

  /** No sum of the plan leaves 64 bits. */
  predicate Fits(records: seq<Record>, size: nat, target: pos) {
    var t := Scan(records);
    t.maxTs + EpochSize(t, size, target) <= U64_MAX && t.maxTs + target <= U64_MAX
  }

  // ---------------------------------------------------------------- what the scan knows

  predicate LifeOk(t: Times, l: Life) {
    && l.startTs <= U64_MAX && l.firstOp <= U64_MAX && l.endTs <= t.maxTs && l.lastOp <= t.maxTs
    && (l.hasStart ==> l.startTs <= t.maxTs)
  }

  ghost predicate ScanOk(t: Times) {
    && t.minTs <= U64_MAX
    && (forall i, j | 0 <= i < j < |t.tids| :: t.tids[i] != t.tids[j])
    && (forall i | 0 <= i < |t.tids| :: t.tids[i] in t.lives)
    && forall tid | tid in t.lives :: tid in t.tids && LifeOk(t, t.lives[tid])
  }

  lemma RegisterKeeps(t: Times, tid: nat)
    requires ScanOk(t)
    ensures ScanOk(Register(t, tid)) && tid in Register(t, tid).tids
  {
    var t' := Register(t, tid);
    assert tid !in t.lives ==> t'.tids[|t.tids|] == tid;
    forall x | x in t'.lives ensures x in t'.tids && LifeOk(t', t'.lives[x]) {
      if x in t.lives {
        assert LifeOk(t, t.lives[x]);
        var i :| 0 <= i < |t.tids| && t.tids[i] == x;
        assert t'.tids[i] == x;
      }
    }
  }

  lemma NoteKeeps(t: Times, r: Record)
    requires ScanOk(t)
    ensures ScanOk(NoteRecord(t, r))
  {
    var t1 := t.(minTs := Min(t.minTs, r.timestamp), maxTs := C.Max(t.maxTs, r.timestamp));
    forall x | x in t1.lives ensures LifeOk(t1, t1.lives[x]) {
      assert LifeOk(t, t.lives[x]);
    }
    RegisterKeeps(t1, r.tid);
    var t2, t' := Register(t1, r.tid), NoteRecord(t, r);
    forall x | x in t'.lives ensures LifeOk(t', t'.lives[x]) {
      assert x in t2.lives ==> LifeOk(t2, t2.lives[x]);
    }
  }

  lemma {:induction false} ScanIsOk(records: seq<Record>)
    ensures ScanOk(Scan(records))
    ensures forall i | 0 <= i < |records| :: records[i].timestamp <= Scan(records).maxTs
  {
    if records != [] {
      var n := |records| - 1;
      ScanIsOk(records[..n]);
      NoteKeeps(Scan(records[..n]), records[n]);
      forall i | 0 <= i < n ensures records[i].timestamp <= Scan(records).maxTs {
        assert records[..n][i] == records[i];
      }
    }
  }

  /** The thread of every operation is registered, with its first call no later. */
  predicate Seen(t: Times, o: C.EpochOp) {
    o.tid in t.lives && t.lives[o.tid].firstOp <= o.ts
  }

  lemma {:induction false} OpsAreSeen(records: seq<Record>, unknownSize: nat)
    requires C.Compile(records, unknownSize).Success?
    ensures forall k | 0 <= k < |C.Compile(records, unknownSize).value.ops| ::
      Seen(Scan(records), C.Compile(records, unknownSize).value.ops[k])
  {
    if records != [] {
      var n := |records| - 1;
      var r := records[n];
      OpsAreSeen(records[..n], unknownSize);
      var st := C.Compile(records[..n], unknownSize).value;
      var st' := C.Compile(records, unknownSize).value;
      assert st'.ops == st.ops || st'.ops == st.ops + [st'.ops[|st.ops|]];
      assert st'.ops != st.ops ==> Notes(r) && st'.ops[|st.ops|].tid == r.tid
                                   && st'.ops[|st.ops|].ts >= r.timestamp;
      forall k | 0 <= k < |st'.ops| ensures Seen(Scan(records), st'.ops[k]) {
        if k < |st.ops| {
          assert Seen(Scan(records[..n]), st.ops[k]);
        }
      }
    }
  }

  // -------------------------------------------------------------------- the plan is good

  lemma EpochsCover(t: Times, size: pos, epochs: nat)
    requires epochs == if CeilDiv(Span(t), size) == 0 then 1 else CeilDiv(Span(t), size)
    ensures epochs >= 1 && t.maxTs < MinTs(t) + epochs * size
    ensures MinTs(t) + epochs * size <= C.Max(MinTs(t), t.maxTs) + size
  {
    var a := Span(t) + size - 1;
    assert a == (a / size) * size + a % size;
    assert epochs == a / size;
  }

  /** Whatever order sorting leaves, the plan meets the assumptions of the barrier. */
  lemma PlanIsWellFormed(
    records: seq<Record>, unknownSize: nat, size: nat, target: pos, order: seq<nat>, cfg: Config)
    requires C.Nondecreasing(records) && Fits(records, size, target)
    requires Planned(records, unknownSize, size, target, order, cfg)
    ensures WellFormed(cfg)
  {
    var t := Scan(records);
    C.CompiledProgram(records, unknownSize);
    C.CompiledInTimeOrder(records, unknownSize);
    ScanIsOk(records);
    OpsAreSeen(records, unknownSize);
    EpochsCover(t, cfg.epochSize, cfg.epochs);
    forall k | 0 <= k < |cfg.ops| ensures HasWorker(cfg, k) {
      assert Seen(t, cfg.ops[k]);
      var i :| 0 <= i < |t.tids| && t.tids[i] == cfg.ops[k].tid;
      assert Works(t, cfg.ops, i);
      var w :| 0 <= w < |order| && order[w] == i;
      assert cfg.workers[w].tid == cfg.ops[k].tid;
    }
    forall v, w | 0 <= v < w < |cfg.workers| ensures InOrder(cfg, v, w) {
      assert Before(t, order[v], order[w]) && !Before(t, order[v], order[v]);
    }
    forall w | 0 <= w < |cfg.workers| ensures cfg.workers[w].endTs <= U64_MAX {
      assert Works(t, cfg.ops, order[w]) && LifeOk(t, t.lives[t.tids[order[w]]]);
    }
  }

  /** There is such an order. */
  lemma {:induction false} SortedExists(t: Times, ops: seq<C.EpochOp>, n: nat)
    returns (order: seq<nat>)
    requires ScanOk(t) && n <= |t.tids|
    ensures Sorted(t, ops, order, n)
  {
    if n == 0 {
      order := [];
    } else {
      order := SortedExists(t, ops, n - 1);
      if Works(t, ops, n - 1) {
        order := Insert(t, ops, order, n - 1, |order|);
      }
    }
  }

  /** Thread n goes behind the first p workers at most. */
  lemma {:induction false} Insert(
    t: Times, ops: seq<C.EpochOp>, order: seq<nat>, n: nat, p: nat) returns (longer: seq<nat>)
    requires Sorted(t, ops, order, n) && n < |t.tids| && Works(t, ops, n) && p <= |order|
    requires forall k | p <= k < |order| :: Before(t, n, order[k])
    ensures Sorted(t, ops, longer, n + 1)
  {
    if p > 0 && Before(t, n, order[p - 1]) {
      longer := Insert(t, ops, order, n, p - 1);
    } else {
      longer := order[..p] + [n] + order[p..];
      forall k | 0 <= k < p ensures Before(t, order[k], n) {
        assert Works(t, ops, order[k]) && Works(t, ops, order[p - 1]);
        assert k < p - 1 ==> Before(t, order[k], order[p - 1]);
      }
      InsertSorts(t, ops, order, n, p);
    }
  }

  lemma InsertSorts(t: Times, ops: seq<C.EpochOp>, order: seq<nat>, n: nat, p: nat)
    requires Sorted(t, ops, order, n) && n < |t.tids| && Works(t, ops, n) && p <= |order|
    requires forall k | p <= k < |order| :: Before(t, n, order[k])
    requires forall k | 0 <= k < p :: Before(t, order[k], n)
    ensures Sorted(t, ops, order[..p] + [n] + order[p..], n + 1)
  {
    hide Before;
    var longer := order[..p] + [n] + order[p..];
    forall k | 0 <= k < |longer| ensures longer[k] < n + 1 && Works(t, ops, longer[k]) {
      assert k > p ==> longer[k] == order[k - 1];
    }
    forall j, k | 0 <= j < k < |longer| ensures Before(t, longer[j], longer[k]) {
      assert k > p ==> longer[k] == order[k - 1];
      assert j > p ==> longer[j] == order[j - 1];
    }
    forall i | 0 <= i < n + 1 && Works(t, ops, i) ensures i in longer {
      assert order == order[..p] + order[p..] && (i < n ==> i in order);
      assert longer[p] == n;
    }
  }

  /** Every trace that compiles has a plan. */
  lemma PlanExists(records: seq<Record>, unknownSize: nat, size: nat, target: pos)
    returns (order: seq<nat>, cfg: Config)
    requires C.Compile(records, unknownSize).Success?
    ensures Planned(records, unknownSize, size, target, order, cfg)
  {
    var t := Scan(records);
    var ops := C.Compile(records, unknownSize).value.ops;
    ScanIsOk(records);
    order := SortedExists(t, ops, |t.tids|);
    var s := EpochSize(t, size, target);
    var epochs := CeilDiv(Span(t), s);
    var o := order;
    cfg := Config(
      ops, seq(|o|, k requires 0 <= k < |o| && o[k] < |t.tids| && t.tids[o[k]] in t.lives =>
                        Lifetime(t, t.tids[o[k]])),
      MinTs(t), s, if epochs == 0 then 1 else epochs);
  }

  // ----------------------------------------------------------------------- from the records

  /** Replaying a trace in time order: whenever the controller leaves an epoch, every worker
      has executed exactly its operations before the epoch's end. */
  lemma ReplayedEpochsAreExact(
    records: seq<Record>, unknownSize: nat, size: nat, target: pos, order: seq<nat>, cfg: Config,
    run: seq<State>, i: nat, w: nat)
    requires C.Nondecreasing(records) && Fits(records, size, target)
    requires Planned(records, unknownSize, size, target, order, cfg) && Together(cfg)
    requires IsRun(cfg, run) && i + 1 < |run| && Leave(run[i], run[i + 1])
    requires w < |cfg.workers| == |run[i].workers|
    ensures ExactlyBelow(cfg, run[i], w, EpochEnd(cfg, run[i].epoch))
  {
    PlanIsWellFormed(records, unknownSize, size, target, order, cfg);
    EpochsAreExact(cfg, run, i, w);
  }

  /** What a compiled operation waits for is published in the same epoch or an earlier one. */
  lemma CompiledWaitsStayInEpoch(records: seq<Record>, unknownSize: nat, k: nat, end: nat)
    returns (j: nat)
    requires C.Compile(records, unknownSize).Success?
    requires var ops := C.Compile(records, unknownSize).value.ops;
      k < |ops| && ops[k].ts < end && ops[k].waitGen > 0
    ensures var ops := C.Compile(records, unknownSize).value.ops;
      j < k && C.Publishes(ops[j], ops[k].slot, ops[k].waitGen) && ops[j].ts < end
  {
    C.CompiledProgram(records, unknownSize);
    var ops := C.Compile(records, unknownSize).value.ops;
    assert C.Linked(ops, k);
    j :| 0 <= j < k && C.Hands(ops, j, k);
  }

  /** If its workers start inside the same epoch every run is bounded, and it is stuck
      exactly when the controller is done, with every operation executed. */
  lemma ReplayEnds(
    records: seq<Record>, unknownSize: nat, size: nat, target: pos, order: seq<nat>, cfg: Config,
    run: seq<State>)
    requires C.Nondecreasing(records) && Fits(records, size, target)
    requires Planned(records, unknownSize, size, target, order, cfg) && Together(cfg)
    requires IsRun(cfg, run)
    ensures |run| <= P.Measure(cfg, Initial(cfg)) + 1
    ensures var s := run[|run| - 1];
      && |s.workers| == |cfg.workers|
      && (Stuck(cfg, s) <==> s.control.Done?)
      && (Stuck(cfg, s) ==> forall k | 0 <= k < |cfg.ops| :: HasExecuted(cfg, s, k))
  {
    PlanIsWellFormed(records, unknownSize, size, target, order, cfg);
    P.ReplayCompletes(cfg, run);
  }

  /** No call of a thread comes before its start record. */
  predicate StartsFirst(records: seq<Record>) {
    forall i, j | 0 <= i < j < |records| :: !CallThenStart(records[i], records[j])
  }

  predicate CallThenStart(r: Record, r': Record) {
    Notes(r) && r'.func == FUNC_THREAD_START && r.tid == r'.tid
  }

  predicate StartedInTime(l: Life) {
    l.hasStart ==> l.startTs <= l.firstOp
  }

  /** A thread without a call so far has no first call. */
  predicate FirstIsACall(records: seq<Record>, tid: nat, l: Life) {
    l.firstOp == U64_MAX || exists i | 0 <= i < |records| :: Notes(records[i]) && records[i].tid == tid
  }

  ghost predicate Punctual(records: seq<Record>) {
    forall tid | tid in Scan(records).lives ::
      && StartedInTime(Scan(records).lives[tid])
      && FirstIsACall(records, tid, Scan(records).lives[tid])
  }

  lemma {:induction false} LastIsLatest(records: seq<Record>)
    requires C.Nondecreasing(records)
    ensures forall r: Record | records != [] && r == records[|records| - 1] ::
      Scan(records).maxTs == r.timestamp
  {
    if records != [] {
      var n := |records| - 1;
      LastIsLatest(records[..n]);
      if n > 0 {
        assert records[n - 1].timestamp <= records[n].timestamp;
      }
    }
  }

  lemma {:induction false} StartsInTime(records: seq<Record>)
    requires C.Nondecreasing(records) && StartsFirst(records)
    ensures Punctual(records)
  {
    if records != [] {
      var n := |records| - 1;
      var before := records[..n];
      assert StartsFirst(before) by {
        forall i, j | 0 <= i < j < n ensures !CallThenStart(before[i], before[j]) {
          assert !CallThenStart(records[i], records[j]);
        }
      }
      StartsInTime(before);
      forall tid | tid in Scan(records).lives
        ensures StartedInTime(Scan(records).lives[tid])
        ensures FirstIsACall(records, tid, Scan(records).lives[tid])
      {
        StaysPunctual(records, tid);
      }
    }
  }

  function LifeOf(t: Times, tid: nat): Life {
    if tid in t.lives then t.lives[tid] else FRESH
  }

  lemma StaysPunctual(records: seq<Record>, tid: nat)
    requires records != [] && C.Nondecreasing(records) && StartsFirst(records)
    requires Punctual(records[..|records| - 1]) && tid in Scan(records).lives
    ensures StartedInTime(Scan(records).lives[tid])
    ensures FirstIsACall(records, tid, Scan(records).lives[tid])
  {
    var n := |records| - 1;
    var before, r := records[..n], records[n];
    var t := Scan(before);
    var l := LifeOf(t, tid);
    ScanIsOk(before);
    LastIsLatest(before);
    assert n > 0 ==> before[n - 1] == records[n - 1];
    assert StartedInTime(l) && LifeOk(t, l) && FirstIsACall(before, tid, l);
    hide Scan, Punctual, C.Nondecreasing;
    LifeGoesOn(t, r, tid);
    CallsComeFirst(records, tid, l);
    if r.tid == tid {
      StaysStarted(t, l, r);
    }
  }

  lemma CallsComeFirst(records: seq<Record>, tid: nat, l: Life)
    requires records != [] && StartsFirst(records)
    requires FirstIsACall(records[..|records| - 1], tid, l)
    ensures FirstIsACall(records, tid, l)
    ensures var r := records[|records| - 1];
      r.tid == tid ==> && (Notes(r) ==> FirstIsACall(records, tid, NextLife(l, r)))
                       && (r.func == FUNC_THREAD_START ==> l.firstOp == U64_MAX)
  {
    var n := |records| - 1;
    assert Notes(records[n]) && records[n].tid == tid ==> Notes(records[n]);
    if l.firstOp != U64_MAX {
      var i :| 0 <= i < n && Notes(records[..n][i]) && records[..n][i].tid == tid;
      assert records[..n][i] == records[i] && !CallThenStart(records[i], records[n]);
    }
  }

  lemma StaysStarted(t: Times, l: Life, r: Record)
    requires LifeOk(t, l) && StartedInTime(l) && t.maxTs <= r.timestamp
    requires r.func == FUNC_THREAD_START ==> l.firstOp == U64_MAX
    ensures StartedInTime(NextLife(l, r))
  {
  }

  /** What one record does to the lifetime of a thread. */
  lemma LifeGoesOn(t: Times, r: Record, tid: nat)
    requires tid in NoteRecord(t, r).lives
    ensures var l := LifeOf(t, tid);
      NoteRecord(t, r).lives[tid] ==
        if r.tid == tid && (r.func >= FUNC_THREAD_CREATE || Notes(r)) then NextLife(l, r) else l
  {
  }

  lemma PlanHasLifetimes(
    records: seq<Record>, unknownSize: nat, size: nat, target: pos, order: seq<nat>, cfg: Config)
    requires C.Nondecreasing(records) && StartsFirst(records) && Fits(records, size, target)
    requires Planned(records, unknownSize, size, target, order, cfg)
    ensures L.Lifetimes(cfg)
  {
    var t := Scan(records);
    StartsInTime(records);
    ScanIsOk(records);
    OpsAreSeen(records, unknownSize);
    forall w, k | 0 <= w < |cfg.workers| && 0 <= k < |cfg.ops| && cfg.ops[k].tid == cfg.workers[w].tid
      ensures cfg.workers[w].startTs <= cfg.ops[k].ts
    {
      var l := t.lives[t.tids[order[w]]];
      assert Seen(t, cfg.ops[k]) && LifeOk(t, l) && StartedInTime(l);
      C.CompiledInTimeOrder(records, unknownSize);
    }
  }

  /** The replay of such a trace completes in every run if and only if no epoch boundary
      separates the starts of its workers. */
  lemma ReplayCompletesExactly(
    records: seq<Record>, unknownSize: nat, size: nat, target: pos, order: seq<nat>, cfg: Config)
    requires C.Nondecreasing(records) && StartsFirst(records) && Fits(records, size, target)
    requires Planned(records, unknownSize, size, target, order, cfg)
    ensures L.AlwaysCompletes(cfg) <==> Together(cfg)
  {
    PlanIsWellFormed(records, unknownSize, size, target, order, cfg);
    PlanHasLifetimes(records, unknownSize, size, target, order, cfg);
    L.CompletesExactlyWhenTogether(cfg);
  }
}
