/** Model of write_image in trace_to_native.py, the stable scatter of the spooled
    operations into one range per thread, and of the checks with which
    load_embedded_image in native_replay_runtime.c accepts the result. */
module NativeImage {
  import opened Wrappers
  import opened NativeFormat
  import C = TraceCompiler

  const HEADER_SIZE: nat := 64
  const THREAD_SIZE: nat := 32
  const OP_SIZE: nat := 40

  datatype ThreadRecord = ThreadRecord(tid: nat, first: nat, count: nat, cpu: nat)

  datatype Image = Image(
    minimumTimestamp: nat, maximumTimestamp: nat,
    threadOffset: nat, opOffset: nat, size: nat, slotCount: nat, hasUnknown: bool,
    threads: seq<ThreadRecord>, ops: seq<Op>)

  datatype ImageError = TooManyOperations

  const CPU_NONE: nat := 0xFFFF_FFFF

  function RecordedCpu(cpu: nat): nat {
    if cpu <= U32_MAX then cpu else CPU_NONE
  }

  // ------------------------------------------------------------------ specification

  /** The operations of one thread, in trace order. */
  function Stream(spool: seq<Op>, tid: nat): seq<Op> {
    if spool == [] then []
    else
      var n := |spool| - 1;
      Stream(spool[..n], tid) + if spool[n].tid == tid then [spool[n]] else []
  }

  /** All streams, one after the other. */
  function Layout(spool: seq<Op>, order: seq<nat>): seq<Op> {
    if order == [] then []
    else
      var n := |order| - 1;
      Layout(spool, order[..n]) + Stream(spool, order[n])
  }

  predicate Differ(order: seq<nat>, i: nat, j: nat)
    requires i < |order| && j < |order|
  {
    order[i] != order[j]
  }

  predicate Distinct(order: seq<nat>) {
    forall i, j | 0 <= i < j < |order| :: Differ(order, i, j)
  }

  lemma DistinctPrefix(order: seq<nat>, n: nat)
    requires Distinct(order) && n <= |order|
    ensures Distinct(order[..n])
    ensures n < |order| ==> order[n] !in order[..n]
  {
    forall i, j | 0 <= i < j < n ensures Differ(order[..n], i, j) {
      assert Differ(order, i, j);
    }
    if n < |order| && order[n] in order[..n] {
      var i :| 0 <= i < n && order[..n][i] == order[n];
      var differ := Differ(order, i, n);
    }
  }

  lemma DistinctSnoc(order: seq<nat>, t: nat)
    requires Distinct(order) && t !in order
    ensures Distinct(order + [t])
  {
    forall i, j | 0 <= i < j < |order + [t]| ensures Differ(order + [t], i, j) {
      if j < |order| { assert Differ(order, i, j); }
    }
  }

  /** What transform_trace hands over: one entry per thread, with its operation count. */
  predicate Counted(spool: seq<Op>, order: seq<nat>, threads: map<nat, C.Thread>) {
    && Distinct(order)
    && threads.Keys == (set t | t in order)
    && (forall t | t in threads :: threads[t].count == |Stream(spool, t)|)
    && (forall k | 0 <= k < |spool| :: spool[k].tid in threads)
  }

  lemma StreamSnoc(spool: seq<Op>, k: nat, tid: nat)
    requires k < |spool|
    ensures Stream(spool[..k + 1], tid) ==
            Stream(spool[..k], tid) + if spool[k].tid == tid then [spool[k]] else []
  {
    assert spool[..k + 1][..k] == spool[..k];
  }

  lemma {:induction false} StreamGrows(spool: seq<Op>, k: nat, tid: nat)
    requires k <= |spool|
    ensures Stream(spool[..k], tid) <= Stream(spool, tid)
    decreases |spool| - k
  {
    if k == |spool| {
      assert spool[..k] == spool;
    } else {
      StreamSnoc(spool, k, tid);
      StreamGrows(spool, k + 1, tid);
    }
  }

  /** The compiler's thread table counts its operations and lists every thread once. */
  lemma {:induction false} CompiledThreads(cfg: C.Config, records: seq<Record>)
    requires C.Compile(cfg, records).Success?
    ensures var st := C.Compile(cfg, records).value; Counted(st.ops, st.order, st.threads)
  {
    if records != [] {
      var n := |records| - 1;
      var r := records[n];
      CompiledThreads(cfg, records[..n]);
      var st := C.Compile(cfg, records[..n]).value;
      if IsAllocatorFunction(r.func) {
        var base := C.Register(st, r);
        var target := C.Target(cfg, C.Elapsed(cfg, r));
        C.CallKeepsThreads(cfg, base, r, n, target);
        var (st1, op) := C.CompileCall(cfg, base, r, n, target).value;
        assert Counted(base.ops, base.order, base.threads) by {
          if r.tid !in st.threads {
            NoStream(st.ops, r.tid);
            DistinctSnoc(st.order, r.tid);
          }
        }
        EmitCounted(st1, op);
      }
    }
  }

  lemma EmitCounted(st: C.State, op: Op)
    requires Counted(st.ops, st.order, st.threads) && op.tid in st.threads
    ensures var st' := C.Emit(st, op); Counted(st'.ops, st'.order, st'.threads)
  {
    assert (st.ops + [op])[..|st.ops|] == st.ops;
  }

  lemma {:induction false} NoStream(spool: seq<Op>, tid: nat)
    requires forall k | 0 <= k < |spool| :: spool[k].tid != tid
    ensures Stream(spool, tid) == []
  {
    if spool != [] {
      NoStream(spool[..|spool| - 1], tid);
    }
  }

  // ----------------------------------------------------------------------- the writer

  /** Where thread t's operations belong. */
  predicate Ranged(spool: seq<Op>, order: seq<nat>, first: map<nat, nat>) {
    && first.Keys == (set t | t in order)
    && forall i | 0 <= i < |order| :: RangedAt(spool, order, first, i)
  }

  predicate RangedAt(spool: seq<Op>, order: seq<nat>, first: map<nat, nat>, i: nat)
    requires i < |order|
  {
    order[i] in first && first[order[i]] == |Layout(spool, order[..i])|
  }

  predicate Described(
    spool: seq<Op>, order: seq<nat>, threads: map<nat, C.Thread>, first: map<nat, nat>,
    record: ThreadRecord, i: nat)
    requires i < |order|
  {
    var t := order[i];
    && t in first && t in threads
    && record == ThreadRecord(t, first[t], |Stream(spool, t)|, RecordedCpu(threads[t].cpu))
  }

  /** The first loop: every thread's range starts where the previous one ends. */
  method Ranges(ghost spool: seq<Op>, order: seq<nat>, threads: map<nat, C.Thread>)
    returns (first: map<nat, nat>, records: seq<ThreadRecord>, total: nat)
    requires Counted(spool, order, threads)
    ensures Ranged(spool, order, first)
    ensures total == |Layout(spool, order)| && |records| == |order|
    ensures forall i | 0 <= i < |order| ::
      Described(spool, order, threads, first, records[i], i)
  {
    first, records, total := map[], [], 0;
    for i := 0 to |order|
      invariant first.Keys == (set t | t in order[..i]) && |records| == i
      invariant total == |Layout(spool, order[..i])|
      invariant forall j | 0 <= j < i :: RangedAt(spool, order, first, j)
      invariant forall j | 0 <= j < i ::
        Described(spool, order, threads, first, records[j], j)
    {
      assert order[..i + 1][..i] == order[..i];
      var t := order[i];
      DistinctPrefix(order, i);
      assert t in threads.Keys;
      ghost var before, table := first, records;
      first := first[t := total];
      records := records + [ThreadRecord(t, total, threads[t].count, RecordedCpu(threads[t].cpu))];
      total := total + threads[t].count;
      forall j | 0 <= j < i
        ensures RangedAt(spool, order, first, j)
        ensures Described(spool, order, threads, first, records[j], j)
      {
        assert RangedAt(spool, order, before, j) && order[j] in order[..i];
        assert Described(spool, order, threads, before, table[j], j);
      }
    }
    assert order[..|order|] == order;
  }

  /** A cell of one thread's range is in no other thread's range. */
  lemma {:induction false} RangesApart(
    spool: seq<Op>, order: seq<nat>, first: map<nat, nat>, t: nat, u: nat)
    requires Distinct(order) && Ranged(spool, order, first)
    requires t in order && u in order
    ensures first[t] + |Stream(spool, t)| <= |Layout(spool, order)|
    ensures t != u ==>
      || first[t] + |Stream(spool, t)| <= first[u]
      || first[u] + |Stream(spool, u)| <= first[t]
  {
    var i :| 0 <= i < |order| && order[i] == t;
    var j :| 0 <= j < |order| && order[j] == u;
    assert RangedAt(spool, order, first, i) && RangedAt(spool, order, first, j);
    LayoutGrows(spool, order, i, |order|);
    if i < j {
      LayoutGrows(spool, order, i, j);
    } else if j < i {
      LayoutGrows(spool, order, j, i);
    }
  }

  lemma {:induction false} LayoutGrows(spool: seq<Op>, order: seq<nat>, i: nat, j: nat)
    requires i < j <= |order|
    ensures |Layout(spool, order[..i])| + |Stream(spool, order[i])|
            <= |Layout(spool, order[..j])|
    ensures Layout(spool, order[..i]) + Stream(spool, order[i]) <= Layout(spool, order[..j])
    ensures order[..|order|] == order
  {
    assert order[..j][..j - 1] == order[..j - 1];
    if i < j - 1 {
      LayoutGrows(spool, order, i, j - 1);
    }
  }

  const BLANK := Op(0, 0, 0, 0, 0, 0, 0, 0, OpAlloc, false)

  /** Thread t's operations among the first k are in place. */
  predicate Filled(spool: seq<Op>, first: map<nat, nat>, cells: seq<Op>, k: nat, t: nat)
    requires k <= |spool| && t in first
  {
    var done := Stream(spool[..k], t);
    && done <= Stream(spool, t)
    && first[t] + |Stream(spool, t)| <= |cells|
    && cells[first[t]..first[t] + |done|] == done
  }

  lemma SliceKeeps<T>(cells: seq<T>, a: nat, b: nat, cell: nat, x: T)
    requires a <= b <= |cells| && cell < |cells| && (cell < a || b <= cell)
    ensures cells[cell := x][a..b] == cells[a..b]
  {}

  lemma SliceExtends<T>(cells: seq<T>, a: nat, cell: nat, x: T)
    requires a <= cell < |cells|
    ensures cells[cell := x][a..cell + 1] == cells[a..cell] + [x]
  {}

  /** Writing operation k to its thread's next cell disturbs no other thread. */
  lemma FillOther(
    spool: seq<Op>, first: map<nat, nat>, cells: seq<Op>, k: nat, t: nat, cell: nat)
    requires k < |spool| && t in first && spool[k].tid != t
    requires Filled(spool, first, cells, k, t) && cell < |cells|
    requires cell < first[t] || first[t] + |Stream(spool, t)| <= cell
    ensures Filled(spool, first, cells[cell := spool[k]], k + 1, t)
  {
    StreamSnoc(spool, k, t);
    var done := Stream(spool[..k], t);
    assert Stream(spool[..k + 1], t) == done;
    SliceKeeps(cells, first[t], first[t] + |done|, cell, spool[k]);
  }

  lemma FillOwn(spool: seq<Op>, first: map<nat, nat>, cells: seq<Op>, k: nat, cell: nat)
    requires k < |spool| && spool[k].tid in first
    requires Filled(spool, first, cells, k, spool[k].tid)
    requires cell == first[spool[k].tid] + |Stream(spool[..k], spool[k].tid)|
    ensures cell < |cells| && cell < first[spool[k].tid] + |Stream(spool, spool[k].tid)|
    ensures Filled(spool, first, cells[cell := spool[k]], k + 1, spool[k].tid)
  {
    var t := spool[k].tid;
    StreamSnoc(spool, k, t);
    StreamGrows(spool, k + 1, t);
    SliceExtends(cells, first[t], cell, spool[k]);
  }

  /** The ranges lie inside the area and do not overlap. */
  predicate Apart(spool: seq<Op>, first: map<nat, nat>, size: nat) {
    && (forall t | t in first :: first[t] + |Stream(spool, t)| <= size)
    && (forall t, u | t in first && u in first && t != u ::
          || first[t] + |Stream(spool, t)| <= first[u]
          || first[u] + |Stream(spool, u)| <= first[t])
  }

  lemma RangedIsApart(spool: seq<Op>, order: seq<nat>, first: map<nat, nat>)
    requires Distinct(order) && Ranged(spool, order, first)
    ensures Apart(spool, first, |Layout(spool, order)|)
  {
    forall t, u | t in first && u in first
      ensures first[t] + |Stream(spool, t)| <= |Layout(spool, order)|
      ensures t != u ==>
        || first[t] + |Stream(spool, t)| <= first[u]
        || first[u] + |Stream(spool, u)| <= first[t]
    {
      RangesApart(spool, order, first, t, u);
    }
  }

  /** What the loop maintains: cursors count what is placed, and it is in place. */
  predicate Placing(
    spool: seq<Op>, first: map<nat, nat>, cursor: map<nat, nat>, cells: seq<Op>, k: nat)
    requires k <= |spool|
  {
    && cursor.Keys == first.Keys
    && (forall t | t in first :: cursor[t] == |Stream(spool[..k], t)|)
    && (forall t | t in first :: Filled(spool, first, cells, k, t))
  }

  lemma PlacingStarts(
    spool: seq<Op>, first: map<nat, nat>, cursor: map<nat, nat>, cells: seq<Op>)
    requires Apart(spool, first, |cells|) && cursor == (map t | t in first :: 0)
    ensures Placing(spool, first, cursor, cells, 0)
  {
    forall t | t in first ensures Filled(spool, first, cells, 0, t) {
      var range := first[t] + |Stream(spool, t)|;
      assert range <= |cells|;
    }
  }

  /** Writing operation k to its thread's next cell keeps every range in order. */
  lemma FillStep(
    spool: seq<Op>, first: map<nat, nat>, cells: seq<Op>, k: nat, cell: nat, t: nat)
    requires Apart(spool, first, |cells|)
    requires k < |spool| && spool[k].tid in first && t in first
    requires cell == first[spool[k].tid] + |Stream(spool[..k], spool[k].tid)|
    requires Filled(spool, first, cells, k, spool[k].tid) && Filled(spool, first, cells, k, t)
    ensures cell < |cells| && Filled(spool, first, cells[cell := spool[k]], k + 1, t)
  {
    FillOwn(spool, first, cells, k, cell);
    if t != spool[k].tid {
      FillOther(spool, first, cells, k, t, cell);
    }
  }

  lemma CursorStep(spool: seq<Op>, cursor: map<nat, nat>, k: nat)
    requires k < |spool| && spool[k].tid in cursor
    requires forall t | t in cursor :: cursor[t] == |Stream(spool[..k], t)|
    ensures var next := cursor[spool[k].tid := cursor[spool[k].tid] + 1];
      forall t | t in next :: next[t] == |Stream(spool[..k + 1], t)|
  {
    forall t | t in cursor
      ensures |Stream(spool[..k + 1], t)| ==
              |Stream(spool[..k], t)| + if spool[k].tid == t then 1 else 0
    {
      StreamSnoc(spool, k, t);
    }
  }

  lemma PlacingStep(
    spool: seq<Op>, first: map<nat, nat>, cursor: map<nat, nat>, cells: seq<Op>, k: nat)
    requires Apart(spool, first, |cells|)
    requires k < |spool| && spool[k].tid in first && Placing(spool, first, cursor, cells, k)
    ensures first[spool[k].tid] + cursor[spool[k].tid] < |cells|
    ensures var tid := spool[k].tid;
      Placing(spool, first, cursor[tid := cursor[tid] + 1],
              cells[first[tid] + cursor[tid] := spool[k]], k + 1)
  {
    var tid := spool[k].tid;
    var cell := first[tid] + cursor[tid];
    FillStep(spool, first, cells, k, cell, tid);
    CursorStep(spool, cursor, k);
    forall t | t in first ensures Filled(spool, first, cells[cell := spool[k]], k + 1, t) {
      FillStep(spool, first, cells, k, cell, t);
    }
  }

  /** The second loop: every spooled operation goes to its thread's next cell. */
  method Scatter(spool: seq<Op>, ghost order: seq<nat>, first: map<nat, nat>, area: array<Op>)
    requires Distinct(order) && Ranged(spool, order, first)
    requires forall k | 0 <= k < |spool| :: spool[k].tid in first
    requires area.Length == |Layout(spool, order)|
    modifies area
    ensures area[..] == Layout(spool, order)
  {
    var cursor := map t | t in first :: 0;
    RangedIsApart(spool, order, first);
    PlacingStarts(spool, first, cursor, area[..]);
    for k := 0 to |spool|
      invariant Placing(spool, first, cursor, area[..], k)
    {
      var tid := spool[k].tid;
      PlacingStep(spool, first, cursor, area[..], k);
      ghost var cells := area[..];
      area[first[tid] + cursor[tid]] := spool[k];
      assert area[..] == cells[first[tid] + cursor[tid] := spool[k]];
      cursor := cursor[tid := cursor[tid] + 1];
    }
    FilledIsLayout(spool, order, first, area[..], |order|);
  }

  lemma {:induction false} FilledIsLayout(
    spool: seq<Op>, order: seq<nat>, first: map<nat, nat>, cells: seq<Op>, n: nat)
    requires Ranged(spool, order, first) && n <= |order|
    requires |cells| == |Layout(spool, order)|
    requires forall t | t in order :: Filled(spool, first, cells, |spool|, t)
    ensures |Layout(spool, order[..n])| <= |cells|
    ensures cells[..|Layout(spool, order[..n])|] == Layout(spool, order[..n])
    ensures n == |order| ==> cells == Layout(spool, order)
  {
    assert order[..|order|] == order;
    if n > 0 {
      FilledIsLayout(spool, order, first, cells, n - 1);
      assert order[..n][..n - 1] == order[..n - 1];
      var t := order[n - 1];
      assert RangedAt(spool, order, first, n - 1);
      assert Filled(spool, first, cells, |spool|, t);
      assert spool[..|spool|] == spool;
      var a := first[t];
      var b := a + |Stream(spool, t)|;
      assert cells[..b] == cells[..a] + cells[a..b];
    }
  }

  /** write_image: an image whose operation area is the layout of the spool, or the
      source's refusal of more than 2^32 - 1 operations. */
  method WriteImage(st: C.State, minimumTimestamp: nat, maximumTimestamp: nat)
    returns (r: Result<Image, ImageError>)
    requires Counted(st.ops, st.order, st.threads)
    ensures r.Failure? <==> |Layout(st.ops, st.order)| > U32_MAX
    ensures r.Success? ==>
      && Represents(r.value, st)
      && r.value.minimumTimestamp == minimumTimestamp
      && r.value.maximumTimestamp == maximumTimestamp
  {
    var first, records, total := Ranges(st.ops, st.order, st.threads);
    if total > U32_MAX {
      return Failure(TooManyOperations);
    }
    var opOffset := HEADER_SIZE + |st.order| * THREAD_SIZE;
    assert forall k | 0 <= k < |st.ops| :: st.ops[k].tid in st.threads.Keys;
    var area := new Op[total](_ => BLANK);
    Scatter(st.ops, st.order, first, area);
    var image := Image(
      minimumTimestamp, maximumTimestamp, HEADER_SIZE, opOffset, opOffset + total * OP_SIZE,
      st.nextSlot, st.hasUnknown, records, area[..]);
    forall i | 0 <= i < |st.order| ensures RecordOk(image, st, i) {
      assert Described(st.ops, st.order, st.threads, first, records[i], i);
      assert RangedAt(st.ops, st.order, first, i);
    }
    return Success(image);
  }

  /** The image holds exactly the state's operations, one contiguous range per thread. */
  ghost predicate Represents(image: Image, st: C.State) {
    && image.ops == Layout(st.ops, st.order)
    && |image.ops| <= U32_MAX
    && |image.threads| == |st.order|
    && image.slotCount == st.nextSlot && image.hasUnknown == st.hasUnknown
    && image.threadOffset == HEADER_SIZE
    && image.opOffset == HEADER_SIZE + |image.threads| * THREAD_SIZE
    && image.size == image.opOffset + |image.ops| * OP_SIZE
    && (forall i | 0 <= i < |st.order| :: RecordOk(image, st, i))
  }

  predicate RecordOk(image: Image, st: C.State, i: nat)
    requires i < |image.threads| == |st.order|
  {
    && image.threads[i].tid == st.order[i] && st.order[i] in st.threads
    && image.threads[i].cpu == RecordedCpu(st.threads[st.order[i]].cpu)
    && image.threads[i].first == |Layout(st.ops, st.order[..i])|
    && image.threads[i].count == |Stream(st.ops, st.order[i])|
  }

  // -------------------------------------------------------------- a stable partition

  /** Each thread's range is its own operations, in trace order. */
  lemma RangeIsStream(image: Image, st: C.State, i: nat)
    requires Represents(image, st) && i < |image.threads|
    ensures var t := image.threads[i];
      && t.first + t.count <= |image.ops|
      && image.ops[t.first..t.first + t.count] == Stream(st.ops, t.tid)
  {
    LayoutGrows(st.ops, st.order, i, |st.order|);
    assert RecordOk(image, st, i);
    var t := image.threads[i];
    var prefix := Layout(st.ops, st.order[..i]);
    assert image.ops[..t.first + t.count] == prefix + Stream(st.ops, t.tid);
  }

  /** The ranges tile the operation area without gaps. */
  lemma RangesTile(image: Image, st: C.State)
    requires Represents(image, st) && |image.threads| > 0
    ensures image.threads[0].first == 0
    ensures forall i | 0 <= i < |image.threads| - 1 ::
      image.threads[i].first + image.threads[i].count == image.threads[i + 1].first
    ensures var z := image.threads[|image.threads| - 1];
      z.first + z.count == |image.ops|
  {
    assert st.order[..0] == [];
    forall i | 0 <= i < |st.order|
      ensures image.threads[i].first == |Layout(st.ops, st.order[..i])|
      ensures |Layout(st.ops, st.order[..i + 1])|
              == image.threads[i].first + image.threads[i].count
    {
      assert RecordOk(image, st, i);
      assert st.order[..i + 1][..i] == st.order[..i];
    }
    assert st.order[..|st.order|] == st.order;
  }

  lemma {:induction false} StreamCount(spool: seq<Op>, tid: nat, x: Op)
    ensures multiset(Stream(spool, tid))[x] == if x.tid == tid then multiset(spool)[x] else 0
  {
    if spool != [] {
      var n := |spool| - 1;
      StreamCount(spool[..n], tid, x);
      assert spool == spool[..n] + [spool[n]];
    }
  }

  lemma {:induction false} LayoutCount(spool: seq<Op>, order: seq<nat>, x: Op)
    requires Distinct(order)
    ensures multiset(Layout(spool, order))[x] == if x.tid in order then multiset(spool)[x] else 0
  {
    if order != [] {
      var n := |order| - 1;
      DistinctPrefix(order, n);
      LayoutCount(spool, order[..n], x);
      StreamCount(spool, order[n], x);
      assert order == order[..n] + [order[n]];
    }
  }

  /** Every spooled operation is written to exactly one cell and nothing else is written. */
  lemma ImageIsPermutation(image: Image, st: C.State)
    requires Represents(image, st) && Counted(st.ops, st.order, st.threads)
    ensures multiset(image.ops) == multiset(st.ops)
  {
    forall x ensures multiset(image.ops)[x] == multiset(st.ops)[x] {
      LayoutCount(st.ops, st.order, x);
      EveryTidOrdered(st.ops, st.order, st.threads, x);
    }
  }

  lemma EveryTidOrdered(spool: seq<Op>, order: seq<nat>, threads: map<nat, C.Thread>, x: Op)
    requires Counted(spool, order, threads)
    ensures x.tid in order || multiset(spool)[x] == 0
  {
    if x in spool {
      var k :| 0 <= k < |spool| && spool[k] == x;
      assert spool[k].tid in threads.Keys;
    }
  }

  // ---------------------------------------------------------------------- the loader

  predicate RangeIsValid(offset: nat, count: nat, elementSize: nat, imageSize: nat)
    requires elementSize > 0
  {
    offset <= imageSize && count <= (imageSize - offset) / elementSize
  }

  predicate LoaderAccepts(image: Image) {
    && RangeIsValid(image.threadOffset, |image.threads|, THREAD_SIZE, image.size)
    && RangeIsValid(image.opOffset, |image.ops|, OP_SIZE, image.size)
    && forall i | 0 <= i < |image.threads| ::
         && image.threads[i].first <= |image.ops|
         && image.threads[i].count <= |image.ops| - image.threads[i].first
  }

  /** The overflow-safe test means what it should: the elements fit. */
  lemma RangeMeaning(offset: nat, count: nat, elementSize: nat, imageSize: nat)
    requires elementSize > 0
    ensures RangeIsValid(offset, count, elementSize, imageSize)
            <==> offset + count * elementSize <= imageSize
  {
    if offset <= imageSize {
      var room := imageSize - offset;
      var q := room / elementSize;
      assert q * elementSize <= room < q * elementSize + elementSize;
      if count <= q {
        assert count * elementSize <= q * elementSize;
      } else {
        assert count * elementSize >= (q + 1) * elementSize;
      }
    }
  }

  /** The runtime accepts every image the compiler writes. */
  lemma WrittenImageLoads(image: Image, st: C.State)
    requires Represents(image, st)
    ensures LoaderAccepts(image)
  {
    RangeMeaning(image.threadOffset, |image.threads|, THREAD_SIZE, image.size);
    RangeMeaning(image.opOffset, |image.ops|, OP_SIZE, image.size);
    forall i | 0 <= i < |image.threads|
      ensures image.threads[i].first + image.threads[i].count <= |image.ops|
    {
      RangeIsStream(image, st, i);
    }
  }
}
