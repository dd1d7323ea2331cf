/** The live histogram is a sufficient statistic. malloc_hole_hook.c keeps, per bucket, a
    count, a byte sum and above 16384 a page hole; visualize_hole_csv.py rebuilds from them
    the page-aware hole of any rule whose classes are histogram boundaries, taking the
    minimum on aggregates. It is exact, per class and in total. */
module LiveHistogram {
  import opened Wrappers
  import opened SizeClasses
  import B = BoundarySelection
  import S = PageAwareSchemes

  const BUCKETS: nat := 177

  // ------------------------------------------------------- sums over the live requests

  /** Live table cells: a live request or nothing. */
  type Cells = seq<Option<nat>>

  function SumOf(f: nat -> int, cells: Cells): int {
    if cells == [] then 0
    else
      var n := |cells| - 1;
      SumOf(f, cells[..n]) + if cells[n].Some? then f(cells[n].value) else 0
  }

  predicate Tracked(cells: Cells) {
    forall i | 0 <= i < |cells| && cells[i].Some? ::
      RoundedAllocationSize(cells[i].value).Some?
  }

  lemma {:induction false} SumExt(f: nat -> int, g: nat -> int, cells: Cells)
    requires Tracked(cells)
    requires forall r: nat | RoundedAllocationSize(r).Some? :: f(r) == g(r)
    ensures SumOf(f, cells) == SumOf(g, cells)
  {
    if cells != [] {
      SumExt(f, g, cells[..|cells| - 1]);
    }
  }

  function Plus(f: nat -> int, g: nat -> int): nat -> int {
    (r: nat) => f(r) + g(r)
  }

  lemma {:induction false} SumAdd(f: nat -> int, g: nat -> int, cells: Cells)
    ensures SumOf(Plus(f, g), cells) == SumOf(f, cells) + SumOf(g, cells)
  {
    if cells != [] {
      SumAdd(f, g, cells[..|cells| - 1]);
    }
  }

  lemma Distribute(k: int, x: int, y: int)
    ensures (x + y) * k == x * k + y * k
  {}

  lemma {:induction false} SumMono(f: nat -> int, g: nat -> int, cells: Cells)
    requires Tracked(cells)
    requires forall r: nat | RoundedAllocationSize(r).Some? :: f(r) <= g(r)
    ensures SumOf(f, cells) <= SumOf(g, cells)
  {
    if cells != [] {
      SumMono(f, g, cells[..|cells| - 1]);
    }
  }

  function ValueAt(f: nat -> int, cell: Option<nat>): int {
    if cell.Some? then f(cell.value) else 0
  }

  /** One cell changes. */
  lemma {:induction false} SumUpdate(f: nat -> int, cells: Cells, i: nat, cell: Option<nat>)
    requires i < |cells|
    ensures SumOf(f, cells[i := cell])
            == SumOf(f, cells) - ValueAt(f, cells[i]) + ValueAt(f, cell)
  {
    var n := |cells| - 1;
    if i < n {
      assert cells[i := cell][..n] == cells[..n][i := cell];
      SumUpdate(f, cells[..n], i, cell);
    } else {
      assert cells[i := cell][..n] == cells[..n];
    }
  }

  // -------------------------------------------------------------- what is counted where

  function BucketFrom(value: nat, i: nat): (b: nat)
    requires i <= BOUNDARIES
    ensures i <= b <= BOUNDARIES
    decreases BOUNDARIES - i
  {
    if i == BOUNDARIES || value <= BoundaryAt(i) then i else BucketFrom(value, i + 1)
  }

  function BucketOf(request: nat): (b: nat)
    ensures b < BUCKETS
  {
    BucketFrom(Value(request), 0)
  }

  lemma {:induction false} BucketFromBracket(value: nat, i: nat)
    requires i <= BOUNDARIES && (i > 0 ==> BoundaryAt(i - 1) < value)
    ensures var b := BucketFrom(value, i);
      && (b > 0 ==> BoundaryAt(b - 1) < value)
      && (b < BOUNDARIES ==> value <= BoundaryAt(b))
    decreases BOUNDARIES - i
  {
    if i < BOUNDARIES && BoundaryAt(i) < value {
      BucketFromBracket(value, i + 1);
    }
  }

  /** A request lies above the boundary before its bucket and not above its bucket's. */
  lemma BucketBracket(request: nat)
    ensures var b := BucketOf(request);
      && (b > 0 ==> BoundaryAt(b - 1) < Value(request))
      && (b < BOUNDARIES ==> Value(request) <= BoundaryAt(b))
      && LowerBound(Value(request), b)
  {
    BucketFromBracket(Value(request), 0);
    Bracket(Value(request), BucketOf(request));
  }

  /** What the hook adds to hole_bytes for a request. */
  function HookHole(request: nat): int {
    match RoundedAllocationSize(request)
    case None => 0
    case Some(r) => r.size - request
  }

  function Only(b: nat, f: nat -> int): nat -> int {
    (r: nat) => if BucketOf(r) == b then f(r) else 0
  }

  const ONE: nat -> int := (r: nat) => 1
  const SIZE: nat -> int := (r: nat) => r
  const HOLE: nat -> int := HookHole

  // -------------------------------------------------------------------------- rules

  predicate IsRule(rule: seq<int>) {
    && rule != [] && B.Increasing(rule)
    && forall k | 0 <= k < |rule| :: IsBoundary(rule[k])
  }

  predicate IsBoundary(c: int) {
    exists i | 0 <= i < BOUNDARIES :: BoundaryAt(i) == c
  }

  /** The least class that holds a value, if any. */
  function ClassRound(rule: seq<int>, value: int): Option<int>
    requires B.Increasing(rule)
  {
    var k := S.BisectLeft(rule, value);
    if k < |rule| then Some(rule[k]) else None
  }

  function PageRound(value: nat): nat {
    AlignUp(value, PAGE)
  }

  function Min(a: int, b: int): int {
    if b < a then b else a
  }

  /** Hole of one request under a page-aware rule. */
  function RequestHole(rule: seq<int>, request: nat): int
    requires B.Increasing(rule)
  {
    var page := PageRound(Value(request));
    match ClassRound(rule, Value(request))
    case None => page - request
    case Some(c) => Min(c, page) - request
  }

  // ------------------------------------------------------------- offline, per interval

  function Upper(b: nat): Option<int> {
    if b < BOUNDARIES then Some(BoundaryAt(b)) else None
  }

  function LowerEnd(b: nat): int
    requires b < BUCKETS
  {
    if b == 0 then 0 else BoundaryAt(b - 1)
  }

  /** rounded_class_for_interval */
  function RoundedClassForInterval(upper: Option<int>, lower: int, rule: seq<int>): Option<int>
    requires rule != [] && B.Increasing(rule)
  {
    if upper.None? || lower >= rule[|rule| - 1] then None
    else
      var index := S.BisectLeft(rule, upper.value);
      if index >= |rule| then None else Some(rule[index])
  }

  /** page_aware_interval_hole; a bucket without an upper end has a page hole. */
  function PageAwareIntervalHole(
    count: int, requested: int, upper: Option<int>, rounded: Option<int>,
    fallback: Option<int>): int
    requires fallback.Some? || (upper.Some? && upper.value >= 0)
  {
    var pageHole :=
      if fallback.Some? then fallback.value else count * PageRound(upper.value) - requested;
    if rounded.None? then pageHole else Min(count * rounded.value - requested, pageHole)
  }

  /** The class all requests of a bucket round to. */
  function Label(rule: seq<int>, b: nat): Option<int>
    requires IsRule(rule) && b < BUCKETS
  {
    RoundedClassForInterval(Upper(b), LowerEnd(b), rule)
  }

  lemma LabelIsClassRound(rule: seq<int>, request: nat)
    requires IsRule(rule)
    ensures Label(rule, BucketOf(request)) == ClassRound(rule, Value(request))
  {
    var b := BucketOf(request);
    var value := Value(request);
    BucketBracket(request);
    var k := S.BisectLeft(rule, value);
    if k < |rule| {
      assert IsBoundary(rule[k]);
      var i: nat :| i < BOUNDARIES && BoundaryAt(i) == rule[k];
      assert b <= i;
      if b < i {
        BoundariesIncrease(b, i);
      }
      assert BoundaryAt(b) <= rule[k];
    }
    assert b == BOUNDARIES ==> k == |rule|;
    if b < BOUNDARIES {
      S.BisectLeftIs(rule, BoundaryAt(b), k);
    }
  }

  // --------------------------------------------------------------- one bucket is exact

  /** Up to 16384 no bucket crosses a page boundary. */
  lemma SamePage(b: nat, value: nat)
    requires b < LARGE_START && LowerEnd(b) < value <= BoundaryAt(b)
    ensures PageRound(value) == PageRound(BoundaryAt(b))
  {
    if 84 <= b < 132 {
      SamePageStretch(value, 2048, 128, b - 83);
    } else if 132 <= b {
      SamePageStretch256(value, b - 131);
    }
  }

  lemma SamePageStretch(value: nat, base: nat, step: nat, k: nat)
    requires base == 2048 && step == 128 && 1 <= k <= 48
    requires base + (k - 1) * step < value <= base + k * step
    ensures PageRound(value) == PageRound(base + k * step)
  {
    assert value <= 4096 <==> k <= 16;
  }

  lemma SamePageStretch256(value: nat, k: nat)
    requires 1 <= k <= 32 && 8192 + (k - 1) * 256 < value <= 8192 + k * 256
    ensures PageRound(value) == PageRound(8192 + k * 256)
  {
    assert value <= 12288 <==> k <= 16;
  }

  /** Above 16384 every boundary is a whole number of pages. */
  lemma WholePages(b: nat)
    requires LARGE_START <= b < BOUNDARIES
    ensures PageRound(BoundaryAt(b)) == BoundaryAt(b)
  {
    assert LARGE == [40960, 49152, 57344, 65536, 81920, 98304, 114688, 131072,
                     163840, 196608, 229376, 262144];
  }

  function FallbackHole(b: nat, cells: Cells): Option<int> {
    if b < LARGE_START then None else Some(SumOf(Only(b, HOLE), cells))
  }

  /** What the offline tool computes for a bucket from its aggregates. */
  function IntervalHole(rule: seq<int>, b: nat, cells: Cells): int
    requires IsRule(rule) && b < BUCKETS
  {
    PageAwareIntervalHole(
      SumOf(Only(b, ONE), cells), SumOf(Only(b, SIZE), cells), Upper(b), Label(rule, b),
      FallbackHole(b, cells))
  }

  function Holes(rule: seq<int>): nat -> int
    requires B.Increasing(rule)
  {
    (r: nat) => RequestHole(rule, r)
  }

  /** In a small bucket every request rounds to the same class and the same page. */
  lemma SmallRequest(rule: seq<int>, b: nat, request: nat)
    requires IsRule(rule) && b < LARGE_START && BucketOf(request) == b
    ensures var page := PageRound(BoundaryAt(b));
      RequestHole(rule, request)
      == (if Label(rule, b).None? then page else Min(Label(rule, b).value, page)) - request
  {
    BucketBracket(request);
    SamePage(b, Value(request));
    LabelIsClassRound(rule, request);
  }

  /** In a large bucket a class is never better than whole pages. */
  lemma LargeRequest(rule: seq<int>, b: nat, request: nat)
    requires IsRule(rule) && LARGE_START <= b && BucketOf(request) == b
    requires RoundedAllocationSize(request).Some?
    ensures RequestHole(rule, request) == HookHole(request)
    ensures Label(rule, b).Some? ==> HookHole(request) <= Label(rule, b).value - request
  {
    hide S.BisectLeft;
    BucketBracket(request);
    LabelIsClassRound(rule, request);
    LastSmallBoundary();
    if LARGE_START < b + 1 {
      BoundariesIncreaseTo(b);
    }
    if Label(rule, b).Some? {
      LabelAbove(rule, b);
      WholePages(b);
      PageMono(request, BoundaryAt(b));
    }
  }

  lemma BoundariesIncreaseTo(b: nat)
    requires LARGE_START <= b <= BOUNDARIES
    ensures SMALL_LIMIT <= BoundaryAt(b - 1)
  {
    LastSmallBoundary();
    if LARGE_START < b {
      BoundariesIncrease(LARGE_START - 1, b - 1);
    }
  }

  lemma LabelAbove(rule: seq<int>, b: nat)
    requires IsRule(rule) && b < BUCKETS && Label(rule, b).Some?
    ensures b < BOUNDARIES && BoundaryAt(b) <= Label(rule, b).value
  {}

  lemma PageMono(x: nat, y: nat)
    requires x <= y
    ensures PageRound(x) <= PageRound(y)
  {}

  /** One bucket: the aggregate minimum is the sum of the minima. */
  lemma BucketIsExact(rule: seq<int>, b: nat, cells: Cells)
    requires IsRule(rule) && b < BUCKETS && Tracked(cells)
    ensures IntervalHole(rule, b, cells) == SumOf(Only(b, Holes(rule)), cells)
  {
    if b < LARGE_START {
      SmallBucketIsExact(rule, b, cells);
    } else {
      LargeBucketIsExact(rule, b, cells);
    }
  }

  /** The sum over a bucket of k less each request. */
  function Minus(k: int): nat -> int {
    (r: nat) => k - r
  }

  lemma {:induction false} SumMinus(k: int, b: nat, cells: Cells)
    ensures SumOf(Only(b, Minus(k)), cells)
            == SumOf(Only(b, ONE), cells) * k - SumOf(Only(b, SIZE), cells)
  {
    if cells != [] {
      var n := |cells| - 1;
      SumMinus(k, b, cells[..n]);
      Distribute(k, SumOf(Only(b, ONE), cells[..n]), 1);
    }
  }

  lemma SmallBucketIsExact(rule: seq<int>, b: nat, cells: Cells)
    requires IsRule(rule) && b < LARGE_START && Tracked(cells)
    ensures IntervalHole(rule, b, cells) == SumOf(Only(b, Holes(rule)), cells)
  {
    hide BoundaryAt, Label, RequestHole, BucketOf, PageRound, IsBoundary, B.Increasing, SumOf;
    var page := PageRound(BoundaryAt(b));
    var cls := Label(rule, b);
    var k := if cls.None? then page else Min(cls.value, page);
    forall r: nat ensures Only(b, Holes(rule))(r) == Only(b, Minus(k))(r) {
      if BucketOf(r) == b {
        SmallRequest(rule, b, r);
      }
    }
    SumExt(Only(b, Holes(rule)), Only(b, Minus(k)), cells);
    SumMinus(k, b, cells);
    CountNonnegative(b, cells);
    if cls.Some? {
      MinScales(SumOf(Only(b, ONE), cells), cls.value, page);
    }
  }

  lemma {:induction false} CountNonnegative(b: nat, cells: Cells)
    ensures SumOf(Only(b, ONE), cells) >= 0
  {
    if cells != [] {
      CountNonnegative(b, cells[..|cells| - 1]);
    }
  }

  lemma MinScales(n: int, a: int, b: int)
    requires n >= 0
    ensures n * Min(a, b) == Min(n * a, n * b)
  {
    if a <= b {
      assert n * a <= n * b;
    } else {
      assert n * b <= n * a;
    }
  }

  lemma LargeBucketIsExact(rule: seq<int>, b: nat, cells: Cells)
    requires IsRule(rule) && LARGE_START <= b < BUCKETS && Tracked(cells)
    ensures IntervalHole(rule, b, cells) == SumOf(Only(b, Holes(rule)), cells)
  {
    hide BoundaryAt, Label, RequestHole, BucketOf, PageRound, HookHole, IsBoundary, B.Increasing,
         SumOf;
    var cls := Label(rule, b);
    forall r: nat | RoundedAllocationSize(r).Some?
      ensures Only(b, Holes(rule))(r) == Only(b, HOLE)(r)
      ensures cls.Some? ==> Only(b, HOLE)(r) <= Only(b, Minus(cls.value))(r)
    {
      if BucketOf(r) == b {
        LargeRequest(rule, b, r);
      }
    }
    SumExt(Only(b, Holes(rule)), Only(b, HOLE), cells);
    if cls.Some? {
      SumMono(Only(b, HOLE), Only(b, Minus(cls.value)), cells);
      SumMinus(cls.value, b, cells);
    }
  }

  // ---------------------------------------------------------------- the whole histogram

  datatype Totals = Totals(count: int, requested: int, hole: int)

  /** The histogram columns of one CSV row. */
  datatype Row = Row(counts: seq<int>, requested: seq<int>, pageHoles: seq<int>)

  /** The columns aggregate the live cells. */
  ghost predicate Describes(row: Row, cells: Cells) {
    && |row.counts| == |row.requested| == BUCKETS && |row.pageHoles| == BUCKETS - LARGE_START
    && (forall b | 0 <= b < BUCKETS :: row.counts[b] == SumOf(Only(b, ONE), cells))
    && (forall b | 0 <= b < BUCKETS :: row.requested[b] == SumOf(Only(b, SIZE), cells))
    && (forall b | LARGE_START <= b < BUCKETS ::
          row.pageHoles[b - LARGE_START] == SumOf(Only(b, HOLE), cells))
  }

  /** f on the requests of the first n buckets that round to class c. */
  function Of(rule: seq<int>, c: Option<int>, n: nat, f: nat -> int): nat -> int
    requires B.Increasing(rule)
  {
    (r: nat) => if BucketOf(r) < n && ClassRound(rule, Value(r)) == c then f(r) else 0
  }

  function Below(n: nat, f: nat -> int): nat -> int {
    (r: nat) => if BucketOf(r) < n then f(r) else 0
  }

  lemma {:induction false} SumNone(f: nat -> int, cells: Cells)
    requires forall r: nat :: f(r) == 0
    ensures SumOf(f, cells) == 0
  {
    if cells != [] {
      SumNone(f, cells[..|cells| - 1]);
    }
  }

  /** One more bucket. */
  lemma BelowStep(b: nat, f: nat -> int, cells: Cells)
    requires Tracked(cells)
    ensures SumOf(Below(b + 1, f), cells) == SumOf(Below(b, f), cells) + SumOf(Only(b, f), cells)
  {
    hide BucketOf;
    var more, both := Below(b + 1, f), Plus(Below(b, f), Only(b, f));
    forall r: nat ensures more(r) == both(r) {}
    SumExt(more, both, cells);
    SumAdd(Below(b, f), Only(b, f), cells);
  }

  lemma OfStep(rule: seq<int>, c: Option<int>, b: nat, f: nat -> int, cells: Cells)
    requires Tracked(cells) && IsRule(rule) && b < BUCKETS
    ensures SumOf(Of(rule, c, b + 1, f), cells)
            == SumOf(Of(rule, c, b, f), cells)
               + if Label(rule, b) == c then SumOf(Only(b, f), cells) else 0
  {
    hide BucketOf, ClassRound, Label, B.Increasing, IsBoundary;
    forall r: nat | BucketOf(r) == b ensures Label(rule, b) == ClassRound(rule, Value(r)) {
      LabelIsClassRound(rule, r);
    }
    var more, same := Of(rule, c, b + 1, f), Of(rule, c, b, f);
    if Label(rule, b) == c {
      var both := Plus(same, Only(b, f));
      forall r: nat ensures more(r) == both(r) {}
      SumExt(more, both, cells);
      SumAdd(Of(rule, c, b, f), Only(b, f), cells);
    } else {
      forall r: nat ensures more(r) == same(r) {}
      SumExt(more, same, cells);
    }
  }

  ghost predicate TotalsAt(
    rule: seq<int>, n: nat, cells: Cells, c: Option<int>, t: Totals)
    requires B.Increasing(rule)
  {
    && t.count == SumOf(Of(rule, c, n, ONE), cells)
    && t.requested == SumOf(Of(rule, c, n, SIZE), cells)
    && t.hole == SumOf(Of(rule, c, n, Holes(rule)), cells)
  }

  function Labels(rule: seq<int>): set<Option<int>> {
    (set c | c in rule :: Some(c)) + {None}
  }

  lemma LabelListed(rule: seq<int>, b: nat)
    requires IsRule(rule) && b < BUCKETS
    ensures Label(rule, b) in Labels(rule)
  {
    var cls := Label(rule, b);
    if cls.Some? {
      assert cls.value in rule;
    }
  }

  lemma TotalsStep(rule: seq<int>, b: nat, cells: Cells, c: Option<int>, t: Totals)
    requires Tracked(cells) && IsRule(rule) && b < BUCKETS && TotalsAt(rule, b, cells, c, t)
    ensures TotalsAt(rule, b + 1, cells, c,
      if Label(rule, b) != c then t
      else Totals(t.count + SumOf(Only(b, ONE), cells),
                  t.requested + SumOf(Only(b, SIZE), cells),
                  t.hole + IntervalHole(rule, b, cells)))
  {
    hide Label, B.Increasing, IsBoundary, IntervalHole;
    OfStep(rule, c, b, ONE, cells);
    OfStep(rule, c, b, SIZE, cells);
    OfStep(rule, c, b, Holes(rule), cells);
    BucketIsExact(rule, b, cells);
  }

  lemma TotalsStart(rule: seq<int>, cells: Cells, c: Option<int>)
    requires B.Increasing(rule)
    ensures TotalsAt(rule, 0, cells, c, Totals(0, 0, 0))
    ensures SumOf(Below(0, Holes(rule)), cells) == 0
  {
    NoBucketsYet(rule, c, ONE, cells);
    NoBucketsYet(rule, c, SIZE, cells);
    NoBucketsYet(rule, c, Holes(rule), cells);
  }

  lemma NoBucketsYet(rule: seq<int>, c: Option<int>, f: nat -> int, cells: Cells)
    requires B.Increasing(rule)
    ensures SumOf(Of(rule, c, 0, f), cells) == 0 && SumOf(Below(0, f), cells) == 0
  {
    var none, below := Of(rule, c, 0, f), Below(0, f);
    forall r: nat ensures none(r) == 0 && below(r) == 0 {
      assert BucketOf(r) >= 0;
    }
    SumNone(none, cells);
    SumNone(below, cells);
  }

  /** enrich_live_row for one rule: from the histogram columns alone it computes the hole of
      the live requests under the rule, and for every class their number, bytes and hole. */
  method EnrichLiveRow(rule: seq<int>, row: Row, ghost cells: Cells)
    returns (hole: int, totals: map<Option<int>, Totals>)
    requires IsRule(rule) && Tracked(cells) && Describes(row, cells)
    ensures hole == SumOf(Holes(rule), cells)
    ensures totals.Keys == Labels(rule)
    ensures forall c | c in totals :: TotalsAt(rule, BUCKETS, cells, c, totals[c])
  {
    hide B.Increasing, IsBoundary, Label, TotalsAt;
    hole := 0;
    totals := map c | c in Labels(rule) :: Totals(0, 0, 0);
    TotalsStart(rule, cells, None);
    forall c | c in totals ensures TotalsAt(rule, 0, cells, c, totals[c]) {
      TotalsStart(rule, cells, c);
    }
    var lower := 0;
    for index := 0 to BUCKETS
      invariant index < BUCKETS ==> lower == LowerEnd(index)
      invariant hole == SumOf(Below(index, Holes(rule)), cells)
      invariant totals.Keys == Labels(rule)
      invariant forall c | c in totals :: TotalsAt(rule, index, cells, c, totals[c])
    {
      var upper := Upper(index);
      var fallback := if index >= LARGE_START then Some(row.pageHoles[index - LARGE_START])
                      else None;
      var rounded := RoundedClassForInterval(upper, lower, rule);
      var bucketHole := PageAwareIntervalHole(
        row.counts[index], row.requested[index], upper, rounded, fallback);
      LabelListed(rule, index);
      LabelIs(rule, index, rounded);
      BucketIsExact(rule, index, cells);
      BelowStep(index, Holes(rule), cells);
      ghost var before := totals;
      hole := hole + bucketHole;
      var t := totals[rounded];
      totals := totals[rounded := Totals(t.count + row.counts[index],
                                         t.requested + row.requested[index],
                                         t.hole + bucketHole)];
      forall c | c in totals ensures TotalsAt(rule, index + 1, cells, c, totals[c]) {
        TotalsStep(rule, index, cells, c, before[c]);
      }
      if upper.Some? {
        lower := upper.value;
      }
    }
    SumExt(Below(BUCKETS, Holes(rule)), Holes(rule), cells);
  }

  lemma LabelIs(rule: seq<int>, b: nat, c: Option<int>)
    requires IsRule(rule) && b < BUCKETS
    requires c == RoundedClassForInterval(Upper(b), LowerEnd(b), rule)
    ensures Label(rule, b) == c
  {}

  // ---------------------------------------------------------------------- the hook's rule

  function MiniRule(): (rule: seq<int>)
    ensures |rule| == SMALL_CLASSES
    ensures forall k | 0 <= k < SMALL_CLASSES :: rule[k] == SmallSizeClassAt(k)
  {
    seq(SMALL_CLASSES, k requires k >= 0 => SmallSizeClassAt(k))
  }

  /** Where a small class sits among the boundaries. */
  function BoundaryOfSmall(k: nat): nat {
    if k < 49 then k
    else if k < 52 then k + 1
    else if k < 56 then k + 2
    else if k < 68 then k + 3
    else k + 4
  }

  lemma MiniIsRule()
    ensures IsRule(MiniRule())
  {
    var rule := MiniRule();
    forall i, j | 0 <= i < j < SMALL_CLASSES ensures rule[i] < rule[j] {
      SmallClassesIncrease(i, j);
    }
    forall k | 0 <= k < SMALL_CLASSES ensures IsBoundary(rule[k]) {
      SmallIsBoundary(k);
    }
  }

  lemma SmallIsBoundary(k: nat)
    requires k < SMALL_CLASSES
    ensures IsBoundary(SmallSizeClassAt(k))
  {
    assert MIDDLE == [544, 560, 576, 608, 640, 656, 672, 704, 736, 768, 784, 800];
    assert BoundaryAt(BoundaryOfSmall(k)) == SmallSizeClassAt(k);
  }

  /** The page-aware hole under the hook's own rule is the hook's own hole. */
  lemma MiniHole(request: nat)
    requires RoundedAllocationSize(request).Some?
    ensures B.Increasing(MiniRule())
    ensures RequestHole(MiniRule(), request) == HookHole(request)
  {
    hide RoundedAllocationSize, SmallSizeClassAt, IsBoundary;
    MiniIsRule();
    var value := Value(request);
    LastSmallClass();
    if value <= SMALL_LIMIT {
      RoundsToLeastClass(request);
      var bucket := RoundedAllocationSize(request).value.bucket;
      S.BisectLeftIs(MiniRule(), value, bucket);
      ClassFitsPage(request);
    } else {
      forall k | 0 <= k < SMALL_CLASSES ensures MiniRule()[k] < value {
        if k < SMALL_CLASSES - 1 {
          SmallClassesIncrease(k, SMALL_CLASSES - 1);
        }
      }
      S.BisectLeftIs(MiniRule(), value, SMALL_CLASSES);
      LargeHook(request);
    }
  }

  lemma LastSmallClass()
    ensures SmallSizeClassAt(SMALL_CLASSES - 1) == SMALL_LIMIT
    ensures SmallSizeClassAt(95) == 4096 && SmallSizeClassAt(127) == 8192
    ensures SmallSizeClassAt(143) == 12288
  {}

  lemma LargeHook(request: nat)
    requires SMALL_LIMIT < request && RoundedAllocationSize(request).Some?
    ensures HookHole(request) == PageRound(request) - request
  {}

  /** A small class never exceeds the page the request rounds to. */
  lemma ClassFitsPage(request: nat)
    requires Value(request) <= SMALL_LIMIT
    ensures RoundedAllocationSize(request).Some?
    ensures RoundedAllocationSize(request).value.size <= PageRound(Value(request))
  {
    hide RoundedAllocationSize, SmallSizeClassAt;
    RoundsToLeastClass(request);
    LastSmallClass();
    var r := RoundedAllocationSize(request).value;
    var k := if Value(request) <= 4096 then 95 else if Value(request) <= 8192 then 127
             else if Value(request) <= 12288 then 143 else SMALL_CLASSES - 1;
    assert PageRound(Value(request)) == SmallSizeClassAt(k);
    if r.bucket < k {
      SmallClassesIncrease(r.bucket, k);
    }
  }

  /** The offline reconstruction of the hook's own rule is its running hole counter. */
  lemma MiniTotal(cells: Cells)
    requires Tracked(cells)
    ensures IsRule(MiniRule()) && SumOf(Holes(MiniRule()), cells) == SumOf(HOLE, cells)
  {
    hide RequestHole, HookHole, IsBoundary, B.Increasing;
    MiniIsRule();
    forall r: nat | RoundedAllocationSize(r).Some? ensures Holes(MiniRule())(r) == HOLE(r) {
      MiniHole(r);
    }
    SumExt(Holes(MiniRule()), HOLE, cells);
  }
}
