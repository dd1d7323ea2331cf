/** Page-aware hole of a size-class rule over a live histogram, and the schemes of
    optimize_dfmalloc2_buckets.py that optimise the classes up to 1280 and those above it
    independently. Averages are exact reals. */
module PageAwareSchemes {
  import opened Wrappers
  import opened BoundarySelection

  const OPTIMIZE_LIMIT: int := 14336

  /** One entry per histogram class and a last one for everything larger. */
  datatype Dataset = Dataset(
    classes: seq<int>, counts: seq<real>, requested: seq<real>, fallback: seq<real>)

  predicate WellFormed(d: Dataset) {
    && Increasing(d.classes) && (forall i | 0 <= i < |d.classes| :: 0 < d.classes[i])
    && |d.counts| == |d.requested| == |d.fallback| == |d.classes| + 1
  }

  /** Python's bisect_right on a sorted list. */
  function BisectRight(s: seq<int>, x: int): (r: nat)
    requires Increasing(s)
    ensures r <= |s|
    ensures forall i | 0 <= i < r :: s[i] <= x
    ensures forall i | r <= i < |s| :: x < s[i]
  {
    if s == [] then 0
    else if s[|s| - 1] <= x then |s|
    else BisectRight(s[..|s| - 1], x)
  }

  /** Python's bisect_left on a sorted list. */
  function BisectLeft(s: seq<int>, x: int): (r: nat)
    requires Increasing(s)
    ensures r <= |s|
    ensures forall i | 0 <= i < r :: s[i] < x
    ensures forall i | r <= i < |s| :: x <= s[i]
  {
    if s == [] then 0
    else if s[|s| - 1] < x then |s|
    else BisectLeft(s[..|s| - 1], x)
  }

  lemma BisectLeftIs(s: seq<int>, x: int, k: nat)
    requires Increasing(s) && k <= |s|
    requires forall j | 0 <= j < k :: s[j] < x
    requires k < |s| ==> x <= s[k]
    ensures BisectLeft(s, x) == k
  {}

  function MinReal(a: real, b: real): real {
    if b < a then b else a
  }

  // --------------------------------------------------------------------- group costs

  function ClassHole(d: Dataset, i: nat, upper: int): real
    requires WellFormed(d) && i <= |d.classes|
  {
    upper as real * d.counts[i] - d.requested[i]
  }

  /** Hole of bucket i when its requests round up to `upper` or to whole pages. */
  function BucketHole(d: Dataset, i: nat, upper: int): real
    requires WellFormed(d) && i <= |d.classes|
  {
    MinReal(ClassHole(d, i, upper), d.fallback[i])
  }

  function GroupHole(d: Dataset, from: nat, to: nat, upper: int): real
    requires WellFormed(d) && to <= |d.classes|
  {
    if to <= from then 0.0
    else GroupHole(d, from, to - 1, upper) + BucketHole(d, to - 1, upper)
  }

  /** page_aware_group_cost, where `upper` is a histogram boundary. */
  function GroupCost(d: Dataset, lower: int, upper: int): real
    requires WellFormed(d)
  {
    GroupHole(d, BisectRight(d.classes, lower), BisectRight(d.classes, upper), upper)
  }

  predicate IsBoundary(d: Dataset, upper: int)
    requires WellFormed(d)
  {
    upper in d.classes
  }

  method PageAwareGroupCost(d: Dataset, lower: int, upper: int) returns (hole: Option<real>)
    requires WellFormed(d)
    ensures hole.Some? <==> IsBoundary(d, upper)
    ensures hole.Some? ==> hole.value == GroupCost(d, lower, upper)
  {
    var start := BisectRight(d.classes, lower);
    var stop := BisectRight(d.classes, upper);
    if stop == 0 || d.classes[stop - 1] != upper {
      return None;
    }
    var sum := 0.0;
    for index := start to if start < stop then stop else start
      invariant start < stop || index == start
      invariant sum == GroupHole(d, start, index, upper)
    {
      var classHole := ClassHole(d, index, upper);
      sum := sum + MinReal(classHole, d.fallback[index]);
    }
    return Some(sum);
  }

  // ----------------------------------------------------------------- evaluating a rule

  /** Hole of bucket i under a rule: the least class that holds it, or whole pages. */
  function RuledHole(d: Dataset, rule: seq<int>, i: nat): real
    requires WellFormed(d) && Increasing(rule) && i <= |d.classes|
  {
    if i == |d.classes| || BisectLeft(rule, d.classes[i]) == |rule| then d.fallback[i]
    else BucketHole(d, i, rule[BisectLeft(rule, d.classes[i])])
  }

  function RuleHole(d: Dataset, rule: seq<int>, n: nat): real
    requires WellFormed(d) && Increasing(rule) && n <= |d.classes| + 1
  {
    if n == 0 then 0.0 else RuleHole(d, rule, n - 1) + RuledHole(d, rule, n - 1)
  }

  function Hole(d: Dataset, rule: seq<int>): real
    requires WellFormed(d) && Increasing(rule)
  {
    RuleHole(d, rule, |d.classes| + 1)
  }

  /** None for the rule the source rejects. */
  method EvaluatePageAwareRule(d: Dataset, rule: seq<int>) returns (hole: Option<real>)
    requires WellFormed(d) && Increasing(rule)
    ensures hole.Some? <==> rule != [] && rule[|rule| - 1] == OPTIMIZE_LIMIT
    ensures hole.Some? ==> hole.value == Hole(d, rule)
  {
    hide ClassHole;
    if rule == [] || rule[|rule| - 1] != OPTIMIZE_LIMIT {
      return None;
    }
    var sum := 0.0;
    for index := 0 to |d.counts|
      invariant sum == RuleHole(d, rule, index)
    {
      var rounded := None;
      if index < |d.classes| {
        var classIndex := BisectLeft(rule, d.classes[index]);
        if classIndex < |rule| {
          rounded := Some(rule[classIndex]);
        }
      }
      if rounded.None? {
        sum := sum + d.fallback[index];
      } else {
        var classHole := ClassHole(d, index, rounded.value);
        sum := sum + MinReal(classHole, d.fallback[index]);
      }
    }
    return Some(sum);
  }

  function Tail(d: Dataset, from: nat, n: nat): real
    requires WellFormed(d) && n <= |d.classes| + 1
  {
    if n <= from then 0.0 else Tail(d, from, n - 1) + d.fallback[n - 1]
  }

  function Cost(d: Dataset): (int, int) -> real
    requires WellFormed(d)
  {
    (lower, upper) => GroupCost(d, lower, upper)
  }

  predicate UsesBoundaries(d: Dataset, rule: seq<int>) {
    forall k | 0 <= k < |rule| :: rule[k] in d.classes
  }

  lemma BisectOrder(s: seq<int>, x: int, y: int)
    requires Increasing(s) && x <= y
    ensures BisectRight(s, x) <= BisectRight(s, y)
  {}

  lemma BisectEnd(s: seq<int>, k: nat)
    requires Increasing(s) && k < |s|
    ensures BisectRight(s, s[k]) == k + 1
  {}

  /** The buckets of the rule's k-th group round up to its k-th class. */
  lemma {:induction false} GroupIsRuled(d: Dataset, rule: seq<int>, k: nat, n: nat)
    requires WellFormed(d) && Increasing(rule) && k < |rule| && 0 < rule[0]
    requires BisectRight(d.classes, Lower(0, rule, k)) <= n <= BisectRight(d.classes, rule[k])
    ensures RuleHole(d, rule, n)
            == RuleHole(d, rule, BisectRight(d.classes, Lower(0, rule, k)))
               + GroupHole(d, BisectRight(d.classes, Lower(0, rule, k)), n, rule[k])
    decreases n
  {
    hide ClassHole;
    if n > BisectRight(d.classes, Lower(0, rule, k)) {
      GroupIsRuled(d, rule, k, n - 1);
      assert Lower(0, rule, k) < d.classes[n - 1] <= rule[k];
      assert BisectLeft(rule, d.classes[n - 1]) == k;
    }
  }

  lemma {:induction false} RuleIsGroups(d: Dataset, rule: seq<int>, k: nat)
    requires WellFormed(d) && Increasing(rule) && k <= |rule| && (rule != [] ==> 0 < rule[0])
    ensures BisectRight(d.classes, if k == 0 then 0 else rule[k - 1]) <= |d.classes|
    ensures RuleHole(d, rule, BisectRight(d.classes, if k == 0 then 0 else rule[k - 1]))
            == PathCost(Cost(d), 0, rule[..k])
  {
    hide RuledHole, BucketHole;
    if k == 0 {
      assert d.classes != [] ==> 0 < d.classes[0];
      assert BisectRight(d.classes, 0) == 0;
    } else {
      RuleIsGroups(d, rule, k - 1);
      var init := rule[..k];
      assert init[..k - 1] == rule[..k - 1];
      BisectOrder(d.classes, Lower(0, rule, k - 1), rule[k - 1]);
      GroupIsRuled(d, rule, k - 1, BisectRight(d.classes, rule[k - 1]));
    }
  }

  lemma {:induction false} TailIsFallback(d: Dataset, rule: seq<int>, n: nat)
    requires WellFormed(d) && Increasing(rule) && rule != []
    requires BisectRight(d.classes, rule[|rule| - 1]) <= n <= |d.classes| + 1
    ensures RuleHole(d, rule, n)
            == RuleHole(d, rule, BisectRight(d.classes, rule[|rule| - 1]))
               + Tail(d, BisectRight(d.classes, rule[|rule| - 1]), n)
    decreases n
  {
    hide BucketHole;
    if n > BisectRight(d.classes, rule[|rule| - 1]) {
      TailIsFallback(d, rule, n - 1);
    }
  }

  /** The hole of a rule is the cost of its groups plus the fallback of the tail. */
  lemma EvaluateSplits(d: Dataset, rule: seq<int>)
    requires WellFormed(d) && Increasing(rule) && rule != [] && 0 < rule[0]
    ensures Hole(d, rule)
            == PathCost(Cost(d), 0, rule)
               + Tail(d, BisectRight(d.classes, rule[|rule| - 1]), |d.classes| + 1)
  {
    RuleIsGroups(d, rule, |rule|);
    assert rule[..|rule|] == rule;
    TailIsFallback(d, rule, |d.classes| + 1);
  }

  lemma {:induction false} PathCostJoins(
    cost: (int, int) -> real, start: int, s: seq<int>, l: seq<int>)
    requires s != []
    ensures PathCost(cost, start, s + l)
            == PathCost(cost, start, s) + PathCost(cost, s[|s| - 1], l)
  {
    if l == [] {
      assert s + l == s;
    } else {
      var n := |l| - 1;
      PathCostJoins(cost, start, s, l[..n]);
      assert (s + l)[..|s| + n] == s + l[..n];
    }
  }

  // ------------------------------------------------------------------------- schemes

  datatype Scheme = Scheme(alignment: pos, smallExtra: nat, largeExtra: nat)

  type pos = n: nat | 0 < n witness 1

  datatype LargeKey = LargeKey(alignment: pos, extra: nat)

  datatype SchemeError = NoSplitBoundary | BadBaseline | Select(error: SelectError)

  function HistogramCandidates(d: Dataset): seq<int> {
    Filter(v => 0 < v <= OPTIMIZE_LIMIT && v % STEP_QUANTUM == 0, d.classes)
  }

  function LargeCandidates(d: Dataset, alignment: pos): seq<int> {
    Filter(v => v > LARGE_STEP_START && v % alignment == 0, HistogramCandidates(d))
  }

  lemma CandidatesIncrease(d: Dataset, alignment: pos)
    requires WellFormed(d)
    ensures Increasing(HistogramCandidates(d)) && Increasing(LargeCandidates(d, alignment))
  {
    FilterIncreasing(v => 0 < v <= OPTIMIZE_LIMIT && v % STEP_QUANTUM == 0, d.classes);
    FilterIncreasing(v => v > LARGE_STEP_START && v % alignment == 0, HistogramCandidates(d));
  }

  function SmallProblem(d: Dataset): Problem
    requires WellFormed(d)
  {
    SelectProblem(HistogramCandidates(d), LARGE_STEP_START, Cost(d), 0)
  }

  function LargeProblem(d: Dataset, alignment: pos): Problem
    requires WellFormed(d)
  {
    SelectProblem(LargeCandidates(d, alignment), OPTIMIZE_LIMIT, Cost(d), LARGE_STEP_START)
  }

  /** A rule a scheme may pick: every step legal from zero, the m-th class is 1280, n more
      classes end at the limit, all on histogram boundaries that are multiples of eight,
      those above 1280 also multiples of the alignment. */
  predicate SchemeRule(d: Dataset, alignment: pos, m: nat, n: nat, rule: seq<int>)
    requires WellFormed(d)
  {
    && m >= 1 && n >= 1 && |rule| == m + n
    && rule[m - 1] == LARGE_STEP_START && rule[m + n - 1] == OPTIMIZE_LIMIT
    && (forall k | 0 <= k < m + n :: SchemeStep(d, rule, k))
    && forall k | m <= k < m + n :: rule[k] % alignment == 0
  }

  predicate SchemeStep(d: Dataset, rule: seq<int>, k: nat)
    requires k < |rule|
  {
    && rule[k] in d.classes && rule[k] % STEP_QUANTUM == 0
    && ValidStep(Lower(0, rule, k), rule[k])
  }

  /** Legal steps only go up. */
  lemma {:induction false} StepsIncrease(d: Dataset, rule: seq<int>, i: nat, j: nat)
    requires forall k | 0 <= k < |rule| :: SchemeStep(d, rule, k)
    requires i < j < |rule|
    ensures 0 < rule[i] < rule[j]
    decreases j
  {
    assert SchemeStep(d, rule, j);
    if i + 1 < j {
      StepsIncrease(d, rule, i, j - 1);
    } else if i > 0 {
      StepsIncrease(d, rule, i - 1, i);
    } else {
      assert SchemeStep(d, rule, 0);
    }
  }

  lemma SchemeRuleIncreases(d: Dataset, alignment: pos, m: nat, n: nat, rule: seq<int>)
    requires WellFormed(d) && SchemeRule(d, alignment, m, n, rule)
    ensures Increasing(rule) && 0 < rule[0]
  {
    forall i, j | 0 <= i < j < |rule| ensures rule[i] < rule[j] {
      StepsIncrease(d, rule, i, j);
    }
    StepsIncrease(d, rule, 0, 1);
  }

  lemma LargeStep(d: Dataset, alignment: pos, m: nat, n: nat, rule: seq<int>, k: nat)
    requires WellFormed(d) && SchemeRule(d, alignment, m, n, rule) && Increasing(rule) && k < n
    ensures LegalAt(LargeProblem(d, alignment), rule[m..], k)
  {
    hide ValidStep;
    assert SchemeStep(d, rule, m + k);
    assert rule[m + k] % alignment == 0;
    assert LARGE_STEP_START < rule[m + k] <= OPTIMIZE_LIMIT;
    assert rule[m + k] in LargeCandidates(d, alignment);
  }

  /** A scheme rule is a legal rule of the small problem followed by one of the large. */
  lemma SchemeRuleSplits(d: Dataset, alignment: pos, m: nat, n: nat, rule: seq<int>)
    requires WellFormed(d) && SchemeRule(d, alignment, m, n, rule)
    ensures m >= 1 && n >= 1 && |rule| == m + n
    ensures rule[..m][m - 1] == LARGE_STEP_START && rule[m..][n - 1] == OPTIMIZE_LIMIT
    ensures Legal(SmallProblem(d), rule[..m]) && Legal(LargeProblem(d, alignment), rule[m..])
  {
    hide ValidStep;
    SchemeRuleIncreases(d, alignment, m, n, rule);
    var small, large := rule[..m], rule[m..];
    forall k | 0 <= k < m ensures LegalAt(SmallProblem(d), small, k) {
      assert SchemeStep(d, rule, k);
    }
    forall k | 0 <= k < n ensures LegalAt(LargeProblem(d, alignment), large, k) {
      LargeStep(d, alignment, m, n, rule, k);
    }
  }

  /** And conversely. */
  lemma SplitIsSchemeRule(d: Dataset, alignment: pos, small: seq<int>, large: seq<int>)
    requires WellFormed(d)
    requires Legal(SmallProblem(d), small) && small[|small| - 1] == LARGE_STEP_START
    requires Legal(LargeProblem(d, alignment), large) && large[|large| - 1] == OPTIMIZE_LIMIT
    ensures SchemeRule(d, alignment, |small|, |large|, small + large)
  {
    hide ValidStep;
    var rule := small + large;
    forall k | 0 <= k < |rule| ensures SchemeStep(d, rule, k) {
      if k < |small| {
        assert LegalAt(SmallProblem(d), small, k);
      } else {
        assert LegalAt(LargeProblem(d, alignment), large, k - |small|);
      }
    }
    forall k | |small| <= k < |rule| ensures rule[k] % alignment == 0 {
      assert LegalAt(LargeProblem(d, alignment), large, k - |small|);
    }
  }

  /** A rule for one region with its cost. */
  function Part(d: Dataset, start: int, path: seq<int>): (c: Choice)
    requires WellFormed(d)
    ensures c.path == path
  {
    Choice(PathCost(Cost(d), start, path), path)
  }

  /** Two regions and the tail that no explicit class covers. */
  function Joined(d: Dataset, small: Choice, large: Choice): Choice
    requires WellFormed(d)
  {
    var tail := Tail(d, BisectRight(d.classes, OPTIMIZE_LIMIT), |d.classes| + 1);
    Choice(small.cost + large.cost + tail, small.path + large.path)
  }

  lemma SchemeHole(d: Dataset, alignment: pos, m: nat, n: nat, rule: seq<int>)
    requires WellFormed(d) && SchemeRule(d, alignment, m, n, rule)
    ensures Increasing(rule) && |rule| == m + n
    ensures Choice(Hole(d, rule), rule)
            == Joined(d, Part(d, 0, rule[..m]), Part(d, LARGE_STEP_START, rule[m..]))
  {
    SchemeRuleIncreases(d, alignment, m, n, rule);
    EvaluateSplits(d, rule);
    assert rule == rule[..m] + rule[m..];
    PathCostJoins(Cost(d), 0, rule[..m], rule[m..]);
  }

  /** The answer of one scheme: the least small rule followed by the least large rule. */
  ghost predicate SchemeAnswer(
    d: Dataset, alignment: pos, m: nat, n: nat, small: Choice, large: Choice)
    requires WellFormed(d)
  {
    && Selected(SmallProblem(d), m, Success(small))
    && Selected(LargeProblem(d, alignment), n, Success(large))
  }

  /** Solving the two regions apart gives the least page-aware hole over all rules of the
      scheme's shape, and among equally good rules the smallest list. */
  lemma SchemeOptimal(
    d: Dataset, alignment: pos, m: nat, n: nat, small: Choice, large: Choice, rule: seq<int>)
    requires WellFormed(d) && SchemeAnswer(d, alignment, m, n, small, large)
    requires SchemeRule(d, alignment, m, n, rule)
    ensures SchemeRule(d, alignment, m, n, small.path + large.path)
    ensures Increasing(small.path + large.path) && Increasing(rule)
    ensures AtLeast(Choice(Hole(d, small.path + large.path), small.path + large.path),
                    Choice(Hole(d, rule), rule))
  {
    hide SchemeAnswer, SchemeRule, Legal, Hole, AtLeast, Part, Joined;
    SchemeRuleSplits(d, alignment, m, n, rule);
    SchemeAnswerIsRule(d, alignment, m, n, small, large);
    var best := small.path + large.path;
    SchemeHole(d, alignment, m, n, best);
    SchemeHole(d, alignment, m, n, rule);
    assert best[..m] == small.path && best[m..] == large.path;
    var s, l := Part(d, 0, rule[..m]), Part(d, LARGE_STEP_START, rule[m..]);
    PartsAreLeast(d, alignment, m, n, small, large, rule[..m], rule[m..]);
    JoinLeast(d, small, s, large, l);
  }

  lemma PartsAreLeast(d: Dataset, alignment: pos, m: nat, n: nat, small: Choice, large: Choice,
                      s: seq<int>, l: seq<int>)
    requires WellFormed(d) && SchemeAnswer(d, alignment, m, n, small, large)
    requires Legal(SmallProblem(d), s) && |s| == m && s[m - 1] == LARGE_STEP_START
    requires Legal(LargeProblem(d, alignment), l) && |l| == n && l[n - 1] == OPTIMIZE_LIMIT
    ensures small == Part(d, 0, small.path) && large == Part(d, LARGE_STEP_START, large.path)
    ensures |small.path| == m && |large.path| == n
    ensures AtLeast(small, Part(d, 0, s)) && AtLeast(large, Part(d, LARGE_STEP_START, l))
  {
    CandidatesIncrease(d, alignment);
    SelectedIsLeast(HistogramCandidates(d), LARGE_STEP_START, Cost(d), 0, m, small);
    SelectedIsLeast(
      LargeCandidates(d, alignment), OPTIMIZE_LIMIT, Cost(d), LARGE_STEP_START, n, large);
  }

  lemma SchemeAnswerIsRule(
    d: Dataset, alignment: pos, m: nat, n: nat, small: Choice, large: Choice)
    requires WellFormed(d) && SchemeAnswer(d, alignment, m, n, small, large)
    ensures |small.path| == m && |large.path| == n
    ensures SchemeRule(d, alignment, m, n, small.path + large.path)
  {
    CandidatesIncrease(d, alignment);
    SelectedIsLeast(HistogramCandidates(d), LARGE_STEP_START, Cost(d), 0, m, small);
    SelectedIsLeast(
      LargeCandidates(d, alignment), OPTIMIZE_LIMIT, Cost(d), LARGE_STEP_START, n, large);
    SplitIsSchemeRule(d, alignment, small.path, large.path);
  }

  /** Joining keeps the order on (cost, list). */
  lemma JoinLeast(d: Dataset, s: Choice, s': Choice, l: Choice, l': Choice)
    requires WellFormed(d) && |s.path| == |s'.path| && AtLeast(s, s') && AtLeast(l, l')
    ensures AtLeast(Joined(d, s, l), Joined(d, s', l'))
  {
    hide Tail;
    if s.cost == s'.cost && l.cost == l'.cost {
      if s != s' {
        LessAppend(s.path, s'.path, l.path, l'.path);
      } else if l != l' {
        LessPrefix(s.path, l.path, l'.path);
      }
    }
  }

  // --------------------------------------------------------------- the scheme optimiser

  datatype Candidate = Candidate(extra: nat, classes: seq<int>, hole: real)

  predicate BaselineOk(baseline: seq<int>) {
    && LARGE_STEP_START in baseline && baseline[|baseline| - 1] == OPTIMIZE_LIMIT
    && forall k | 0 <= k < |baseline| :: Aligned(baseline, k)
  }

  predicate Aligned(baseline: seq<int>, k: nat)
    requires k < |baseline|
  {
    (baseline[k] - Lower(0, baseline, k)) % STEP_QUANTUM == 0
  }

  method ValidateBaseline(baseline: seq<int>) returns (ok: bool)
    ensures ok == BaselineOk(baseline)
  {
    if LARGE_STEP_START !in baseline || baseline[|baseline| - 1] != OPTIMIZE_LIMIT {
      return false;
    }
    var previous := 0;
    for k := 0 to |baseline|
      invariant k > 0 ==> previous == baseline[k - 1]
      invariant k == 0 ==> previous == 0
      invariant forall j | 0 <= j < k :: Aligned(baseline, j)
    {
      if (baseline[k] - previous) % STEP_QUANTUM != 0 {
        assert !Aligned(baseline, k);
        return false;
      }
      previous := baseline[k];
    }
    return true;
  }

  /** A candidate of the optimiser answers its scheme and carries its own hole. */
  ghost predicate Answers(d: Dataset, baseline: seq<int>, scheme: Scheme, c: Candidate)
    requires WellFormed(d) && Increasing(baseline)
  {
    var m := BisectRight(baseline, LARGE_STEP_START);
    && c.extra == scheme.smallExtra + scheme.largeExtra
    && Increasing(c.classes) && c.hole == Hole(d, c.classes)
    && exists small, large ::
         && SchemeAnswer(d, scheme.alignment, m + scheme.smallExtra,
                         |baseline| - m + scheme.largeExtra, small, large)
         && c.classes == small.path + large.path
  }

  ghost predicate SomeAnswer(d: Dataset, alignment: pos, m: nat, n: nat)
    requires WellFormed(d)
  {
    exists small, large :: SchemeAnswer(d, alignment, m, n, small, large)
  }

  /** Both regions of the scheme have a rule. */
  ghost predicate Solvable(d: Dataset, baseline: seq<int>, scheme: Scheme)
    requires WellFormed(d) && Increasing(baseline)
  {
    var m := BisectRight(baseline, LARGE_STEP_START);
    SomeAnswer(d, scheme.alignment, m + scheme.smallExtra, |baseline| - m + scheme.largeExtra)
  }

  /** The small region is selected first, the large one only if that succeeds. */
  ghost predicate FailsWith(d: Dataset, baseline: seq<int>, scheme: Scheme, e: SelectError)
    requires WellFormed(d) && Increasing(baseline)
  {
    var m := BisectRight(baseline, LARGE_STEP_START);
    || Selected(SmallProblem(d), m + scheme.smallExtra, Failure(e))
    || ((exists small :: Selected(SmallProblem(d), m + scheme.smallExtra, Success(small)))
        && Selected(LargeProblem(d, scheme.alignment), |baseline| - m + scheme.largeExtra,
                    Failure(e)))
  }

  /** Scheme k is the first without an answer. */
  ghost predicate FirstFailure(
    d: Dataset, baseline: seq<int>, schemes: seq<Scheme>, e: SelectError, k: nat)
    requires WellFormed(d) && Increasing(baseline) && k < |schemes|
  {
    && FailsWith(d, baseline, schemes[k], e)
    && forall j | 0 <= j < k :: Solvable(d, baseline, schemes[j])
  }

  ghost predicate SmallCache(d: Dataset, count: nat, cache: map<nat, Choice>)
    requires WellFormed(d)
  {
    forall e | e in cache :: Selected(SmallProblem(d), count + e, Success(cache[e]))
  }

  ghost predicate LargeCache(d: Dataset, count: nat, cache: map<LargeKey, Choice>)
    requires WellFormed(d)
  {
    forall k | k in cache :: Selected(LargeProblem(d, k.alignment), count + k.extra, Success(cache[k]))
  }

  method SolveSmall(d: Dataset, count: nat, extra: nat, cache: map<nat, Choice>)
    returns (r: Result<map<nat, Choice>, SelectError>)
    requires WellFormed(d) && SmallCache(d, count, cache)
    ensures r.Success? ==> extra in r.value && SmallCache(d, count, r.value)
    ensures r.Failure? ==> Selected(SmallProblem(d), count + extra, Failure(r.error))
  {
    hide Selected, SelectProblem, HistogramCandidates, Cost;
    if extra in cache {
      return Success(cache);
    }
    var chosen := SelectBoundaries(
      HistogramCandidates(d), LARGE_STEP_START, count + extra, Cost(d), 0);
    if chosen.Failure? {
      return Failure(chosen.error);
    }
    return Success(cache[extra := chosen.value]);
  }

  method SolveLarge(d: Dataset, count: nat, key: LargeKey, cache: map<LargeKey, Choice>)
    returns (r: Result<map<LargeKey, Choice>, SelectError>)
    requires WellFormed(d) && LargeCache(d, count, cache)
    ensures r.Success? ==> key in r.value && LargeCache(d, count, r.value)
    ensures r.Failure? ==> Selected(LargeProblem(d, key.alignment), count + key.extra, Failure(r.error))
  {
    hide Selected, SelectProblem, LargeCandidates, Cost;
    if key in cache {
      return Success(cache);
    }
    var chosen := SelectBoundaries(
      LargeCandidates(d, key.alignment), OPTIMIZE_LIMIT, count + key.extra, Cost(d), LARGE_STEP_START);
    if chosen.Failure? {
      return Failure(chosen.error);
    }
    return Success(cache[key := chosen.value]);
  }

  /** optimize_schemes: one candidate per scheme, each region solved once per distinct
      request, or the error of the first request without a rule. */
  method OptimizeSchemes(d: Dataset, baseline: seq<int>, schemes: seq<Scheme>)
    returns (r: Result<seq<Candidate>, SchemeError>)
    requires WellFormed(d) && Increasing(baseline)
    ensures r == Failure(BadBaseline) <==> !BaselineOk(baseline)
    ensures r == Failure(NoSplitBoundary) <==>
      BaselineOk(baseline) && LARGE_STEP_START !in HistogramCandidates(d)
    ensures r.Failure? && r.error.Select? ==>
      exists k | 0 <= k < |schemes| :: FirstFailure(d, baseline, schemes, r.error.error, k)
    ensures r.Success? ==>
      && |r.value| == |schemes|
      && forall k | 0 <= k < |schemes| :: Answers(d, baseline, schemes[k], r.value[k])
  {
    hide Selected, SelectProblem, HistogramCandidates, LargeCandidates, Answers, BaselineOk;
    hide Solvable;
    var ok := ValidateBaseline(baseline);
    if !ok {
      return Failure(BadBaseline);
    }
    var smallCount := BisectRight(baseline, LARGE_STEP_START);
    var largeCount := |baseline| - smallCount;
    if LARGE_STEP_START !in HistogramCandidates(d) {
      return Failure(NoSplitBoundary);
    }
    var smallResults: map<nat, Choice> := map[];
    var largeResults: map<LargeKey, Choice> := map[];
    var results := [];
    for index := 0 to |schemes|
      invariant |results| == index
      invariant SmallCache(d, smallCount, smallResults)
      invariant LargeCache(d, largeCount, largeResults)
      invariant forall k | 0 <= k < index :: Answers(d, baseline, schemes[k], results[k])
      invariant forall k | 0 <= k < index :: Solvable(d, baseline, schemes[k])
    {
      var scheme := schemes[index];
      var small := SolveSmall(d, smallCount, scheme.smallExtra, smallResults);
      if small.Failure? {
        assert FirstFailure(d, baseline, schemes, small.error, index);
        return Failure(Select(small.error));
      }
      smallResults := small.value;
      var key := LargeKey(scheme.alignment, scheme.largeExtra);
      var large := SolveLarge(d, largeCount, key, largeResults);
      if large.Failure? {
        assert FirstFailure(d, baseline, schemes, large.error, index);
        return Failure(Select(large.error));
      }
      largeResults := large.value;
      var candidate := MakeCandidate(
        d, baseline, scheme, smallResults[scheme.smallExtra], largeResults[key]);
      results := results + [candidate];
    }
    return Success(results);
  }

  method MakeCandidate(
    d: Dataset, ghost baseline: seq<int>, scheme: Scheme, small: Choice, large: Choice)
    returns (c: Candidate)
    requires WellFormed(d) && Increasing(baseline)
    requires var m := BisectRight(baseline, LARGE_STEP_START);
      SchemeAnswer(d, scheme.alignment, m + scheme.smallExtra,
                   |baseline| - m + scheme.largeExtra, small, large)
    ensures Answers(d, baseline, scheme, c) && Solvable(d, baseline, scheme)
  {
    hide SchemeRule, Selected, Hole, Increasing;
    ghost var m := BisectRight(baseline, LARGE_STEP_START);
    var classes := small.path + large.path;
    SchemeAnswerIsRule(d, scheme.alignment, m + scheme.smallExtra,
                       |baseline| - m + scheme.largeExtra, small, large);
    SchemeRuleIncreases(d, scheme.alignment, m + scheme.smallExtra,
                        |baseline| - m + scheme.largeExtra, classes);
    var hole := EvaluatePageAwareRule(d, classes);
    c := Candidate(scheme.smallExtra + scheme.largeExtra, classes, hole.value);
  }

  // ---------------------------------------------------------------------- detail rows

  datatype Row = Row(lower: int, upper: int, step: int, hole: real)

  function RowsHole(rows: seq<Row>): real {
    if rows == [] then 0.0 else RowsHole(rows[..|rows| - 1]) + rows[|rows| - 1].hole
  }

  method TailHole(d: Dataset, from: nat) returns (sum: real)
    requires WellFormed(d) && from <= |d.classes|
    ensures sum == Tail(d, from, |d.classes| + 1)
  {
    sum := 0.0;
    for index := from to |d.fallback|
      invariant sum == Tail(d, from, index)
    {
      sum := sum + d.fallback[index];
    }
  }

  predicate RowFits(rule: seq<int>, k: nat, row: Row)
    requires k < |rule|
  {
    var lower := Lower(0, rule, k);
    row.lower == lower + 1 && row.upper == rule[k] && row.step == rule[k] - lower
  }

  lemma RowsHoleSnoc(rows: seq<Row>, row: Row)
    ensures RowsHole([]) == 0.0
    ensures RowsHole(rows + [row]) == RowsHole(rows) + row.hole
  {
    assert (rows + [row])[..|rows|] == rows;
  }

  method GroupRows(d: Dataset, rule: seq<int>) returns (rows: seq<Row>)
    requires WellFormed(d) && UsesBoundaries(d, rule)
    ensures |rows| == |rule| && RowsHole(rows) == PathCost(Cost(d), 0, rule)
    ensures forall k | 0 <= k < |rule| :: RowFits(rule, k, rows[k])
  {
    hide GroupCost, BisectRight, PathCost, RowsHole;
    RowsHoleSnoc([], Row(0, 0, 0, 0.0));
    rows := [];
    if rule == [] {
      PathCostSnoc(Cost(d), 0, [0], 0);
      return;
    }
    PathCostSnoc(Cost(d), 0, rule, 0);
    var lower := 0;
    for k := 0 to |rule|
      invariant |rows| == k && lower == (if k == 0 then 0 else rule[k - 1])
      invariant RowsHole(rows) == PathCost(Cost(d), 0, rule[..k])
      invariant forall j | 0 <= j < k :: RowFits(rule, j, rows[j])
    {
      assert IsBoundary(d, rule[k]);
      var hole := PageAwareGroupCost(d, lower, rule[k]);
      var row := Row(lower + 1, rule[k], rule[k] - lower, hole.value);
      RowsHoleSnoc(rows, row);
      PathCostSnoc(Cost(d), 0, rule, k);
      rows := rows + [row];
      lower := rule[k];
    }
    assert rule[..|rule|] == rule;
  }

  /** allocator_detail_rows: one row per class and one for the tail; their holes add up to
      the rule's own hole. */
  method AllocatorDetailRows(d: Dataset, rule: seq<int>) returns (rows: Option<seq<Row>>)
    requires WellFormed(d) && Increasing(rule)
    ensures rows.Some? <==> rule != [] && UsesBoundaries(d, rule)
    ensures rows.Some? ==>
      && |rows.value| == |rule| + 1
      && (forall k | 0 <= k < |rule| :: RowFits(rule, k, rows.value[k]))
      && RowsHole(rows.value) == Hole(d, rule)
  {
    hide RowFits, PathCost, Hole, Tail, RowsHole;
    if rule == [] || !UsesBoundaries(d, rule) {
      return None;
    }
    var groups := GroupRows(d, rule);
    var end := rule[|rule| - 1];
    var tail := TailHole(d, BisectRight(d.classes, end));
    var last := Row(end + 1, end, 4096, tail);
    assert rule[0] in d.classes;
    EvaluateSplits(d, rule);
    RowsHoleSnoc(groups, last);
    return Some(groups + [last]);
  }
}
