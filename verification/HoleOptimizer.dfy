/** optimize_classes of optimize_hole_buckets.py: a dynamic program with back pointers that
    finds, for every requested number of size classes at once, the rule with the least
    hole. The reference is every way to cut the histogram into that many groups. Averages
    are exact reals. */
module HoleOptimizer {
  import opened Wrappers
  import S = PageAwareSchemes
  import B = BoundarySelection

  datatype Histogram = Histogram(boundaries: seq<int>, counts: seq<real>, requested: seq<real>)

  predicate WellFormed(h: Histogram) {
    |h.counts| == |h.boundaries| && |h.requested| == |h.boundaries|
  }

  // ---------------------------------------------------------------- reference: all cuts

  /** Hole of bucket i when its requests round up to `upper`. */
  function Term(h: Histogram, i: nat, upper: int): real
    requires WellFormed(h) && i < |h.boundaries|
  {
    upper as real * h.counts[i] - h.requested[i]
  }

  /** Hole of buckets start..end when they all round up to `upper`. */
  function Rounded(h: Histogram, start: nat, end: nat, upper: int): real
    requires WellFormed(h) && end <= |h.boundaries|
  {
    if end <= start then 0.0
    else Rounded(h, start, end - 1, upper) + Term(h, end - 1, upper)
  }

  /** Hole of one group: its buckets round up to its last boundary. */
  function Group(h: Histogram, start: nat, end: nat): real
    requires WellFormed(h) && start < end <= |h.boundaries|
  {
    Rounded(h, start, end, h.boundaries[end - 1])
  }

  function LastStart(cuts: seq<nat>): nat
    requires cuts != []
  {
    if |cuts| == 1 then 0 else cuts[|cuts| - 2]
  }

  /** cuts are the ends of `level` non-empty groups that together cover buckets 0..end. */
  predicate IsCut(level: nat, end: nat, cuts: seq<nat>) {
    if level == 0 then cuts == [] && end == 0
    else
      && |cuts| == level && cuts[level - 1] == end && LastStart(cuts) < end
      && IsCut(level - 1, LastStart(cuts), cuts[..level - 1])
  }

  function CutCost(h: Histogram, end: nat, cuts: seq<nat>): real
    requires WellFormed(h) && IsCut(|cuts|, end, cuts) && end <= |h.boundaries|
    decreases |cuts|
  {
    if cuts == [] then 0.0
    else CutCost(h, LastStart(cuts), cuts[..|cuts| - 1]) + Group(h, LastStart(cuts), end)
  }

  lemma {:induction false} CutNeedsRoom(level: nat, end: nat, cuts: seq<nat>)
    requires IsCut(level, end, cuts)
    ensures level <= end && (level == 0 ==> end == 0)
    decreases level
  {
    if level > 0 {
      CutNeedsRoom(level - 1, LastStart(cuts), cuts[..level - 1]);
    }
  }

  // ------------------------------------------------------------------ the recurrence

  /** Best cost and its least start, over starts below n. */
  function Scan(h: Histogram, level: nat, end: nat, n: nat): (r: Option<(real, nat)>)
    requires WellFormed(h) && 1 <= level && n <= end <= |h.boundaries|
    ensures r.Some? ==> r.value.1 < n
    decreases level, 0, n
  {
    if n == 0 then None
    else
      var r := Scan(h, level, end, n - 1);
      var prefix := Opt(h, level - 1, n - 1);
      if prefix.None? then r
      else
        var cost := prefix.value + Group(h, n - 1, end);
        if r.None? || cost < r.value.0 then Some((cost, n - 1)) else r
  }

  function Opt(h: Histogram, level: nat, end: nat): Option<real>
    requires WellFormed(h) && end <= |h.boundaries|
    decreases level, 1
  {
    if level == 0 then if end == 0 then Some(0.0) else None
    else
      var r := Scan(h, level, end, end);
      if r.None? then None else Some(r.value.0)
  }

  /** The cut that the back pointers spell out. */
  function Trace(h: Histogram, level: nat, end: nat): (cuts: seq<nat>)
    requires WellFormed(h) && end <= |h.boundaries| && Opt(h, level, end).Some?
    ensures |cuts| == level
    decreases level
  {
    if level == 0 then []
    else
      ScanIsFinite(h, level, end, end);
      Trace(h, level - 1, Scan(h, level, end, end).value.1) + [end]
  }

  lemma {:induction false} ScanIsFinite(h: Histogram, level: nat, end: nat, n: nat)
    requires WellFormed(h) && 1 <= level && n <= end <= |h.boundaries|
    ensures var r := Scan(h, level, end, n);
      r.Some? ==>
        && Opt(h, level - 1, r.value.1).Some?
        && r.value.0 == Opt(h, level - 1, r.value.1).value + Group(h, r.value.1, end)
  {
    if n > 0 {
      ScanIsFinite(h, level, end, n - 1);
    }
  }

  lemma {:induction false} ScanBound(h: Histogram, level: nat, end: nat, n: nat, start: nat)
    requires WellFormed(h) && 1 <= level && start < n <= end <= |h.boundaries|
    requires Opt(h, level - 1, start).Some?
    ensures Scan(h, level, end, n).Some?
    ensures Scan(h, level, end, n).value.0
            <= Opt(h, level - 1, start).value + Group(h, start, end)
  {
    if start < n - 1 {
      ScanBound(h, level, end, n - 1, start);
    }
  }

  /** No cut is cheaper than the recurrence says. */
  lemma {:induction false} OptIsLower(h: Histogram, level: nat, end: nat, cuts: seq<nat>)
    requires WellFormed(h) && end <= |h.boundaries| && IsCut(level, end, cuts)
    ensures Opt(h, level, end).Some? && Opt(h, level, end).value <= CutCost(h, end, cuts)
    decreases level
  {
    if level > 0 {
      OptIsLower(h, level - 1, LastStart(cuts), cuts[..level - 1]);
      ScanBound(h, level, end, end, LastStart(cuts));
    }
  }

  /** The back pointers spell out a cut that costs exactly that. */
  lemma {:induction false} TraceAttains(h: Histogram, level: nat, end: nat)
    requires WellFormed(h) && end <= |h.boundaries| && Opt(h, level, end).Some?
    ensures IsCut(level, end, Trace(h, level, end))
    ensures CutCost(h, end, Trace(h, level, end)) == Opt(h, level, end).value
    decreases level
  {
    if level > 0 {
      ScanIsFinite(h, level, end, end);
      var start := Scan(h, level, end, end).value.1;
      TraceAttains(h, level - 1, start);
      TraceEnd(h, level - 1, start);
      var cuts := Trace(h, level, end);
      assert cuts[..level - 1] == Trace(h, level - 1, start);
    }
  }

  lemma TraceEnd(h: Histogram, level: nat, end: nat)
    requires WellFormed(h) && end <= |h.boundaries| && Opt(h, level, end).Some?
    ensures if level == 0 then end == 0 else Trace(h, level, end)[level - 1] == end
  {}

  /** Exactly the numbers of groups that fit have a cut. */
  lemma {:induction false} OptExists(h: Histogram, level: nat, end: nat)
    requires WellFormed(h) && end <= |h.boundaries|
    ensures Opt(h, level, end).Some? <==> (if level == 0 then end == 0 else level <= end)
    decreases level
  {
    if Opt(h, level, end).Some? {
      TraceAttains(h, level, end);
      CutNeedsRoom(level, end, Trace(h, level, end));
    }
    if 1 <= level <= end {
      OptExists(h, level - 1, if level == 1 then 0 else level - 1);
      ScanBound(h, level, end, end, level - 1);
    }
  }

  /** True optimum: the value is the least hole over all cuts into `level` groups, and the
      traced cut attains it. */
  lemma OptIsMinimum(h: Histogram, level: nat, cuts: seq<nat>)
    requires WellFormed(h) && 1 <= level <= |h.boundaries|
    requires IsCut(level, |h.boundaries|, cuts)
    ensures var n := |h.boundaries|;
      && Opt(h, level, n).Some? && IsCut(level, n, Trace(h, level, n))
      && CutCost(h, n, Trace(h, level, n)) == Opt(h, level, n).value <= CutCost(h, n, cuts)
  {
    OptIsLower(h, level, |h.boundaries|, cuts);
    TraceAttains(h, level, |h.boundaries|);
  }

  // ---------------------------------------------------------------- more classes help

  predicate Nonnegative(h: Histogram) {
    forall i | 0 <= i < |h.counts| :: h.counts[i] >= 0.0
  }

  predicate Nondecreasing(s: seq<int>) {
    forall i, j | 0 <= i < j < |s| :: s[i] <= s[j]
  }

  lemma MulMono(a: int, b: int, x: real)
    requires a <= b && x >= 0.0
    ensures a as real * x <= b as real * x
  {}

  lemma {:induction false} RoundLower(h: Histogram, start: nat, end: nat, a: int, b: int)
    requires WellFormed(h) && end <= |h.boundaries| && Nonnegative(h) && a <= b
    ensures Rounded(h, start, end, a) <= Rounded(h, start, end, b)
    decreases end
  {
    if start < end {
      RoundLower(h, start, end - 1, a, b);
      MulMono(a, b, h.counts[end - 1]);
    }
  }

  lemma CutSnoc(h: Histogram, init: seq<nat>, start: nat, end: nat)
    requires WellFormed(h) && start < end <= |h.boundaries| && IsCut(|init|, start, init)
    ensures IsCut(|init| + 1, end, init + [end])
    ensures CutCost(h, end, init + [end]) == CutCost(h, start, init) + Group(h, start, end)
  {
    assert (init + [end])[..|init|] == init;
  }

  /** Splitting off the last bucket of a group never costs more. */
  lemma SplitGroup(h: Histogram, start: nat, end: nat)
    requires WellFormed(h) && Nonnegative(h) && Nondecreasing(h.boundaries)
    requires start + 1 < end <= |h.boundaries|
    ensures Group(h, start, end - 1) + Group(h, end - 1, end) <= Group(h, start, end)
  {
    hide Term;
    var upper := h.boundaries[end - 1];
    RoundLower(h, start, end - 1, h.boundaries[end - 2], upper);
    var last := Term(h, end - 1, upper);
    assert Rounded(h, end - 1, end - 1, upper) == 0.0;
    assert Rounded(h, start, end, upper) == Rounded(h, start, end - 1, upper) + last;
    assert Rounded(h, end - 1, end, upper) == last;
  }

  /** Any cut with room has a finer one that is no worse. */
  lemma {:induction false} Refine(h: Histogram, end: nat, cuts: seq<nat>)
    returns (finer: seq<nat>)
    requires WellFormed(h) && Nonnegative(h) && Nondecreasing(h.boundaries)
    requires end <= |h.boundaries| && IsCut(|cuts|, end, cuts) && 1 <= |cuts| < end
    ensures IsCut(|cuts| + 1, end, finer) && |finer| == |cuts| + 1
    ensures CutCost(h, end, finer) <= CutCost(h, end, cuts)
    decreases |cuts|
  {
    hide Group, Rounded, Nonnegative, Nondecreasing;
    var n := |cuts| - 1;
    var start, init := LastStart(cuts), cuts[..n];
    if start < end - 1 {
      CutSnoc(h, init, start, end - 1);
      CutSnoc(h, init + [end - 1], end - 1, end);
      SplitGroup(h, start, end);
      finer := init + [end - 1] + [end];
    } else {
      var more := Refine(h, start, init);
      CutSnoc(h, more, start, end);
      finer := more + [end];
    }
  }

  /** One more class never costs more, when counts are nonnegative and the boundaries go
      up. */
  lemma MoreClassesHelp(h: Histogram, level: nat)
    requires WellFormed(h) && Nonnegative(h) && Nondecreasing(h.boundaries)
    requires 1 <= level < |h.boundaries|
    ensures var n := |h.boundaries|;
      && Opt(h, level, n).Some? && Opt(h, level + 1, n).Some?
      && Opt(h, level + 1, n).value <= Opt(h, level, n).value
  {
    var n := |h.boundaries|;
    OptExists(h, level, n);
    TraceAttains(h, level, n);
    var finer := Refine(h, n, Trace(h, level, n));
    OptIsLower(h, level + 1, n, finer);
  }

  // ------------------------------------------------------------------- the algorithm

  datatype OptimizeError = LengthsDiffer | NoBucketCountFits

  datatype Rule = Rule(cost: real, classes: seq<int>)

  /** prefix[i] is the sum of the first i values. */
  function Sum(values: seq<real>, i: nat): real
    requires i <= |values|
  {
    if i == 0 then 0.0 else Sum(values, i - 1) + values[i - 1]
  }

  method PrefixSums(values: seq<real>) returns (prefix: seq<real>)
    ensures |prefix| == |values| + 1
    ensures forall i | 0 <= i < |prefix| :: prefix[i] == Sum(values, i)
  {
    prefix := [0.0];
    for i := 0 to |values|
      invariant |prefix| == i + 1
      invariant forall j | 0 <= j < |prefix| :: prefix[j] == Sum(values, j)
    {
      prefix := prefix + [prefix[i] + values[i]];
    }
  }

  /** _group_cost: the prefix sums give the hole of a group. */
  lemma {:induction false} PrefixIsRounded(h: Histogram, start: nat, end: nat, upper: int)
    requires WellFormed(h) && start <= end <= |h.boundaries|
    ensures upper as real * (Sum(h.counts, end) - Sum(h.counts, start))
              - (Sum(h.requested, end) - Sum(h.requested, start))
            == Rounded(h, start, end, upper)
    decreases end
  {
    if start < end {
      PrefixIsRounded(h, start, end - 1, upper);
      Distribute(upper as real, Sum(h.counts, end - 1) - Sum(h.counts, start),
                 h.counts[end - 1]);
    }
  }

  lemma Distribute(a: real, x: real, y: real)
    ensures a * (x + y) == a * x + a * y
  {}

  function GroupCost(h: Histogram, start: nat, end: nat, counts: seq<real>, requested: seq<real>)
    : (cost: real)
    requires WellFormed(h) && start < end <= |h.boundaries|
    requires |counts| == |requested| == |h.boundaries| + 1
    requires forall i | 0 <= i < |counts| :: counts[i] == Sum(h.counts, i)
    requires forall i | 0 <= i < |counts| :: requested[i] == Sum(h.requested, i)
    ensures cost == Group(h, start, end)
  {
    PrefixIsRounded(h, start, end, h.boundaries[end - 1]);
    h.boundaries[end - 1] as real * (counts[end] - counts[start])
      - (requested[end] - requested[start])
  }

  /** A column of the table: the best cost for each end. */
  ghost predicate Column(h: Histogram, level: nat, column: seq<Option<real>>)
    requires WellFormed(h)
  {
    && |column| == |h.boundaries| + 1
    && forall end | 0 <= end <= |h.boundaries| :: column[end] == Opt(h, level, end)
  }

  /** A back pointer: the start of the last group, or -1. */
  predicate Pointer(h: Histogram, level: nat, end: nat, start: int)
    requires WellFormed(h) && 1 <= level && end <= |h.boundaries|
  {
    match Scan(h, level, end, end)
    case None => start == -1
    case Some(r) => start == r.1
  }

  /** Starts too small to hold level - 1 groups have no prefix cost. */
  lemma {:induction false} NoShortPrefix(h: Histogram, level: nat, end: nat, n: nat)
    requires WellFormed(h) && 1 <= level && n <= end <= |h.boundaries| && n < level
    ensures Scan(h, level, end, n).None?
  {
    if n > 0 {
      NoShortPrefix(h, level, end, n - 1);
      OptExists(h, level - 1, n - 1);
    }
  }

  method BestStart(
    h: Histogram, level: nat, end: nat, previous: seq<Option<real>>,
    counts: seq<real>, requested: seq<real>)
    returns (cost: Option<real>, start: int)
    requires WellFormed(h) && 1 <= level <= end <= |h.boundaries|
    requires |counts| == |requested| == |h.boundaries| + 1
    requires forall i | 0 <= i < |counts| :: counts[i] == Sum(h.counts, i)
    requires forall i | 0 <= i < |counts| :: requested[i] == Sum(h.requested, i)
    requires Column(h, level - 1, previous)
    ensures cost == Opt(h, level, end) && Pointer(h, level, end, start)
  {
    hide Group;
    cost, start := None, -1;
    NoShortPrefix(h, level, end, level - 1);
    for n := level - 1 to end
      invariant match Scan(h, level, end, n)
        case None => cost.None? && start == -1
        case Some(r) => cost == Some(r.0) && start == r.1
    {
      if previous[n].Some? {
        var candidate := previous[n].value + GroupCost(h, n, end, counts, requested);
        if cost.None? || candidate < cost.value {
          cost, start := Some(candidate), n;
        }
      }
    }
  }

  /** One turn of the outer loop: a new column of costs and a row of back pointers. */
  method FillLevel(
    h: Histogram, level: nat, previous: array<Option<real>>, back: array2<int>,
    counts: seq<real>, requested: seq<real>)
    returns (current: array<Option<real>>)
    requires WellFormed(h) && 1 <= level < back.Length0 && back.Length1 == |h.boundaries| + 1
    requires |counts| == |requested| == |h.boundaries| + 1
    requires forall i | 0 <= i < |counts| :: counts[i] == Sum(h.counts, i)
    requires forall i | 0 <= i < |counts| :: requested[i] == Sum(h.requested, i)
    requires Column(h, level - 1, previous[..])
    requires forall end | 0 <= end < back.Length1 :: back[level, end] == -1
    modifies back
    ensures fresh(current) && Column(h, level, current[..])
    ensures forall end | 0 <= end < back.Length1 :: Pointer(h, level, end, back[level, end])
    ensures forall l, e | 0 <= l < back.Length0 && 0 <= e < back.Length1 && l != level ::
      back[l, e] == old(back[l, e])
  {
    hide Opt, Scan;
    var size := |h.boundaries|;
    current := new Option<real>[size + 1](_ => None);
    for end := 0 to size + 1
      invariant fresh(current) && current.Length == size + 1
      invariant forall e | 0 <= e < end :: current[e] == Opt(h, level, e)
      invariant forall e | end <= e <= size :: current[e] == None
      invariant forall e | 0 <= e < end :: Pointer(h, level, e, back[level, e])
      invariant forall e | end <= e <= size :: back[level, e] == -1
      invariant forall l, e | 0 <= l < back.Length0 && 0 <= e <= size && l != level ::
        back[l, e] == old(back[l, e])
    {
      if end < level {
        TooShort(h, level, end);
      } else {
        var cost, start := BestStart(h, level, end, previous[..], counts, requested);
        current[end] := cost;
        back[level, end] := start;
      }
    }
  }

  lemma TooShort(h: Histogram, level: nat, end: nat)
    requires WellFormed(h) && 1 <= level && end <= |h.boundaries| && end < level
    ensures Opt(h, level, end).None? && Pointer(h, level, end, -1)
  {
    NoShortPrefix(h, level, end, end);
  }

  /** The rule the back pointers spell out. */
  function RuleOf(h: Histogram, cuts: seq<nat>): (rule: seq<int>)
    requires WellFormed(h) && forall k | 0 <= k < |cuts| :: 1 <= cuts[k] <= |h.boundaries|
    ensures |rule| == |cuts|
    ensures forall k | 0 <= k < |cuts| :: rule[k] == h.boundaries[cuts[k] - 1]
  {
    if cuts == [] then []
    else
      var n := |cuts| - 1;
      RuleOf(h, cuts[..n]) + [h.boundaries[cuts[n] - 1]]
  }

  lemma {:induction false} CutBounds(level: nat, end: nat, cuts: seq<nat>)
    requires IsCut(level, end, cuts)
    ensures |cuts| == level && forall k | 0 <= k < level :: 1 <= cuts[k] <= end
    ensures forall j, k | 0 <= j < k < level :: cuts[j] < cuts[k]
    decreases level
  {
    if level > 0 {
      CutBounds(level - 1, LastStart(cuts), cuts[..level - 1]);
      assert forall k | 0 <= k < level - 1 :: cuts[..level - 1][k] == cuts[k];
    }
  }

  function Reversed(s: seq<int>): seq<int> {
    if s == [] then [] else Reversed(s[1..]) + [s[0]]
  }

  lemma {:induction false} ReversedSnoc(s: seq<int>, x: int)
    ensures Reversed(s + [x]) == [x] + Reversed(s)
  {
    if s != [] {
      assert (s + [x])[1..] == s[1..] + [x];
      ReversedSnoc(s[1..], x);
    }
  }

  method Reverse(s: seq<int>) returns (r: seq<int>)
    ensures r == Reversed(s)
  {
    r := [];
    for i := 0 to |s|
      invariant r == Reversed(s[..i])
    {
      assert s[..i + 1] == s[..i] + [s[i]];
      ReversedSnoc(s[..i], s[i]);
      r := [s[i]] + r;
    }
    assert s[..|s|] == s;
  }

  /** The rule for `level` classes over the whole histogram. */
  function BestRule(h: Histogram, level: nat, end: nat): (rule: seq<int>)
    requires WellFormed(h) && end <= |h.boundaries| && Opt(h, level, end).Some?
  {
    TraceAttains(h, level, end);
    CutBounds(level, end, Trace(h, level, end));
    RuleOf(h, Trace(h, level, end))
  }

  lemma RuleOfSnoc(h: Histogram, cuts: seq<nat>, end: nat)
    requires WellFormed(h) && 1 <= end <= |h.boundaries|
    requires forall k | 0 <= k < |cuts| :: 1 <= cuts[k] <= |h.boundaries|
    ensures RuleOf(h, cuts + [end]) == RuleOf(h, cuts) + [h.boundaries[end - 1]]
  {
    assert (cuts + [end])[..|cuts|] == cuts;
  }

  lemma PointerIsStart(h: Histogram, level: nat, end: nat, start: int)
    requires WellFormed(h) && 1 <= level <= end <= |h.boundaries|
    requires Pointer(h, level, end, start) && Opt(h, level, end).Some?
    ensures 0 <= start < end && Opt(h, level - 1, start).Some?
    ensures Trace(h, level, end) == Trace(h, level - 1, start) + [end]
  {
    ScanIsFinite(h, level, end, end);
  }

  lemma BestRuleStep(h: Histogram, level: nat, end: nat, start: int)
    requires WellFormed(h) && 1 <= level <= end <= |h.boundaries|
    requires Pointer(h, level, end, start) && Opt(h, level, end).Some?
    ensures 0 <= start < end && Opt(h, level - 1, start).Some?
    ensures BestRule(h, level, end)
            == BestRule(h, level - 1, start) + [h.boundaries[end - 1]]
    ensures level - 1 <= start
  {
    hide Opt, Scan, Trace, IsCut, CutCost, Pointer, RuleOf;
    PointerIsStart(h, level, end, start);
    TraceAttains(h, level - 1, start);
    CutNeedsRoom(level - 1, start, Trace(h, level - 1, start));
    CutBounds(level - 1, start, Trace(h, level - 1, start));
    RuleOfSnoc(h, Trace(h, level - 1, start), end);
  }

  /** The reconstruction loop; a missing back pointer cannot happen. */
  method Reconstruct(h: Histogram, bucketCount: nat, back: array2<int>)
    returns (selected: seq<int>)
    requires WellFormed(h) && 1 <= bucketCount <= |h.boundaries|
    requires bucketCount < back.Length0 && back.Length1 == |h.boundaries| + 1
    requires forall l, e | 1 <= l <= bucketCount && 0 <= e < back.Length1 ::
      Pointer(h, l, e, back[l, e])
    requires Opt(h, bucketCount, |h.boundaries|).Some?
    ensures selected == BestRule(h, bucketCount, |h.boundaries|)
  {
    hide Opt, Scan, Pointer, BestRule;
    var end: nat := |h.boundaries|;
    selected := [];
    var level := bucketCount;
    while level > 0
      invariant 0 <= level <= bucketCount && end <= |h.boundaries| && level <= end
      invariant Opt(h, level, end).Some?
      invariant BestRule(h, bucketCount, |h.boundaries|)
                == BestRule(h, level, end) + Reversed(selected)
    {
      var start := back[level, end];
      BestRuleStep(h, level, end, start);
      ReversedSnoc(selected, h.boundaries[end - 1]);
      selected := selected + [h.boundaries[end - 1]];
      end := start;
      level := level - 1;
    }
    NoGroups(h, end);
    selected := Reverse(selected);
  }

  lemma NoGroups(h: Histogram, end: nat)
    requires WellFormed(h) && end <= |h.boundaries| && Opt(h, 0, end).Some?
    ensures BestRule(h, 0, end) == []
  {}

  /** `rule` is the exact optimum for `level` classes. */
  ghost predicate Optimum(h: Histogram, level: nat, rule: Rule)
    requires WellFormed(h) && 1 <= level <= |h.boundaries|
  {
    && Opt(h, level, |h.boundaries|) == Some(rule.cost)
    && rule.classes == BestRule(h, level, |h.boundaries|)
  }

  method Maximum(wanted: set<nat>) returns (m: nat)
    requires wanted != {}
    ensures m in wanted && forall k | k in wanted :: k <= m
  {
    m :| m in wanted;
    var rest := wanted - {m};
    while rest != {}
      invariant rest <= wanted && m in wanted
      invariant forall k | k in wanted && k !in rest :: k <= m
    {
      var k :| k in rest;
      rest := rest - {k};
      if k > m {
        m := k;
      }
    }
  }

  function Wanted(size: nat, bucketCounts: seq<int>): set<nat> {
    set k | k in bucketCounts && 1 <= k <= size
  }

  /** Every requested number of classes that fits gets its exact optimum. */
  method OptimizeClasses(h: Histogram, bucketCounts: seq<int>)
    returns (r: Result<map<nat, Rule>, OptimizeError>)
    ensures r == Failure(LengthsDiffer) <==> !WellFormed(h)
    ensures r == Failure(NoBucketCountFits) <==>
      WellFormed(h) && Wanted(|h.boundaries|, bucketCounts) == {}
    ensures r.Success? ==>
      && r.value.Keys == Wanted(|h.boundaries|, bucketCounts)
      && forall k | k in r.value :: Optimum(h, k, r.value[k])
  {
    hide Opt, Scan, Pointer, BestRule;
    if !(|h.counts| == |h.boundaries| && |h.requested| == |h.boundaries|) {
      return Failure(LengthsDiffer);
    }
    var size := |h.boundaries|;
    var wanted := Wanted(size, bucketCounts);
    if wanted == {} {
      return Failure(NoBucketCountFits);
    }
    var counts := PrefixSums(h.counts);
    var requested := PrefixSums(h.requested);
    var maximum := Maximum(wanted);
    var previous := new Option<real>[size + 1](_ => None);
    previous[0] := Some(0.0);
    LevelZero(h, previous[..]);
    var back := new int[maximum + 1, size + 1]((_, _) => -1);
    var costs: map<nat, real> := map[];
    for level := 1 to maximum + 1
      invariant fresh(previous) && fresh(back) && Column(h, level - 1, previous[..])
      invariant forall l, e | 1 <= l < level && 0 <= e <= size :: Pointer(h, l, e, back[l, e])
      invariant forall l, e | level <= l <= maximum && 0 <= e <= size :: back[l, e] == -1
      invariant forall k | k in wanted && k < level ::
        k in costs && Opt(h, k, size) == Some(costs[k])
    {
      previous := FillLevel(h, level, previous, back, counts, requested);
      if level in wanted {
        OptExists(h, level, size);
        assert previous[..][size] == previous[size];
        costs := costs[level := previous[size].value];
      }
    }
    var result: map<nat, Rule> := map[];
    var rest := wanted;
    while rest != {}
      invariant rest <= wanted && result.Keys == wanted - rest
      invariant forall l, e | 1 <= l <= maximum && 0 <= e <= size :: Pointer(h, l, e, back[l, e])
      invariant forall k | k in result :: Optimum(h, k, result[k])
    {
      var k :| k in rest;
      assert k <= maximum && Opt(h, k, size) == Some(costs[k]);
      var selected := Reconstruct(h, k, back);
      result := result[k := Rule(costs[k], selected)];
      rest := rest - {k};
    }
    return Success(result);
  }

  lemma LevelZero(h: Histogram, column: seq<Option<real>>)
    requires WellFormed(h) && |column| == |h.boundaries| + 1 && column[0] == Some(0.0)
    requires forall i | 1 <= i < |column| :: column[i] == None
    ensures Column(h, 0, column)
  {}

  // ----------------------------------------------------------------- against the rules

  /** The explicit part of a live histogram: its first n buckets. */
  function Explicit(d: S.Dataset, n: nat): Histogram
    requires S.WellFormed(d) && n <= |d.classes|
  {
    Histogram(d.classes[..n], d.counts[..n], d.requested[..n])
  }

  /** Hole of the first n buckets when each rounds up to the least class that holds it. */
  function ExplicitHole(d: S.Dataset, rule: seq<int>, n: nat): real
    requires S.WellFormed(d) && B.Increasing(rule) && n <= |d.classes|
    requires n > 0 ==> rule != [] && d.classes[n - 1] <= rule[|rule| - 1]
  {
    if n == 0 then 0.0
    else
      ExplicitHole(d, rule, n - 1)
        + S.ClassHole(d, n - 1, rule[S.BisectLeft(rule, d.classes[n - 1])])
  }

  /** evaluate_rule, None for the rule it rejects: a cursor walks the classes once. */
  method EvaluateRule(d: S.Dataset, rule: seq<int>, cutoff: int) returns (hole: Option<real>)
    requires S.WellFormed(d) && B.Increasing(rule)
    ensures hole.Some? <==> rule != [] && rule[|rule| - 1] == cutoff
    ensures hole.Some? ==>
      var n := S.BisectRight(d.classes, cutoff);
      hole.value == ExplicitHole(d, rule, n) + S.Tail(d, n, |d.classes| + 1)
  {
    hide S.ClassHole;
    var explicitCount := S.BisectRight(d.classes, cutoff);
    if rule == [] || rule[|rule| - 1] != cutoff {
      return None;
    }
    var sum := 0.0;
    var classIndex := 0;
    for index := 0 to explicitCount
      invariant 0 <= classIndex < |rule|
      invariant forall c | 0 <= c < classIndex :: index > 0 && rule[c] < d.classes[index - 1]
      invariant sum == ExplicitHole(d, rule, index)
    {
      var upper := d.classes[index];
      while rule[classIndex] < upper
        invariant 0 <= classIndex < |rule|
        invariant forall c | 0 <= c < classIndex :: rule[c] < upper
      {
        classIndex := classIndex + 1;
      }
      S.BisectLeftIs(rule, upper, classIndex);
      sum := sum + S.ClassHole(d, index, rule[classIndex]);
    }
    var tail := S.TailHole(d, explicitCount);
    return Some(sum + tail);
  }

  lemma SameTerm(d: S.Dataset, m: nat, i: nat, upper: int)
    requires S.WellFormed(d) && i < m <= |d.classes|
    ensures Term(Explicit(d, m), i, upper) == S.ClassHole(d, i, upper)
  {}

  /** The first bucket end after a group is the first beyond its class. */
  lemma InGroup(d: S.Dataset, rule: seq<int>, start: nat, end: nat, k: nat, i: nat)
    requires S.WellFormed(d) && B.Increasing(rule) && k < |rule|
    requires start <= i < end <= |d.classes| && rule[k] == d.classes[end - 1]
    requires k > 0 ==> start > 0 && rule[k - 1] == d.classes[start - 1]
    ensures S.BisectLeft(rule, d.classes[i]) == k
  {}

  /** The rule's last class is the last explicit boundary. */
  predicate Covers(d: S.Dataset, rule: seq<int>, m: nat)
    requires S.WellFormed(d) && 1 <= m <= |d.classes|
  {
    && rule != [] && rule[|rule| - 1] == d.classes[m - 1]
    && forall i | 0 <= i < m :: d.classes[i] <= rule[|rule| - 1]
  }

  /** The buckets of the k-th group round up to the k-th class. */
  lemma {:induction false} GroupRounds(
    d: S.Dataset, rule: seq<int>, m: nat, start: nat, end: nat, k: nat, n: nat)
    requires S.WellFormed(d) && B.Increasing(rule) && k < |rule| && 1 <= m <= |d.classes|
    requires Covers(d, rule, m)
    requires start <= n <= end <= m && start < end && rule[k] == d.classes[end - 1]
    requires k > 0 ==> start > 0 && rule[k - 1] == d.classes[start - 1]
    ensures ExplicitHole(d, rule, n)
            == ExplicitHole(d, rule, start) + Rounded(Explicit(d, m), start, n, rule[k])
    decreases n
  {
    hide S.ClassHole, Term, B.Increasing;
    if start < n {
      GroupRounds(d, rule, m, start, end, k, n - 1);
      InGroup(d, rule, start, end, k, n - 1);
      SameTerm(d, m, n - 1, rule[k]);
    }
  }

  predicate Names(d: S.Dataset, m: nat, rule: seq<int>, cuts: seq<nat>, k: nat)
    requires m <= |d.classes| && k < |cuts|
  {
    1 <= cuts[k] <= m && k < |rule| && rule[k] == d.classes[cuts[k] - 1]
  }

  /** The rule of a cut costs what the cut costs. */
  lemma {:induction false} CutIsRule(
    d: S.Dataset, rule: seq<int>, m: nat, end: nat, cuts: seq<nat>)
    requires S.WellFormed(d) && B.Increasing(rule) && 1 <= m <= |d.classes| && end <= m
    requires Covers(d, rule, m) && IsCut(|cuts|, end, cuts)
    requires forall k | 0 <= k < |cuts| :: Names(d, m, rule, cuts, k)
    ensures ExplicitHole(d, rule, end) == CutCost(Explicit(d, m), end, cuts)
    decreases |cuts|
  {
    hide S.ClassHole, B.Increasing, ExplicitHole, Rounded;
    if cuts == [] {
      NoBuckets(d, rule);
    } else {
      var n := |cuts| - 1;
      var start, init := LastStart(cuts), cuts[..n];
      CutNeedsRoom(n, start, init);
      assert Names(d, m, rule, cuts, n);
      forall k | 0 <= k < n ensures Names(d, m, rule, init, k) {
        assert Names(d, m, rule, cuts, k);
      }
      assert n > 0 ==> Names(d, m, rule, cuts, n - 1) && cuts[n - 1] == start;
      CutIsRule(d, rule, m, start, init);
      GroupRounds(d, rule, m, start, end, n, end);
    }
  }

  lemma NoBuckets(d: S.Dataset, rule: seq<int>)
    requires S.WellFormed(d) && B.Increasing(rule)
    ensures ExplicitHole(d, rule, 0) == 0.0
  {}

  /** The rule of a cut goes up and covers every bucket. */
  lemma CutRuleCovers(d: S.Dataset, m: nat, rule: seq<int>, cuts: seq<nat>)
    requires S.WellFormed(d) && 1 <= m <= |d.classes| && |rule| == |cuts|
    requires IsCut(|cuts|, m, cuts)
    requires forall k | 0 <= k < |cuts| :: Names(d, m, rule, cuts, k)
    ensures B.Increasing(rule) && Covers(d, rule, m)
  {
    CutBounds(|cuts|, m, cuts);
    forall j, k | 0 <= j < k < |rule| ensures rule[j] < rule[k] {
      assert Names(d, m, rule, cuts, j) && Names(d, m, rule, cuts, k);
      assert cuts[j] < cuts[k];
    }
    assert Names(d, m, rule, cuts, |cuts| - 1);
    forall i | 0 <= i < m ensures d.classes[i] <= rule[|rule| - 1] {
      assert i < m - 1 ==> d.classes[i] < d.classes[m - 1];
    }
  }

  lemma OptimumIsRule(d: S.Dataset, m: nat, level: nat, rule: Rule) returns (cuts: seq<nat>)
    requires S.WellFormed(d) && 1 <= level <= m <= |d.classes|
    requires Optimum(Explicit(d, m), level, rule)
    ensures IsCut(level, m, cuts) && |cuts| == |rule.classes| == level
    ensures CutCost(Explicit(d, m), m, cuts) == rule.cost
    ensures forall k | 0 <= k < level :: Names(d, m, rule.classes, cuts, k)
  {
    hide IsCut, CutCost, B.Increasing, Opt, Scan, Trace;
    var h := Explicit(d, m);
    TraceAttains(h, level, m);
    cuts := Trace(h, level, m);
    CutBounds(level, m, cuts);
    assert rule.classes == RuleOf(h, cuts);
    forall k | 0 <= k < level ensures Names(d, m, rule.classes, cuts, k) {
      assert rule.classes[k] == h.boundaries[cuts[k] - 1];
    }
  }

  /** The optimiser's value for the explicit part is the hole evaluate_rule reports for the
      rule it returns, less the tail. */
  lemma ValueIsEvaluation(d: S.Dataset, m: nat, level: nat, rule: Rule)
    requires S.WellFormed(d) && 1 <= level <= m <= |d.classes|
    requires Optimum(Explicit(d, m), level, rule)
    ensures B.Increasing(rule.classes) && |rule.classes| == level
    ensures rule.classes[level - 1] == d.classes[m - 1]
    ensures S.BisectRight(d.classes, d.classes[m - 1]) == m
    ensures rule.cost == ExplicitHole(d, rule.classes, m)
  {
    hide Optimum, IsCut, CutCost, ExplicitHole;
    var cuts := OptimumIsRule(d, m, level, rule);
    CutRuleCovers(d, m, rule.classes, cuts);
    S.BisectEnd(d.classes, m - 1);
    CutIsRule(d, rule.classes, m, m, cuts);
  }

  /** A rule with classes among the boundaries, increasing up to the last explicit one. */
  predicate IsRule(d: S.Dataset, m: nat, rule: seq<int>)
    requires S.WellFormed(d) && 1 <= m <= |d.classes|
  {
    && B.Increasing(rule) && rule != [] && rule[|rule| - 1] == d.classes[m - 1]
    && forall k | 0 <= k < |rule| :: rule[k] in d.classes
  }

  /** Without its last class a rule is one up to an earlier boundary. */
  lemma ShorterRule(d: S.Dataset, m: nat, rule: seq<int>) returns (start: nat)
    requires S.WellFormed(d) && 1 <= m <= |d.classes| && IsRule(d, m, rule) && |rule| > 1
    ensures 1 <= start < m && IsRule(d, start, rule[..|rule| - 1])
  {
    var i :| 0 <= i < |d.classes| && d.classes[i] == rule[|rule| - 2];
    assert rule[|rule| - 2] < rule[|rule| - 1];
    start := i + 1;
  }

  /** Every rule over the boundaries is the rule of a cut. */
  lemma {:induction false} RuleIsCut(d: S.Dataset, m: nat, rule: seq<int>)
    returns (cuts: seq<nat>)
    requires S.WellFormed(d) && 1 <= m <= |d.classes| && IsRule(d, m, rule)
    ensures |cuts| == |rule| && IsCut(|rule|, m, cuts)
    ensures forall k | 0 <= k < |rule| :: Names(d, m, rule, cuts, k)
    decreases |rule|
  {
    var n := |rule| - 1;
    if n == 0 {
      cuts := [m];
      assert IsCut(0, 0, []) && cuts[..0] == [];
    } else {
      var start := ShorterRule(d, m, rule);
      hide IsCut, CutCost, S.WellFormed;
      var before := RuleIsCut(d, start, rule[..n]);
      cuts := before + [m];
      CutSnoc(Explicit(d, m), before, start, m);
      forall k | 0 <= k < |rule| ensures Names(d, m, rule, cuts, k) {
        assert k < n ==> Names(d, start, rule[..n], before, k);
      }
    }
  }

  /** The optimiser's rule is a rule over the boundaries, and none with as many classes has a
      smaller hole. */
  lemma RuleIsOptimal(d: S.Dataset, m: nat, level: nat, best: Rule, rule: seq<int>)
    requires S.WellFormed(d) && 1 <= level <= m <= |d.classes|
    requires Optimum(Explicit(d, m), level, best)
    requires IsRule(d, m, rule) && |rule| == level
    ensures IsRule(d, m, best.classes) && |best.classes| == level
    ensures Covers(d, rule, m) && Covers(d, best.classes, m)
    ensures ExplicitHole(d, best.classes, m) == best.cost <= ExplicitHole(d, rule, m)
  {
    hide CutCost, ExplicitHole, IsCut;
    var cuts := OptimumIsRule(d, m, level, best);
    CutRuleCovers(d, m, best.classes, cuts);
    CutIsRule(d, best.classes, m, m, cuts);
    forall k | 0 <= k < level ensures best.classes[k] in d.classes {
      assert Names(d, m, best.classes, cuts, k);
    }
    assert Names(d, m, best.classes, cuts, level - 1);
    var other := RuleIsCut(d, m, rule);
    CutRuleCovers(d, m, rule, other);
    CutIsRule(d, rule, m, m, other);
    OptIsMinimum(Explicit(d, m), level, other);
  }

  /** A number of classes for which there is a rule is one for which there is an optimum. */
  lemma RuleFits(d: S.Dataset, m: nat, rule: seq<int>)
    requires S.WellFormed(d) && 1 <= m <= |d.classes| && IsRule(d, m, rule)
    ensures Opt(Explicit(d, m), |rule|, m).Some? && |rule| <= m
  {
    var cuts := RuleIsCut(d, m, rule);
    CutNeedsRoom(|rule|, m, cuts);
    OptExists(Explicit(d, m), |rule|, m);
  }
}
