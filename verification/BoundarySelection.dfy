/** select_boundaries of optimize_dfmalloc2_buckets.py: the cheapest way to cut a range into
    exactly K groups whose every step is legal, ties broken by the smaller list. Costs are
    exact reals. The reference is the set of all index-increasing routes through the
    candidates; nothing is assumed about their order. */
module BoundarySelection {
  import opened Wrappers

  const LARGE_STEP_START: int := 1280
  const MIN_SMALL_STEP: int := 8
  const MIN_LARGE_STEP: int := 256
  const STEP_QUANTUM: int := 8
  const MIN_RELATIVE_STEP_PERCENT: int := 8

  datatype SelectError = EndMissing | CountOutOfRange | NoLegalRule

  datatype Choice = Choice(cost: real, path: seq<int>)

  datatype Problem = Problem(values: seq<int>, start: int, end: int, cost: (int, int) -> real)

  predicate ValidStep(lower: int, upper: int) {
    var step := upper - lower;
    var minimum := if upper > LARGE_STEP_START then MIN_LARGE_STEP else MIN_SMALL_STEP;
    && step >= minimum
    && step % STEP_QUANTUM == 0
    && step * 100 > upper * MIN_RELATIVE_STEP_PERCENT
  }

  lemma StepsGoUp(lower: int, upper: int)
    requires ValidStep(lower, upper)
    ensures lower < upper
  {}

  // ------------------------------------------------------------- order on (cost, path)

  /** Python's order on lists. */
  predicate Less(p: seq<int>, q: seq<int>) {
    q != [] && (p == [] || p[0] < q[0] || (p[0] == q[0] && Less(p[1..], q[1..])))
  }

  predicate Better(a: Choice, b: Choice) {
    a.cost < b.cost || (a.cost == b.cost && Less(a.path, b.path))
  }

  predicate AtLeast(a: Choice, b: Choice) {
    a == b || Better(a, b)
  }

  lemma {:induction false} LessTrans(p: seq<int>, q: seq<int>, r: seq<int>)
    requires Less(p, q) && Less(q, r)
    ensures Less(p, r)
  {
    if p != [] && p[0] == q[0] == r[0] {
      LessTrans(p[1..], q[1..], r[1..]);
    }
  }

  lemma {:induction false} LessTotal(p: seq<int>, q: seq<int>)
    ensures Less(p, q) || p == q || Less(q, p)
  {
    if p != [] && q != [] && p[0] == q[0] {
      LessTotal(p[1..], q[1..]);
      assert p == [p[0]] + p[1..] && q == [q[0]] + q[1..];
    }
  }

  lemma {:induction false} LessAppend(p: seq<int>, q: seq<int>, a: seq<int>, b: seq<int>)
    requires |p| == |q| && Less(p, q)
    ensures Less(p + a, q + b)
  {
    assert (p + a)[1..] == p[1..] + a && (q + b)[1..] == q[1..] + b;
    if p[0] == q[0] {
      LessAppend(p[1..], q[1..], a, b);
    }
  }

  lemma {:induction false} LessPrefix(p: seq<int>, a: seq<int>, b: seq<int>)
    requires Less(a, b)
    ensures Less(p + a, p + b)
  {
    if p == [] {
      assert p + a == a && p + b == b;
    } else {
      assert (p + a)[1..] == p[1..] + a && (p + b)[1..] == p[1..] + b;
      LessPrefix(p[1..], a, b);
    }
  }

  lemma AtLeastTrans(a: Choice, b: Choice, c: Choice)
    requires AtLeast(a, b) && AtLeast(b, c)
    ensures AtLeast(a, c)
  {
    if a.cost == b.cost == c.cost && a != b && b != c {
      LessTrans(a.path, b.path, c.path);
    }
  }

  // ------------------------------------------------------------------------ reference

  /** The endpoint a route steps from to reach its last one. */
  function Before(p: Problem, route: seq<nat>): int
    requires route != [] && forall i | i in route :: i < |p.values|
  {
    if |route| == 1 then p.start
    else
      assert route[|route| - 2] in route;
      p.values[route[|route| - 2]]
  }

  predicate InBounds(p: Problem, route: seq<nat>) {
    forall i | i in route :: i < |p.values|
  }

  /** Index-increasing candidates, each step legal. */
  predicate Route(p: Problem, route: seq<nat>) {
    && route != [] && InBounds(p, route)
    && (|route| > 1 ==>
          && route[|route| - 2] < route[|route| - 1]
          && Route(p, route[..|route| - 1]))
    && route[|route| - 1] in route
    && ValidStep(Before(p, route), p.values[route[|route| - 1]])
  }

  function Chosen(p: Problem, route: seq<nat>): Choice
    requires Route(p, route)
  {
    var n := |route| - 1;
    var upper := p.values[route[n]];
    if n == 0 then Choice(p.cost(p.start, upper), [upper])
    else
      var init := Chosen(p, route[..n]);
      Choice(init.cost + p.cost(Before(p, route), upper), init.path + [upper])
  }

  lemma {:induction false} ChosenPath(p: Problem, route: seq<nat>)
    requires Route(p, route)
    ensures |Chosen(p, route).path| == |route|
    ensures forall k | 0 <= k < |route| ::
      route[k] < |p.values| && Chosen(p, route).path[k] == p.values[route[k]]
  {
    var n := |route| - 1;
    if n > 0 {
      ChosenPath(p, route[..n]);
    }
  }

  ghost predicate Reaches(p: Problem, route: seq<nat>, level: nat, i: nat) {
    Route(p, route) && |route| == level && route[|route| - 1] == i
  }

  /** The route's last step is from a candidate in `via` (for level one, from the start). */
  ghost predicate Via(p: Problem, route: seq<nat>, level: nat, i: nat, via: set<nat>) {
    Reaches(p, route, level, i) && (level > 1 ==> route[level - 2] in via)
  }

  /** The best choice over the routes to i whose last step is from `via`. */
  ghost predicate BestVia(
    p: Problem, level: nat, i: nat, via: set<nat>, best: Option<Choice>)
  {
    match best
    case None => forall route :: !Via(p, route, level, i, via)
    case Some(c) =>
      && (exists route :: Via(p, route, level, i, via) && Chosen(p, route) == c)
      && forall route | Via(p, route, level, i, via) :: AtLeast(c, Chosen(p, route))
  }

  function Below(n: nat): (r: set<nat>)
    ensures forall i: nat :: i in r <==> i < n
  {
    if n == 0 then {} else Below(n - 1) + {n - 1}
  }

  ghost predicate Best(p: Problem, level: nat, i: nat, best: Option<Choice>) {
    BestVia(p, level, i, Below(|p.values|), best)
  }

  lemma ViaAny(p: Problem, route: seq<nat>, level: nat, i: nat)
    requires Reaches(p, route, level, i)
    ensures Via(p, route, level, i, Below(|p.values|))
  {
    if level > 1 {
      assert route[level - 2] in route;
    }
  }

  lemma Shorter(p: Problem, route: seq<nat>, level: nat, i: nat, via: set<nat>)
    requires level >= 1 && Via(p, route, level + 1, i, via)
    ensures var j := route[level - 1];
      && j in via && j < i < |p.values| && Via(p, route[..level], level, j, Below(|p.values|))
      && ValidStep(p.values[j], p.values[i])
      && Chosen(p, route) == Extend(p, Chosen(p, route[..level]), p.values[j], p.values[i])
  {
    ViaAny(p, route[..level], level, route[level - 1]);
  }

  function Get(states: map<nat, Choice>, i: nat): Option<Choice> {
    if i in states then Some(states[i]) else None
  }

  /** The endpoint may be the last value and nothing but the last value. */
  predicate Allowed(p: Problem, classCount: nat, level: nat, i: nat)
    requires i < |p.values|
  {
    (level == classCount) == (p.values[i] == p.end)
  }

  ghost predicate LevelDone(p: Problem, classCount: nat, level: nat, states: map<nat, Choice>) {
    && (forall i | i in states :: i < |p.values|)
    && forall i | 0 <= i < |p.values| :: EntryDone(p, classCount, level, states, i)
  }

  ghost predicate EntryDone(
    p: Problem, classCount: nat, level: nat, states: map<nat, Choice>, i: nat)
    requires i < |p.values|
  {
    if Allowed(p, classCount, level, i) then Best(p, level, i, Get(states, i))
    else i !in states
  }

  // ----------------------------------------------------------------------- extension

  function Extend(p: Problem, c: Choice, lower: int, upper: int): Choice {
    Choice(c.cost + p.cost(lower, upper), c.path + [upper])
  }

  lemma ExtendKeeps(p: Problem, a: Choice, b: Choice, lower: int, upper: int)
    requires AtLeast(a, b) && |a.path| == |b.path|
    ensures AtLeast(Extend(p, a, lower, upper), Extend(p, b, lower, upper))
  {
    if a.cost == b.cost && a != b {
      LessAppend(a.path, b.path, [upper], [upper]);
    }
  }

  /** A candidate whose best choice is known offers its extension to a later one. */
  lemma ExtensionIsBest(p: Problem, level: nat, j: nat, i: nat, c: Choice)
    requires level >= 1 && j < i < |p.values| && ValidStep(p.values[j], p.values[i])
    requires Best(p, level, j, Some(c))
    ensures BestVia(p, level + 1, i, {j}, Some(Extend(p, c, p.values[j], p.values[i])))
  {
    hide ValidStep, AtLeast;
    var e := Extend(p, c, p.values[j], p.values[i]);
    var route :| Via(p, route, level, j, Below(|p.values|)) && Chosen(p, route) == c;
    var longer := route + [i];
    assert longer[..level] == route;
    assert Via(p, longer, level + 1, i, {j}) && Chosen(p, longer) == e;
    forall other | Via(p, other, level + 1, i, {j}) ensures AtLeast(e, Chosen(p, other)) {
      ExtensionWins(p, level, j, i, c, other);
    }
  }

  lemma ExtensionWins(p: Problem, level: nat, j: nat, i: nat, c: Choice, other: seq<nat>)
    requires level >= 1 && j < i < |p.values| && Best(p, level, j, Some(c))
    requires Via(p, other, level + 1, i, {j})
    ensures Route(p, other)
    ensures AtLeast(Extend(p, c, p.values[j], p.values[i]), Chosen(p, other))
  {
    hide ValidStep, AtLeast;
    var route :| Via(p, route, level, j, Below(|p.values|)) && Chosen(p, route) == c;
    var init := other[..level];
    Shorter(p, other, level, i, {j});
    ChosenPath(p, init);
    ChosenPath(p, route);
    ExtendKeeps(p, c, Chosen(p, init), p.values[j], p.values[i]);
  }

  /** A later candidate nobody can step to from j. */
  lemma NoExtension(p: Problem, level: nat, j: nat, i: nat)
    requires level >= 1 && j < |p.values| && i < |p.values|
    requires !(j < i && ValidStep(p.values[j], p.values[i])) || Best(p, level, j, None)
    ensures BestVia(p, level + 1, i, {j}, None)
  {
    var via, upper := {j}, level + 1;
    if route :| Via(p, route, upper, i, via) {
      Shorter(p, route, level, i, via);
    }
  }

  function Min(a: Option<Choice>, b: Option<Choice>): Option<Choice> {
    match (a, b)
    case (None, _) => b
    case (_, None) => a
    case (Some(x), Some(y)) => if Better(y, x) then b else a
  }

  lemma MinJoins(p: Problem, level: nat, i: nat, v: set<nat>, w: set<nat>,
                 a: Option<Choice>, b: Option<Choice>)
    requires level > 1 && BestVia(p, level, i, v, a) && BestVia(p, level, i, w, b)
    ensures BestVia(p, level, i, v + w, Min(a, b))
  {
    forall route ensures Via(p, route, level, i, v + w)
        <==> Via(p, route, level, i, v) || Via(p, route, level, i, w) {}
    if a.Some? && b.Some? {
      LessTotal(a.value.path, b.value.path);
      forall route | Via(p, route, level, i, v + w)
        ensures AtLeast(Min(a, b).value, Chosen(p, route))
      {
        if Via(p, route, level, i, v) {
          AtLeastTrans(Min(a, b).value, a.value, Chosen(p, route));
        } else {
          AtLeastTrans(Min(a, b).value, b.value, Chosen(p, route));
        }
      }
    }
  }

  // ----------------------------------------------------------------- the level tables

  /** An entry of the table under construction: sources in `done` have been tried. */
  ghost predicate EntryVia(
    p: Problem, classCount: nat, level: nat, states: map<nat, Choice>, done: set<nat>, i: nat)
    requires i < |p.values|
  {
    if Allowed(p, classCount, level, i) then BestVia(p, level, i, done, Get(states, i))
    else i !in states
  }

  ghost predicate LevelVia(
    p: Problem, classCount: nat, level: nat, states: map<nat, Choice>, done: set<nat>)
  {
    && (forall i | i in states :: i < |p.values|)
    && forall i | 0 <= i < |p.values| :: EntryVia(p, classCount, level, states, done, i)
  }

  lemma FirstLevel(p: Problem, i: nat)
    requires i < |p.values|
    ensures Best(p, 1, i, if ValidStep(p.start, p.values[i])
                          then Some(Choice(p.cost(p.start, p.values[i]), [p.values[i]]))
                          else None)
  {
    var via := Below(|p.values|);
    forall route | Via(p, route, 1, i, via) ensures route == [i] {}
    if ValidStep(p.start, p.values[i]) {
      assert Via(p, [i], 1, i, via);
    }
  }

  lemma Skip(p: Problem, classCount: nat, level: nat,
             states: map<nat, Choice>, done: set<nat>, j: nat, i: nat)
    requires level >= 1 && j < |p.values| && i < |p.values|
    requires EntryVia(p, classCount, level + 1, states, done, i)
    requires !(j < i && ValidStep(p.values[j], p.values[i]))
             || !Allowed(p, classCount, level + 1, i)
    ensures EntryVia(p, classCount, level + 1, states, done + {j}, i)
  {
    if Allowed(p, classCount, level + 1, i) {
      NoExtension(p, level, j, i);
      MinJoins(p, level + 1, i, done, {j}, Get(states, i), None);
    }
  }

  lemma Offer(p: Problem, classCount: nat, level: nat, c: Choice, states: map<nat, Choice>,
              states': map<nat, Choice>, done: set<nat>, j: nat, i: nat)
    requires level >= 1 && j < i < |p.values| && ValidStep(p.values[j], p.values[i])
    requires Best(p, level, j, Some(c)) && Allowed(p, classCount, level + 1, i)
    requires EntryVia(p, classCount, level + 1, states, done, i)
    requires var e := Some(Extend(p, c, p.values[j], p.values[i]));
      Get(states', i) == Min(Get(states, i), e)
    ensures EntryVia(p, classCount, level + 1, states', done + {j}, i)
  {
    ExtensionIsBest(p, level, j, i, c);
    MinJoins(p, level + 1, i, done, {j}, Get(states, i),
             Some(Extend(p, c, p.values[j], p.values[i])));
  }

  /** Once every kept source has been tried the table is the next level: a source that was
      dropped has no route, or would step beyond the endpoint. */
  lemma AllTried(p: Problem, classCount: nat, level: nat, states: map<nat, Choice>,
                 next: map<nat, Choice>, i: nat)
    requires 1 <= level < classCount && i < |p.values|
    requires forall k | 0 <= k < |p.values| :: p.values[k] <= p.end
    requires LevelDone(p, classCount, level, states)
    requires EntryVia(p, classCount, level + 1, next, states.Keys, i)
    ensures EntryDone(p, classCount, level + 1, next, i)
  {
    var any, kept, upper := Below(|p.values|), states.Keys, level + 1;
    forall route | Via(p, route, upper, i, any) ensures Via(p, route, upper, i, kept)
    {
      Shorter(p, route, level, i, any);
      var j := route[level - 1];
      assert EntryDone(p, classCount, level, states, j);
    }
    forall route | Via(p, route, upper, i, kept) ensures Via(p, route, upper, i, any) {
      ViaAny(p, route, upper, i);
    }
  }

  function Filter(keep: int -> bool, s: seq<int>): (r: seq<int>)
    ensures forall v :: v in r <==> v in s && keep(v)
  {
    if s == [] then []
    else
      var n := |s| - 1;
      assert s == s[..n] + [s[n]];
      Filter(keep, s[..n]) + if keep(s[n]) then [s[n]] else []
  }

  predicate Increasing(s: seq<int>) {
    forall i, j | 0 <= i < j < |s| :: s[i] < s[j]
  }

  lemma {:induction false} FilterIncreasing(keep: int -> bool, s: seq<int>)
    requires Increasing(s)
    ensures Increasing(Filter(keep, s))
  {
    if s != [] {
      var n := |s| - 1;
      FilterIncreasing(keep, s[..n]);
      var init := Filter(keep, s[..n]);
      forall i | 0 <= i < |init| ensures init[i] < s[n] {
        assert init[i] in init;
      }
    }
  }

  function Filtered(candidates: seq<int>, start: int, end: int): seq<int> {
    Filter(v => start < v <= end, candidates)
  }

  // ------------------------------------------------------------------- rules as values

  /** A rule, its classes from first to last, with every step legal. */
  predicate Legal(p: Problem, path: seq<int>) {
    path != [] && forall k | 0 <= k < |path| :: LegalAt(p, path, k)
  }

  predicate LegalAt(p: Problem, path: seq<int>, k: nat)
    requires k < |path|
  {
    path[k] in p.values && ValidStep(Lower(p.start, path, k), path[k])
  }

  function Lower(start: int, path: seq<int>, k: nat): int
    requires k < |path|
  {
    if k == 0 then start else path[k - 1]
  }

  lemma PathCostSnoc(cost: (int, int) -> real, start: int, path: seq<int>, k: nat)
    requires k < |path|
    ensures PathCost(cost, start, []) == 0.0
    ensures PathCost(cost, start, path[..k + 1])
            == PathCost(cost, start, path[..k]) + cost(Lower(start, path, k), path[k])
  {
    assert path[..k + 1][..k] == path[..k];
  }

  /** Total cost of a rule, group by group. */
  function PathCost(cost: (int, int) -> real, start: int, path: seq<int>): real {
    if path == [] then 0.0
    else
      var n := |path| - 1;
      PathCost(cost, start, path[..n]) + cost(Lower(start, path, n), path[n])
  }

  lemma {:induction false} ChosenCost(p: Problem, route: seq<nat>)
    requires Route(p, route)
    ensures Chosen(p, route).cost == PathCost(p.cost, p.start, Chosen(p, route).path)
    ensures Legal(p, Chosen(p, route).path)
  {
    hide ValidStep;
    ChosenPath(p, route);
    var n := |route| - 1;
    var path := Chosen(p, route).path;
    if n > 0 {
      var init := route[..n];
      ChosenPath(p, init);
      ChosenCost(p, init);
      assert path[..n] == Chosen(p, init).path;
      forall k | 0 <= k < n ensures LegalAt(p, path, k) {
        assert LegalAt(p, path[..n], k);
      }
    }
    assert LegalAt(p, path, n);
  }

  /** Over increasing candidates every legal rule is a route. */
  lemma RouteSnoc(p: Problem, before: seq<nat>, i: nat)
    requires Route(p, before) && before[|before| - 1] < i < |p.values|
    requires ValidStep(p.values[before[|before| - 1]], p.values[i])
    ensures Route(p, before + [i])
    ensures Chosen(p, before + [i]).path == Chosen(p, before).path + [p.values[i]]
  {
    hide ValidStep;
    var route := before + [i];
    assert route[..|before|] == before;
  }

  lemma {:induction false} LegalRoute(p: Problem, path: seq<int>) returns (route: seq<nat>)
    requires Increasing(p.values) && Legal(p, path)
    ensures Route(p, route) && Chosen(p, route).path == path
  {
    hide ValidStep;
    var n := |path| - 1;
    assert LegalAt(p, path, n);
    StepsGoUp(Lower(p.start, path, n), path[n]);
    var i: nat :| i < |p.values| && p.values[i] == path[n];
    if n == 0 {
      route := [i];
    } else {
      var init := path[..n];
      forall k | 0 <= k < n ensures LegalAt(p, init, k) {
        assert LegalAt(p, path, k);
      }
      var before := LegalRoute(p, init);
      ChosenPath(p, before);
      var j := before[n - 1];
      assert p.values[j] == path[n - 1] && j < |p.values|;
      RouteSnoc(p, before, i);
      route := before + [i];
      assert path == init + [path[n]];
    }
  }

  // --------------------------------------------------------------------- the algorithm

  method FirstStates(p: Problem, classCount: nat) returns (states: map<nat, Choice>)
    requires classCount >= 1
    ensures LevelDone(p, classCount, 1, states)
  {
    states := map[];
    for i := 0 to |p.values|
      invariant forall j | j in states :: j < i
      invariant forall j | 0 <= j < i :: EntryDone(p, classCount, 1, states, j)
    {
      ghost var before := states;
      FirstLevel(p, i);
      var value := p.values[i];
      if ValidStep(p.start, value) && (classCount == 1) == (value == p.end) {
        states := states[i := Choice(p.cost(p.start, value), [value])];
      }
      forall j | 0 <= j < i ensures EntryDone(p, classCount, 1, states, j) {
        assert EntryDone(p, classCount, 1, before, j);
      }
    }
  }

  /** The inner loop: candidate j with best choice c is tried before every later one. */
  method TrySource(p: Problem, classCount: nat, ghost level: nat, last: bool, j: nat, c: Choice,
                   states: map<nat, Choice>, ghost done: set<nat>)
    returns (next: map<nat, Choice>)
    requires 1 <= level < classCount && last == (level + 1 == classCount) && j < |p.values|
    requires Best(p, level, j, Some(c))
    requires LevelVia(p, classCount, level + 1, states, done)
    ensures LevelVia(p, classCount, level + 1, next, done + {j})
  {
    ghost var upper, tried := level + 1, done + {j};
    next := states;
    forall i | 0 <= i <= j ensures EntryVia(p, classCount, upper, next, tried, i) {
      assert EntryVia(p, classCount, upper, next, done, i);
      Skip(p, classCount, level, next, done, j, i);
    }
    for i := j + 1 to |p.values|
      invariant forall k | k in next :: k < |p.values|
      invariant forall k | 0 <= k < i :: EntryVia(p, classCount, upper, next, tried, k)
      invariant forall k | i <= k < |p.values| :: EntryVia(p, classCount, upper, next, done, k)
    {
      ghost var before := next;
      var value := p.values[i];
      assert EntryVia(p, classCount, upper, before, done, i);
      if !ValidStep(p.values[j], value) || last != (value == p.end) {
        Skip(p, classCount, level, next, done, j, i);
      } else {
        var candidate := Extend(p, c, p.values[j], value);
        if i !in next || Better(candidate, next[i]) {
          next := next[i := candidate];
        }
        Offer(p, classCount, level, c, before, next, done, j, i);
      }
      forall k | 0 <= k < i ensures EntryVia(p, classCount, upper, next, tried, k) {
        assert EntryVia(p, classCount, upper, before, tried, k);
      }
      forall k | i < k < |p.values| ensures EntryVia(p, classCount, upper, next, done, k) {
        assert EntryVia(p, classCount, upper, before, done, k);
      }
    }
  }

  /** One level: every kept source is tried, in any order. */
  method NextStates(p: Problem, classCount: nat, level: nat, states: map<nat, Choice>)
    returns (next: map<nat, Choice>)
    requires 1 <= level < classCount && LevelDone(p, classCount, level, states)
    requires forall k | 0 <= k < |p.values| :: p.values[k] <= p.end
    ensures LevelDone(p, classCount, level + 1, next)
  {
    next := map[];
    var todo := states.Keys;
    while todo != {}
      invariant todo <= states.Keys
      invariant LevelVia(p, classCount, level + 1, next, states.Keys - todo)
    {
      var j :| j in todo;
      assert EntryDone(p, classCount, level, states, j);
      next := TrySource(p, classCount, level, level + 1 == classCount, j, states[j], next,
                        states.Keys - todo);
      assert states.Keys - (todo - {j}) == states.Keys - todo + {j};
      todo := todo - {j};
    }
    assert states.Keys - todo == states.Keys;
    ghost var upper := level + 1;
    forall i | 0 <= i < |p.values| ensures EntryDone(p, classCount, upper, next, i) {
      assert EntryVia(p, classCount, upper, next, states.Keys, i);
      AllTried(p, classCount, level, states, next, i);
    }
  }

  function SelectProblem(
    candidates: seq<int>, end: int, cost: (int, int) -> real, start: int): Problem
  {
    Problem(Filtered(candidates, start, end), start, end, cost)
  }

  /** The least (cost, path) over all legal rules with exactly classCount classes, or an
      error exactly when there is none. */
  ghost predicate Selected(p: Problem, classCount: int, r: Result<Choice, SelectError>) {
    if p.values == [] || p.values[|p.values| - 1] != p.end then r == Failure(EndMissing)
    else if classCount < 1 || classCount > |p.values| then r == Failure(CountOutOfRange)
    else
      match r
      case Success(c) => Best(p, classCount, |p.values| - 1, Some(c))
      case Failure(e) => e == NoLegalRule && Best(p, classCount, |p.values| - 1, None)
  }

  method SelectBoundaries(
    candidates: seq<int>, end: int, classCount: int, cost: (int, int) -> real, start: int)
    returns (r: Result<Choice, SelectError>)
    ensures Selected(SelectProblem(candidates, end, cost, start), classCount, r)
  {
    var p := Problem(Filtered(candidates, start, end), start, end, cost);
    if p.values == [] || p.values[|p.values| - 1] != end {
      return Failure(EndMissing);
    }
    if classCount < 1 || classCount > |p.values| {
      return Failure(CountOutOfRange);
    }
    forall k | 0 <= k < |p.values| ensures p.values[k] <= end {
      assert p.values[k] in p.values;
    }
    var states: map<nat, Choice> := FirstStates(p, classCount);
    for level := 2 to classCount + 1
      invariant LevelDone(p, classCount, level - 1, states)
    {
      states := NextStates(p, classCount, level - 1, states);
    }
    var last := |p.values| - 1;
    assert EntryDone(p, classCount, classCount, states, last);
    if last !in states {
      return Failure(NoLegalRule);
    }
    return Success(states[last]);
  }

  /** Over increasing candidates the answer is a legal rule of the requested size that ends
      at the endpoint, and no such rule is cheaper, nor equally cheap and smaller. */
  lemma SelectedIsLeast(candidates: seq<int>, end: int, cost: (int, int) -> real, start: int,
                        classCount: int, c: Choice)
    requires Increasing(candidates)
    requires Selected(SelectProblem(candidates, end, cost, start), classCount, Success(c))
    ensures var p := SelectProblem(candidates, end, cost, start);
      && Legal(p, c.path) && |c.path| == classCount && c.path[classCount - 1] == end
      && c.cost == PathCost(cost, start, c.path)
      && forall path | Legal(p, path) && |path| == classCount && path[classCount - 1] == end ::
           AtLeast(c, Choice(PathCost(cost, start, path), path))
  {
    hide ValidStep, AtLeast, LegalAt, PathCost;
    var p := SelectProblem(candidates, end, cost, start);
    var last := |p.values| - 1;
    var best :| Via(p, best, classCount, last, Below(|p.values|)) && Chosen(p, best) == c;
    ChosenCost(p, best);
    ChosenPath(p, best);
    FilterIncreasing(v => start < v <= end, candidates);
    forall path | Legal(p, path) && |path| == classCount && path[classCount - 1] == end
      ensures AtLeast(c, Choice(PathCost(cost, start, path), path))
    {
      BeatsRule(p, classCount, c, path);
    }
  }

  lemma BeatsRule(p: Problem, classCount: nat, c: Choice, path: seq<int>)
    requires Increasing(p.values) && p.values != [] && p.values[|p.values| - 1] == p.end
    requires Best(p, classCount, |p.values| - 1, Some(c))
    requires Legal(p, path) && |path| == classCount && path[classCount - 1] == p.end
    ensures AtLeast(c, Choice(PathCost(p.cost, p.start, path), path))
  {
    hide ValidStep, AtLeast, LegalAt, PathCost;
    var route := LegalRoute(p, path);
    ChosenCost(p, route);
    ChosenPath(p, route);
    ViaAny(p, route, classCount, |p.values| - 1);
  }

  /** Over increasing candidates the search fails exactly when no legal rule exists. */
  lemma FailsOnlyWithoutRule(candidates: seq<int>, end: int, cost: (int, int) -> real,
                             start: int, classCount: int, r: Result<Choice, SelectError>)
    requires Increasing(candidates)
    requires Selected(SelectProblem(candidates, end, cost, start), classCount, r)
    ensures var p := SelectProblem(candidates, end, cost, start);
      r.Failure? <==> forall path | Legal(p, path) && |path| == classCount ::
                        path[classCount - 1] != end
  {
    var p := SelectProblem(candidates, end, cost, start);
    FilterIncreasing(v => start < v <= end, candidates);
    if r.Success? {
      SelectedIsLeast(candidates, end, cost, start, classCount, r.value);
    } else if path :| Legal(p, path) && |path| == classCount && path[classCount - 1] == end {
      NoRuleWhenFailed(p, classCount, r.error, path);
    }
  }

  lemma NoRuleWhenFailed(p: Problem, classCount: int, error: SelectError, path: seq<int>)
    requires Increasing(p.values) && Selected(p, classCount, Failure(error))
    requires forall v | v in p.values :: v <= p.end
    requires Legal(p, path) && |path| == classCount
    ensures path[classCount - 1] != p.end
  {
    var n := |path| - 1;
    if path[n] == p.end {
      var last := |p.values| - 1;
      assert LegalAt(p, path, n) && p.values[last] in p.values;
      var i: nat :| i < |p.values| && p.values[i] == p.end;
      assert i == last;
      var route := LegalRoute(p, path);
      ChosenPath(p, route);
      RouteFits(p, route);
      ViaAny(p, route, classCount, last);
    }
  }

  /** A route has no more steps than there are candidates. */
  lemma {:induction false} RouteFits(p: Problem, route: seq<nat>)
    requires Route(p, route)
    ensures |route| <= route[|route| - 1] + 1 <= |p.values|
  {
    if |route| > 1 {
      RouteFits(p, route[..|route| - 1]);
    }
  }
}
