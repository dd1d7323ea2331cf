/** How rply_to_mstress.py divides a trace into phases: distribute_phases shares the phases
    over the waves by largest remainder, in exact arithmetic, and analyze maps the events of
    a wave evenly onto its phases. */
module PhaseLayout {
  import opened QuotaArithmetic

  predicate AllPositive(s: seq<nat>) {
    forall i | 0 <= i < |s| :: s[i] > 0
  }

  // ---------------------------------------------------------------- largest remainders

  /** Whole phases of wave i beyond its first, and the remainder over `total`. */
  function Whole(waves: seq<nat>, remaining: nat, i: nat): nat
    requires i < |waves| && Sum(waves) > 0
  {
    remaining * waves[i] / Sum(waves)
  }

  function Rest(waves: seq<nat>, remaining: nat, i: nat): nat
    requires i < |waves| && Sum(waves) > 0
  {
    remaining * waves[i] % Sum(waves)
  }

  function Wholes(waves: seq<nat>, remaining: nat): (r: seq<nat>)
    requires Sum(waves) > 0
    ensures |r| == |waves| && forall i | 0 <= i < |r| :: r[i] == Whole(waves, remaining, i)
  {
    seq(|waves|, i requires 0 <= i < |waves| => Whole(waves, remaining, i))
  }

  function Rests(waves: seq<nat>, remaining: nat): (r: seq<nat>)
    requires Sum(waves) > 0
    ensures |r| == |waves| && forall i | 0 <= i < |r| :: r[i] == Rest(waves, remaining, i)
  {
    seq(|waves|, i requires 0 <= i < |waves| => Rest(waves, remaining, i))
  }

  lemma DivMod(x: nat, d: nat)
    requires d > 0
    ensures x == x / d * d + x % d && x % d < d
  {}

  lemma Distribute(a: int, b: int, c: int)
    ensures (a + b) * c == a * c + b * c && c * (a + b) == c * a + c * b
  {}

  /** Over the first n waves: whole phases times total plus remainders is everything. */
  lemma {:induction false} SharesAddUp(waves: seq<nat>, remaining: nat, n: nat)
    requires Sum(waves) > 0 && n <= |waves|
    ensures Sum(Wholes(waves, remaining)[..n]) * Sum(waves) + Sum(Rests(waves, remaining)[..n])
            == remaining * Sum(waves[..n])
    ensures Sum(Rests(waves, remaining)[..n]) <= n * Sum(waves)
    ensures n > 0 ==> Sum(Rests(waves, remaining)[..n]) < n * Sum(waves)
  {
    if n > 0 {
      SharesAddUp(waves, remaining, n - 1);
      var w, r := Wholes(waves, remaining), Rests(waves, remaining);
      assert w[..n][..n - 1] == w[..n - 1] && r[..n][..n - 1] == r[..n - 1];
      assert waves[..n][..n - 1] == waves[..n - 1];
      DivMod(remaining * waves[n - 1], Sum(waves));
      Distribute(Sum(w[..n - 1]), w[n - 1], Sum(waves));
      Distribute(Sum(waves[..n - 1]), waves[n - 1], remaining);
      Distribute(n - 1, 1, Sum(waves));
    }
  }

  /** The phases the floors leave over are fewer than the waves. */
  lemma LeftIsSmall(waves: seq<nat>, remaining: nat)
    requires Sum(waves) > 0 && waves != []
    ensures Sum(Wholes(waves, remaining)) <= remaining
    ensures remaining - Sum(Wholes(waves, remaining)) < |waves|
  {
    var n, t := |waves|, Sum(waves);
    var w, r := Wholes(waves, remaining), Rests(waves, remaining);
    SharesAddUp(waves, remaining, n);
    assert w[..n] == w && r[..n] == r && waves[..n] == waves;
    Quotient(Sum(w), Sum(r), remaining, n, t);
  }

  lemma Quotient(whole: nat, rest: nat, total: nat, n: nat, t: nat)
    requires t > 0 && whole * t + rest == total * t && rest < n * t
    ensures whole <= total && total - whole < n
  {
    Difference(total, whole, t);
    Magnitude(total - whole, t);
    Difference(n, total - whole, t);
    Magnitude(n - (total - whole), t);
  }

  // ------------------------------------------------------------------ sorted(..., reverse)

  /** Stable insertion by key, largest first. */
  function Insert(keys: seq<nat>, order: seq<nat>, i: nat): seq<nat>
    requires i < |keys| && InBounds(keys, order)
  {
    if order == [] then [i]
    else
      var n := |order| - 1;
      if keys[order[n]] >= keys[i] then order + [i]
      else Insert(keys, order[..n], i) + [order[n]]
  }

  predicate InBounds(keys: seq<nat>, order: seq<nat>) {
    forall j | 0 <= j < |order| :: order[j] < |keys|
  }

  predicate Pair(keys: seq<nat>, order: seq<nat>, a: nat, b: nat)
    requires InBounds(keys, order) && a < b < |order|
  {
    order[a] != order[b] && keys[order[a]] >= keys[order[b]]
  }

  /** Different places, largest key first. */
  predicate Ranked(keys: seq<nat>, order: seq<nat>)
    requires InBounds(keys, order)
  {
    forall a, b | 0 <= a < b < |order| :: Pair(keys, order, a, b)
  }

  lemma {:induction false} InsertMembers(keys: seq<nat>, order: seq<nat>, i: nat)
    requires i < |keys| && InBounds(keys, order)
    ensures var r := Insert(keys, order, i);
      |r| == |order| + 1 && InBounds(keys, r) && forall j :: j in r <==> j in order || j == i
  {
    if order != [] {
      var n := |order| - 1;
      assert order == order[..n] + [order[n]];
      if keys[order[n]] < keys[i] {
        InsertMembers(keys, order[..n], i);
      }
    }
  }

  lemma {:induction false} InsertRanks(keys: seq<nat>, order: seq<nat>, i: nat)
    requires i < |keys| && InBounds(keys, order) && Ranked(keys, order) && i !in order
    ensures InBounds(keys, Insert(keys, order, i)) && Ranked(keys, Insert(keys, order, i))
  {
    InsertMembers(keys, order, i);
    var r := Insert(keys, order, i);
    if order != [] {
      var n := |order| - 1;
      var init := order[..n];
      if keys[order[n]] >= keys[i] {
        forall a, b | 0 <= a < b < |r| ensures Pair(keys, r, a, b) {
          assert a < n ==> Pair(keys, order, a, n);
          assert b < |order| ==> Pair(keys, order, a, b);
          assert order[a] in order;
        }
      } else {
        forall a, b | 0 <= a < b < n ensures Pair(keys, init, a, b) {
          assert Pair(keys, order, a, b);
        }
        InsertRanks(keys, init, i);
        InsertMembers(keys, init, i);
        var head := Insert(keys, init, i);
        forall a, b | 0 <= a < b < |r| ensures Pair(keys, r, a, b) {
          if b < |head| {
            assert Pair(keys, head, a, b);
          } else {
            Dominates(keys, order, i, head[a]);
          }
        }
      }
    }
  }

  /** Whatever stands before the last place is at least as large. */
  lemma Dominates(keys: seq<nat>, order: seq<nat>, i: nat, x: nat)
    requires i < |keys| && InBounds(keys, order) && Ranked(keys, order) && i !in order
    requires order != [] && keys[order[|order| - 1]] < keys[i]
    requires x == i || x in order[..|order| - 1]
    ensures x < |keys| && x != order[|order| - 1] && keys[x] >= keys[order[|order| - 1]]
  {
    if x != i {
      var a :| 0 <= a < |order| - 1 && order[a] == x;
      assert Pair(keys, order, a, |order| - 1);
    } else {
      assert order[|order| - 1] in order;
    }
  }

  function Order(keys: seq<nat>, n: nat): (r: seq<nat>)
    requires n <= |keys|
    ensures |r| == n && InBounds(keys, r) && Ranked(keys, r)
    ensures forall j :: j in r <==> 0 <= j < n
  {
    if n == 0 then []
    else
      var before := Order(keys, n - 1);
      InsertMembers(keys, before, n - 1);
      InsertRanks(keys, before, n - 1);
      Insert(keys, before, n - 1)
  }

  // ------------------------------------------------------------------- distribute_phases

  /** Wave i's share: one phase, its whole quota, and one more or not. */
  predicate ShareOk(waves: seq<nat>, remaining: nat, result: seq<nat>, i: nat)
    requires Sum(waves) > 0 && i < |waves| == |result|
  {
    || result[i] == 1 + Whole(waves, remaining, i)
    || result[i] == 2 + Whole(waves, remaining, i)
  }

  /** Whoever gets one more has at least the remainder of whoever does not. */
  predicate Fair(waves: seq<nat>, remaining: nat, result: seq<nat>, i: nat, j: nat)
    requires Sum(waves) > 0 && i < |waves| == |result| && j < |waves|
  {
    result[i] == 2 + Whole(waves, remaining, i) && result[j] == 1 + Whole(waves, remaining, j)
    ==> Rest(waves, remaining, i) >= Rest(waves, remaining, j)
  }

  /** Largest remainders: every wave gets its quota rounded down or up, and rounding up goes
      to the largest remainders. */
  ghost predicate Shared(waves: seq<nat>, remaining: nat, result: seq<nat>) {
    && Sum(waves) > 0 && |result| == |waves|
    && (forall i | 0 <= i < |waves| :: ShareOk(waves, remaining, result, i))
    && forall i, j | 0 <= i < |waves| && 0 <= j < |waves| ::
         Fair(waves, remaining, result, i, j)
  }

  lemma {:induction false} SumAddOne(s: seq<nat>, t: seq<nat>)
    requires |s| == |t| && forall i | 0 <= i < |s| :: t[i] == s[i] + 1
    ensures Sum(t) == Sum(s) + |s|
  {
    if s != [] {
      SumAddOne(s[..|s| - 1], t[..|t| - 1]);
    }
  }

  method DistributePhases(waves: seq<nat>, requested: nat) returns (result: seq<nat>)
    requires waves != [] && AllPositive(waves) && Sum(waves) > 0
    ensures |result| == |waves|
    ensures Sum(result) == if requested > |waves| then requested else |waves|
    ensures forall i | 0 <= i < |result| :: result[i] >= 1
    ensures requested > |waves| ==>
      Shared(waves, requested - |waves|, result)
  {
    hide Sum, Whole, Rest, Shared;
    var count := |waves|;
    var phases := if requested > count then requested else count;
    var remaining := phases - count;
    if remaining == 0 {
      var none := seq(count, _ => 0);
      result := seq(count, _ => 1);
      SumAddOne(none, result);
      ZeroSum(none);
      return;
    }
    var floors, rests := Wholes(waves, remaining), Rests(waves, remaining);
    LeftIsSmall(waves, remaining);
    var left := remaining - TotalOf(floors);
    var order := Order(rests, count);
    forall a, b | 0 <= a < b < |order| ensures Apart(order, a, b) {
      assert Pair(rests, order, a, b);
    }
    result := AddToFirst(floors, order, left);
    SharesAreFair(waves, remaining, order, left, result);
  }

  /** One phase for everybody, the floors, and one more for the first `left` in order. */
  method AddToFirst(floors: seq<nat>, order: seq<nat>, left: nat) returns (result: seq<nat>)
    requires |order| == |floors| && InBounds(floors, order)
    requires forall a, b | 0 <= a < b < |order| :: Apart(order, a, b)
    requires left <= |floors|
    ensures |result| == |floors| && Sum(result) == |floors| + Sum(floors) + left
    ensures forall i | 0 <= i < |result| :: result[i] >= floors[i] + 1
    ensures forall a | 0 <= a < |order| ::
      result[order[a]] == floors[order[a]] + 1 + if a < left then 1 else 0
  {
    hide Sum;
    result := seq(|floors|, i requires 0 <= i < |floors| => floors[i] + 1);
    SumAddOne(floors, result);
    for k := 0 to left
      invariant |result| == |floors| && Sum(result) == |floors| + Sum(floors) + k
      invariant forall i | 0 <= i < |result| :: result[i] >= floors[i] + 1
      invariant forall a | 0 <= a < |order| ::
        result[order[a]] == floors[order[a]] + 1 + if a < k then 1 else 0
    {
      SumUpdate(result, order[k], result[order[k]] + 1);
      ghost var was := result;
      result := result[order[k] := result[order[k]] + 1];
      forall a | 0 <= a < |order|
        ensures result[order[a]] == floors[order[a]] + 1 + if a < k + 1 then 1 else 0
      {
        assert a < k ==> Apart(order, a, k);
        assert k < a ==> Apart(order, k, a);
      }
    }
  }

  predicate Apart(order: seq<nat>, a: nat, b: nat)
    requires a < b < |order|
  {
    order[a] != order[b]
  }

  lemma SharesAreFair(
    waves: seq<nat>, remaining: nat, order: seq<nat>, left: nat, result: seq<nat>)
    requires Sum(waves) > 0 && |order| == |waves| == |result| && left <= |waves|
    requires InBounds(Rests(waves, remaining), order)
    requires Ranked(Rests(waves, remaining), order)
    requires forall j :: j in order <==> 0 <= j < |waves|
    requires forall a | 0 <= a < |order| ::
      result[order[a]] == Whole(waves, remaining, order[a]) + 1 + if a < left then 1 else 0
    ensures Shared(waves, remaining, result)
  {
    hide Whole, Rest;
    forall i | 0 <= i < |waves| ensures ShareOk(waves, remaining, result, i) {
      assert i in order;
      var a :| 0 <= a < |order| && order[a] == i;
    }
    forall i, j | 0 <= i < |waves| && 0 <= j < |waves|
      ensures Fair(waves, remaining, result, i, j)
    {
      assert i in order && j in order;
      var a :| 0 <= a < |order| && order[a] == i;
      var b :| 0 <= b < |order| && order[b] == j;
      assert a < b ==> Pair(Rests(waves, remaining), order, a, b);
    }
  }

  function TotalOf(s: seq<nat>): (r: nat)
    ensures r == Sum(s)
  {
    Sum(s)
  }

  lemma {:induction false} ZeroSum(s: seq<nat>)
    requires forall i | 0 <= i < |s| :: s[i] == 0
    ensures Sum(s) == 0
  {
    if s != [] {
      ZeroSum(s[..|s| - 1]);
    }
  }

  // ------------------------------------------------------------------ events onto phases

  function Min(a: nat, b: nat): nat {
    if b < a then b else a
  }

  /** The phase of an event within its wave. */
  function PhaseInWave(event: nat, count: nat, phases: nat): nat
    requires count > 0 && phases > 0
  {
    Min(event * phases / count, phases - 1)
  }

  /** The phase of an event of the whole trace: waves are filled one after the other. */
  function PhaseOf(waves: seq<nat>, phases: seq<nat>, event: nat): (p: nat)
    requires |waves| == |phases| && AllPositive(waves) && AllPositive(phases)
    requires event < Sum(waves)
    ensures p < Sum(phases)
  {
    var n := |waves| - 1;
    if event < Sum(waves[..n]) then PhaseOf(waves[..n], phases[..n], event)
    else Sum(phases[..n]) + PhaseInWave(event - Sum(waves[..n]), waves[n], phases[n])
  }

  lemma DivMono(a: nat, b: nat, d: nat)
    requires a <= b && d > 0
    ensures a / d <= b / d
  {
    DivMod(a, d);
    DivMod(b, d);
    if a / d > b / d {
      Product(a / d, b / d, d);
    }
  }

  lemma Product(x: nat, y: nat, d: nat)
    requires x > y
    ensures x * d >= y * d + d
  {
    Difference(x, y, d);
    if d > 0 {
      Magnitude(x - y, d);
    }
  }

  /** Later events are in the same phase or a later one. */
  lemma {:induction false} PhasesNondecreasing(
    waves: seq<nat>, phases: seq<nat>, i: nat, j: nat)
    requires |waves| == |phases| && AllPositive(waves) && AllPositive(phases)
    requires i <= j < Sum(waves)
    ensures PhaseOf(waves, phases, i) <= PhaseOf(waves, phases, j)
  {
    var n := |waves| - 1;
    if j < Sum(waves[..n]) {
      PhasesNondecreasing(waves[..n], phases[..n], i, j);
    } else if i >= Sum(waves[..n]) {
      var a, b := i - Sum(waves[..n]), j - Sum(waves[..n]);
      Distribute(b - a, a, phases[n]);
      assert (b - a) * phases[n] >= 0;
      DivMono(a * phases[n], b * phases[n], waves[n]);
    }
  }
}
