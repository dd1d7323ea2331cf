/** The three loops of synthetic_mstress_runtime.c that turn a phase's profile into exact
    numbers: drawing functions without replacement, spreading events with an accumulator,
    and looking up the route of an ordinal. Random numbers are arbitrary. */
module QuotaArithmetic {
  import opened Wrappers

  const FUNCTION_COUNT: nat := 10

  function Sum(s: seq<nat>): nat {
    if s == [] then 0 else Sum(s[..|s| - 1]) + s[|s| - 1]
  }

  lemma {:induction false} SumUpdate(s: seq<nat>, i: nat, x: nat)
    requires i < |s|
    ensures Sum(s[i := x]) == Sum(s) - s[i] + x
    ensures s[i] <= Sum(s)
  {
    var n := |s| - 1;
    if i < n {
      assert s[i := x][..n] == s[..n][i := x];
      SumUpdate(s[..n], i, x);
    } else {
      assert s[i := x][..n] == s[..n];
    }
  }

  lemma {:induction false} SumSplit(s: seq<nat>, n: nat)
    requires n <= |s|
    ensures Sum(s) == Sum(s[..n]) + Sum(s[n..])
  {
    if n == |s| {
      assert s[..n] == s;
    } else {
      var m := |s| - 1;
      SumSplit(s[..m], n);
      assert s[..m][..n] == s[..n] && s[..m][n..] == s[n..][..m - n];
    }
  }

  /** choose_function: with `total` calls left one with quota left is drawn, so the
      fallback after the loop is never reached. */
  method ChooseFunction(remaining: array<nat>, total: nat, random: nat) returns (f: nat)
    requires remaining.Length == FUNCTION_COUNT && 0 < total == Sum(remaining[..])
    modifies remaining
    ensures f < FUNCTION_COUNT && 0 < old(remaining[f])
    ensures remaining[..] == old(remaining[..])[f := old(remaining[f]) - 1]
    ensures Sum(remaining[..]) == total - 1
  {
    var selected: nat := random % total;
    var i := 0;
    SumSplit(remaining[..], 0);
    assert remaining[..][0..] == remaining[..];
    while i < FUNCTION_COUNT
      invariant 0 <= i <= FUNCTION_COUNT && remaining[..] == old(remaining[..])
      invariant selected < Sum(remaining[..][i..])
    {
      if selected < remaining[i] {
        SumUpdate(remaining[..], i, remaining[i] - 1);
        remaining[i] := remaining[i] - 1;
        assert remaining[..] == old(remaining[..])[i := old(remaining[i]) - 1];
        return i;
      }
      SumSplit(remaining[..][i..], 1);
      assert remaining[..][i..][..1] == [remaining[i]];
      assert remaining[..][i..][1..] == remaining[..][i + 1..];
      selected := selected - remaining[i];
      i := i + 1;
    }
    assert false;
  }

  // ---------------------------------------------------------------------- accumulators

  /** After i of `slots` events the accumulator has fired `fired` times for `wanted`. */
  predicate Accumulated(wanted: nat, slots: nat, i: int, acc: nat, fired: nat) {
    && wanted <= slots && acc + fired * slots == i * wanted
    && (if slots == 0 then fired == 0 else acc < slots)
  }

  /** One event: add `wanted`, fire and subtract when `slots` is reached. */
  method Accumulate(wanted: nat, slots: nat, acc: nat, ghost i: nat, ghost count: nat)
    returns (acc': nat, fire: bool)
    requires Accumulated(wanted, slots, i, acc, count) && slots > 0
    ensures Accumulated(wanted, slots, i + 1, acc', count + if fire then 1 else 0)
  {
    acc', fire := acc + wanted, false;
    assert (i + 1) * wanted == i * wanted + wanted;
    assert (count + 1) * slots == count * slots + slots;
    if acc' >= slots {
      acc', fire := acc' - slots, true;
    }
  }

  /** After all events it has fired exactly the wanted number of times. */
  lemma FiresExactly(wanted: nat, slots: nat, acc: nat, fired: nat)
    requires Accumulated(wanted, slots, slots, acc, fired) && slots > 0
    ensures fired == wanted && acc == 0
  {
    assert slots * wanted == wanted * slots;
    OneQuotient(acc, slots, fired, wanted);
  }

  lemma OneQuotient(rest: int, slots: int, p: int, q: int)
    requires 0 <= rest < slots && rest + p * slots == q * slots
    ensures p == q && rest == 0
  {
    Difference(q, p, slots);
    Magnitude(q - p, slots);
  }

  lemma Difference(q: int, p: int, s: int)
    ensures (q - p) * s == q * s - p * s
  {}

  lemma Magnitude(k: int, s: int)
    requires s > 0
    ensures k >= 1 ==> k * s >= s
    ensures k <= -1 ==> k * s <= -s
  {}

  /** It is never ahead of an even spread, nor a whole event behind. */
  lemma FiresEvenly(wanted: nat, slots: nat, i: nat, acc: nat, fired: nat)
    requires Accumulated(wanted, slots, i, acc, fired) && slots > 0
    ensures fired * slots <= i * wanted < (fired + 1) * slots
  {
    assert (fired + 1) * slots == fired * slots + slots;
  }

  // ----------------------------------------------------------------------------- routes

  datatype Route = Route(target: nat, count: nat)

  function RouteTotal(routes: seq<Route>): nat {
    if routes == [] then 0 else RouteTotal(routes[..|routes| - 1]) + routes[|routes| - 1].count
  }

  /** How many objects the routes send to t. */
  function SentTo(routes: seq<Route>, t: nat): nat {
    if routes == [] then 0
    else
      var n := |routes| - 1;
      SentTo(routes[..n], t) + if routes[n].target == t then routes[n].count else 0
  }

  /** The target of the o-th published object. */
  function TargetOf(routes: seq<Route>, o: nat): Option<nat> {
    if routes == [] then None
    else
      var n := |routes| - 1;
      if o < RouteTotal(routes[..n]) then TargetOf(routes[..n], o)
      else if o < RouteTotal(routes) then Some(routes[n].target)
      else None
  }

  lemma {:induction false} TargetExists(routes: seq<Route>, o: nat)
    ensures TargetOf(routes, o).Some? <==> o < RouteTotal(routes)
  {
    if routes != [] {
      TargetExists(routes[..|routes| - 1], o);
    }
  }

  lemma {:induction false} TargetIn(routes: seq<Route>, k: nat, o: nat)
    requires k < |routes| && RouteTotal(routes[..k]) <= o < RouteTotal(routes[..k + 1])
    ensures TargetOf(routes, o) == Some(routes[k].target)
  {
    var n := |routes| - 1;
    if k == n {
      assert routes[..k + 1] == routes;
    } else {
      assert routes[..n][..k] == routes[..k] && routes[..n][..k + 1] == routes[..k + 1];
      TotalGrows(routes, k + 1, n);
      TargetIn(routes[..n], k, o);
    }
  }

  lemma {:induction false} TotalGrows(routes: seq<Route>, j: nat, k: nat)
    requires j <= k <= |routes|
    ensures RouteTotal(routes[..j]) <= RouteTotal(routes[..k])
  {
    if j < k {
      assert routes[..k][..k - 1] == routes[..k - 1];
      TotalGrows(routes, j, k - 1);
    }
  }

  /** route_target: walk the routes, subtracting their counts. */
  method RouteTarget(routes: seq<Route>, ordinal: nat) returns (t: Option<nat>)
    ensures t == TargetOf(routes, ordinal)
  {
    var rest: nat := ordinal;
    for k := 0 to |routes|
      invariant rest + RouteTotal(routes[..k]) == ordinal
    {
      assert routes[..k + 1][..k] == routes[..k];
      if rest < routes[k].count {
        TargetIn(routes, k, ordinal);
        return Some(routes[k].target);
      }
      rest := rest - routes[k].count;
    }
    assert routes[..|routes|] == routes;
    TargetExists(routes, ordinal);
    return None;
  }

  /** How many of the first n ordinals go to t. */
  function Reaching(routes: seq<Route>, n: nat, t: nat): nat {
    if n == 0 then 0
    else Reaching(routes, n - 1, t) + if TargetOf(routes, n - 1) == Some(t) then 1 else 0
  }

  /** Ordinals 0, 1, ... up to the total serve every route exactly its count of times. */
  lemma {:induction false} RoutesExact(routes: seq<Route>, t: nat)
    ensures Reaching(routes, RouteTotal(routes), t) == SentTo(routes, t)
  {
    if routes != [] {
      var n := |routes| - 1;
      var init := routes[..n];
      RoutesExact(init, t);
      SamePrefix(routes, RouteTotal(init), t);
      LastRoute(routes, RouteTotal(routes), t);
    }
  }

  lemma {:induction false} SamePrefix(routes: seq<Route>, n: nat, t: nat)
    requires routes != [] && n <= RouteTotal(routes[..|routes| - 1])
    ensures Reaching(routes, n, t) == Reaching(routes[..|routes| - 1], n, t)
  {
    if n > 0 {
      SamePrefix(routes, n - 1, t);
    }
  }

  lemma {:induction false} LastRoute(routes: seq<Route>, n: nat, t: nat)
    requires routes != [] && RouteTotal(routes[..|routes| - 1]) <= n <= RouteTotal(routes)
    ensures var before := RouteTotal(routes[..|routes| - 1]);
      Reaching(routes, n, t)
      == Reaching(routes, before, t)
         + if routes[|routes| - 1].target == t then n - before else 0
  {
    if n > RouteTotal(routes[..|routes| - 1]) {
      LastRoute(routes, n - 1, t);
    }
  }
}
