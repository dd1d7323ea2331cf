/** The waves of an analysed profile. The objects a wave's workers publish along their routes
    and those left by earlier waves cover every worker's remote frees, and a wave that does
    not fail leaves exactly what the next one starts from. */
module WaveProfile {
  import opened NativeFormat
  import Q = QuotaArithmetic
  import W = SyntheticWorker
  import P = ProfileAnalysis
  import opened WaveProtocol
  import R = WaveRace

  /** A worker's models in phases first .. first + count. */
  function ModelsOf(st: P.State, w: nat, first: nat, count: nat): (ms: seq<W.Model>)
    ensures |ms| == count
  {
    if count == 0 then []
    else
      ModelsOf(st, w, first, count - 1)
        + [P.Profile(P.Get(st.models, P.Key(w, first + count - 1)), |st.order|)]
  }

  lemma {:induction false} ModelsAt(st: P.State, w: nat, first: nat, count: nat, q: nat)
    requires q < count
    ensures ModelsOf(st, w, first, count)[q]
            == P.Profile(P.Get(st.models, P.Key(w, first + q)), |st.order|)
  {
    if q < count - 1 {
      ModelsAt(st, w, first, count - 1, q);
    }
  }

  /** What a worker that runs these models without a failure publishes, phase by phase. */
  predicate Publishes(models: seq<W.Model>, targets: seq<seq<nat>>) {
    && |targets| == |models|
    && forall q | 0 <= q < |models| :: PublishesAt(models, targets, q)
  }

  predicate PublishesAt(models: seq<W.Model>, targets: seq<seq<nat>>, q: nat)
    requires q < |targets| == |models|
  {
    |targets[q]| == models[q].remotePublish && W.Follows(models[q].routes, targets[q])
  }

  predicate PlanOf(st: P.State, first: nat, count: nat, plan: Plan, targets: seq<seq<nat>>, w: nat)
  {
    var models := ModelsOf(st, w, first, count);
    Publishes(models, targets) && plan == Plan(W.Flat(targets), W.Remote(models))
  }

  /** What earlier phases sent to t and t has not freed. */
  predicate StartOf(st: P.State, first: nat, start: nat, t: nat) {
    start + P.FreesThrough(st.models, t, first)
    == P.RoutesThrough(st.models, |st.order|, first, t)
  }

  /** The wave over phases first .. first + count of a profile. */
  ghost predicate WaveOf(
    st: P.State, first: nat, count: nat, targets: seq<seq<seq<nat>>>, c: Wave)
  {
    && |targets| == |c.plans| == |c.start| == |st.order|
    && (forall w | 0 <= w < |c.plans| :: PlanOf(st, first, count, c.plans[w], targets[w], w))
    && forall t | 0 <= t < |c.start| :: StartOf(st, first, c.start[t], t)
  }

  // ------------------------------------------------------------------------------- sums

  /** Objects for t published by workers below m in these phases. */
  function Sent(st: P.State, m: nat, first: nat, count: nat, t: nat): nat {
    if count == 0 then 0
    else Sent(st, m, first, count - 1, t) + P.PhaseRoutes(st.models, m, first + count - 1, t)
  }

  ghost predicate Analyzed(events: seq<P.Event>, st: P.State) {
    (forall e | e in events :: IsAllocatorFunction(e.record.func)) && st == P.Analyze(events)
  }

  lemma {:induction false} ShareAdds(
    events: seq<P.Event>, st: P.State, m: nat, first: nat, count: nat, t: nat)
    requires Analyzed(events, st) && t < |st.order|
    ensures Sent(st, m + 1, first, count, t)
            == Sent(st, m, first, count, t) + W.Share(ModelsOf(st, m, first, count), t)
  {
    hide P.Analyze;
    if count > 0 {
      ShareAdds(events, st, m, first, count - 1, t);
      P.ProfileIsWellFormed(events, P.Key(m, first + count - 1), t);
      var models := ModelsOf(st, m, first, count);
      assert models[..count - 1] == ModelsOf(st, m, first, count - 1);
    }
  }

  lemma {:induction false} NobodySends(st: P.State, first: nat, count: nat, t: nat)
    ensures Sent(st, 0, first, count, t) == 0
  {
    if count > 0 {
      NobodySends(st, first, count - 1, t);
    }
  }

  lemma {:induction false} SentBetween(st: P.State, first: nat, count: nat, t: nat)
    ensures P.RoutesThrough(st.models, |st.order|, first + count, t)
            == P.RoutesThrough(st.models, |st.order|, first, t)
               + Sent(st, |st.order|, first, count, t)
  {
    if count > 0 {
      SentBetween(st, first, count - 1, t);
    }
  }

  lemma {:induction false} FreedBetween(st: P.State, first: nat, count: nat, t: nat)
    ensures P.FreesThrough(st.models, t, first + count)
            == P.FreesThrough(st.models, t, first) + W.Remote(ModelsOf(st, t, first, count))
  {
    if count > 0 {
      FreedBetween(st, first, count - 1, t);
      var models := ModelsOf(st, t, first, count);
      assert models[..count - 1] == ModelsOf(st, t, first, count - 1);
    }
  }

  /** What the first m plans send to t is what their profiles route there. */
  lemma {:induction false} PlannedIsSent(
    events: seq<P.Event>, st: P.State, first: nat, count: nat,
    targets: seq<seq<seq<nat>>>, c: Wave, t: nat, m: nat)
    requires Analyzed(events, st) && WaveOf(st, first, count, targets, c)
    requires t < |st.order| && m <= |c.plans|
    ensures PlannedFor(c, t, m) == Sent(st, m, first, count, t)
  {
    hide P.Analyze;
    if m == 0 {
      NobodySends(st, first, count, t);
    } else {
      var w := m - 1;
      PlannedIsSent(events, st, first, count, targets, c, t, w);
      ShareAdds(events, st, w, first, count, t);
      assert PlanOf(st, first, count, c.plans[w], targets[w], w);
      var models := ModelsOf(st, w, first, count);
      forall q | 0 <= q < |models|
        ensures Q.RouteTotal(models[q].routes) == models[q].remotePublish == |targets[w][q]|
        ensures W.Follows(models[q].routes, targets[w][q])
      {
        ModelsAt(st, w, first, count, q);
        P.ProfileIsWellFormed(events, P.Key(w, first + q), t);
        assert PublishesAt(models, targets[w], q);
      }
      W.PublishedShare(models, targets[w], t);
    }
  }

  // --------------------------------------------------------------------------- coverage

  /** Over the whole wave and all earlier ones, sent and freed by the profile. */
  lemma WaveFlow(
    events: seq<P.Event>, st: P.State, first: nat, count: nat,
    targets: seq<seq<seq<nat>>>, c: Wave, t: nat)
    requires Analyzed(events, st) && WaveOf(st, first, count, targets, c) && t < |c.plans|
    ensures c.start[t] + PlannedFor(c, t, |c.plans|) + P.FreesThrough(st.models, t, first + count)
            == P.RoutesThrough(st.models, |st.order|, first + count, t) + c.plans[t].frees
  {
    PlannedIsSent(events, st, first, count, targets, c, t, |c.plans|);
    SentBetween(st, first, count, t);
    FreedBetween(st, first, count, t);
    assert PlanOf(st, first, count, c.plans[t], targets[t], t);
    assert StartOf(st, first, c.start[t], t);
  }

  /** Every wave of a profile whose phases grow is covered. */
  lemma WaveIsCovered(
    events: seq<P.Event>, st: P.State, first: nat, count: nat,
    targets: seq<seq<seq<nat>>>, c: Wave)
    requires Analyzed(events, st) && P.PhasesGrow(events)
    requires WaveOf(st, first, count, targets, c)
    ensures Covered(c)
  {
    forall t | 0 <= t < |c.plans| ensures CoveredAt(c, t) {
      WaveFlow(events, st, first, count, targets, c, t);
      P.RoutesCoverFrees(events, t, first + count);
    }
  }

  /** A wave that ends without a failure leaves what the next one starts from. */
  lemma WaveHandsOver(
    events: seq<P.Event>, st: P.State, first: nat, count: nat, targets: seq<seq<seq<nat>>>,
    c: Wave, poolLasts: bool, run: seq<State>, t: nat)
    requires Analyzed(events, st) && WaveOf(st, first, count, targets, c) && WellFormed(c)
    requires IsRun(c, poolLasts, run) && t < |c.plans|
    requires var s := run[|run| - 1];
      !s.failed && |s.workers| == |c.plans|
      && forall w | 0 <= w < |c.plans| :: s.workers[w].stage.Finished?
    ensures |run[|run| - 1].stacks| == |c.plans|
    ensures StartOf(st, first + count, run[|run| - 1].stacks[t], t)
  {
    EndStacks(c, poolLasts, run, t);
    WaveFlow(events, st, first, count, targets, c, t);
  }

  // ----------------------------------------------------------------------- real targets

  predicate Away(st: P.State, k: P.Key) {
    k.thread !in P.Get(st.models, k).routes
  }

  lemma RecordKeepsAway(st: P.State, r: Record, phase: nat)
    requires P.Sized(st) && IsAllocatorFunction(r.func) && forall k: P.Key :: Away(st, k)
    ensures forall k: P.Key :: Away(P.Analyze1(st, r, phase), k)
  {
    var st' := P.Analyze1(st, r, phase);
    forall k: P.Key ensures Away(st', k) {
      assert Away(st, k);
    }
  }

  /** No thread's routes lead back to it. */
  lemma {:induction false} RoutesLeadAway(events: seq<P.Event>)
    requires forall e | e in events :: IsAllocatorFunction(e.record.func)
    ensures forall k: P.Key :: Away(P.Analyze(events), k)
  {
    if events != [] {
      var n := |events| - 1;
      RoutesLeadAway(events[..n]);
      RecordKeepsAway(P.Analyze(events[..n]), events[n].record, events[n].phase);
    }
  }

  lemma {:induction false} TargetIsRoute(routes: seq<Q.Route>, o: nat)
    requires Q.TargetOf(routes, o).Some?
    ensures exists r :: r in routes && r.target == Q.TargetOf(routes, o).value
  {
    var n := |routes| - 1;
    if o < Q.RouteTotal(routes[..n]) {
      TargetIsRoute(routes[..n], o);
      var r :| r in routes[..n] && r.target == Q.TargetOf(routes, o).value;
      assert r in routes;
    } else {
      assert routes[n] in routes;
    }
  }

  lemma {:induction false} ListedAreRoutes(routes: map<nat, nat>, n: nat)
    ensures forall r | r in P.RouteList(routes, n) :: r.target < n && r.target in routes
  {
    if n > 0 {
      ListedAreRoutes(routes, n - 1);
    }
  }

  /** A published object goes to another thread of the profile. */
  predicate GoesOut(targets: seq<nat>, w: nat, n: nat, k: nat)
    requires k < |targets|
  {
    targets[k] < n && targets[k] != w
  }

  lemma PhaseGoesOut(st: P.State, key: P.Key, targets: seq<nat>, k: nat)
    requires Away(st, key) && k < |targets|
    requires W.Follows(P.Profile(P.Get(st.models, key), |st.order|).routes, targets)
    ensures GoesOut(targets, key.thread, |st.order|, k)
  {
    var routes := P.Get(st.models, key).routes;
    TargetIsRoute(P.RouteList(routes, |st.order|), k);
    ListedAreRoutes(routes, |st.order|);
  }

  lemma {:induction false} FlatGoesOut(
    st: P.State, w: nat, first: nat, count: nat, targets: seq<seq<nat>>, k: nat)
    requires forall key: P.Key :: Away(st, key)
    requires Publishes(ModelsOf(st, w, first, count), targets) && k < |W.Flat(targets)|
    ensures GoesOut(W.Flat(targets), w, |st.order|, k)
  {
    var n := |targets| - 1;
    var models := ModelsOf(st, w, first, count);
    var before := W.Flat(targets[..n]);
    assert models[..n] == ModelsOf(st, w, first, count - 1);
    if k < |before| {
      forall q | 0 <= q < n ensures PublishesAt(models[..n], targets[..n], q) {
        assert PublishesAt(models, targets, q);
      }
      FlatGoesOut(st, w, first, count - 1, targets[..n], k);
    } else {
      ModelsAt(st, w, first, count, n);
      assert PublishesAt(models, targets, n) && Away(st, P.Key(w, first + n));
      PhaseGoesOut(st, P.Key(w, first + n), targets[n], k - |before|);
    }
  }

  lemma WaveIsWellFormed(
    events: seq<P.Event>, st: P.State, first: nat, count: nat,
    targets: seq<seq<seq<nat>>>, c: Wave)
    requires Analyzed(events, st) && WaveOf(st, first, count, targets, c)
    ensures WellFormed(c) && R.SendsAway(c)
  {
    RoutesLeadAway(events);
    forall w, k | 0 <= w < |c.plans| && 0 <= k < |c.plans[w].sends|
      ensures GoesOut(c.plans[w].sends, w, |c.plans|, k)
    {
      assert PlanOf(st, first, count, c.plans[w], targets[w], w);
      FlatGoesOut(st, w, first, count, targets[w], k);
    }
    forall w | 0 <= w < |c.plans| ensures SendsOk(c, w) {
      forall k | 0 <= k < |c.plans[w].sends| ensures c.plans[w].sends[k] < |c.plans| {
        assert GoesOut(c.plans[w].sends, w, |c.plans|, k);
      }
    }
    forall w, k | 0 <= w < |c.plans| && 0 <= k < |c.plans[w].sends|
      ensures c.plans[w].sends[k] != w
    {
      assert GoesOut(c.plans[w].sends, w, |c.plans|, k);
    }
  }

  /** In a profile's wave with descriptors to spare, every failure is a worker giving up on
      objects that are there, and one can happen if and only if some worker must wait for
      objects of this wave. */
  lemma ProfiledWaveFails(
    events: seq<P.Event>, st: P.State, first: nat, count: nat,
    targets: seq<seq<seq<nat>>>, c: Wave)
    requires Analyzed(events, st) && P.PhasesGrow(events)
    requires WaveOf(st, first, count, targets, c)
    ensures WellFormed(c) && Covered(c)
    ensures R.NeverFails(c) <==> forall t | 0 <= t < |c.plans| :: R.Supplied(c, t)
  {
    WaveIsCovered(events, st, first, count, targets, c);
    WaveIsWellFormed(events, st, first, count, targets, c);
    R.NeverFailsExactly(c);
  }
}
