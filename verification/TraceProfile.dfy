/** The two passes of rply_to_mstress.py over one trace: the scanned waves, the phases dealt
    out to them, and the analysis that places every allocator call in its phase. */
module TraceProfile {
  import opened NativeFormat
  import opened QuotaArithmetic
  import L = PhaseLayout
  import P = ProfileAnalysis
  import S = WaveScan

  /** A division of the trace's allocator calls into waves and of each wave into phases. */
  ghost predicate Layout(records: seq<Record>, waves: seq<nat>, phases: seq<nat>) {
    && |waves| == |phases| && L.AllPositive(waves) && L.AllPositive(phases)
    && S.Allocators(records) <= Sum(waves)
  }

  /** The allocator calls in order, each in the phase of its position. */
  function Phased(records: seq<Record>, waves: seq<nat>, phases: seq<nat>): (es: seq<P.Event>)
    requires Layout(records, waves, phases)
    ensures |es| == S.Allocators(records)
    ensures forall i | 0 <= i < |es| ::
      IsAllocatorFunction(es[i].record.func) && es[i].phase == L.PhaseOf(waves, phases, i)
  {
    if records == [] then []
    else
      var n := |records| - 1;
      var before := Phased(records[..n], waves, phases);
      if IsAllocatorFunction(records[n].func) then
        before + [P.Event(records[n], L.PhaseOf(waves, phases, |before|))]
      else before
  }

  lemma PhasedGrow(records: seq<Record>, waves: seq<nat>, phases: seq<nat>)
    requires Layout(records, waves, phases)
    ensures P.PhasesGrow(Phased(records, waves, phases))
  {
    var es := Phased(records, waves, phases);
    forall i, j | 0 <= i < j < |es| ensures es[i].phase <= es[j].phase {
      L.PhasesNondecreasing(waves, phases, i, j);
    }
  }

  /** The e-th call of wave w. */
  lemma {:induction false} PhaseAt(waves: seq<nat>, phases: seq<nat>, w: nat, e: nat)
    requires |waves| == |phases| && L.AllPositive(waves) && L.AllPositive(phases)
    requires w < |waves| && e < waves[w]
    ensures Sum(waves[..w]) + e < Sum(waves)
    ensures L.PhaseOf(waves, phases, Sum(waves[..w]) + e)
            == Sum(phases[..w]) + L.PhaseInWave(e, waves[w], phases[w])
  {
    hide L.PhaseInWave;
    var n := |waves| - 1;
    if w < n {
      PhaseAt(waves[..n], phases[..n], w, e);
      assert waves[..n][..w] == waves[..w] && phases[..n][..w] == phases[..w];
    }
  }

  method PhaseOffsets(phases: seq<nat>) returns (offsets: seq<nat>)
    ensures |offsets| == |phases|
    ensures forall w | 0 <= w < |phases| :: offsets[w] == Sum(phases[..w])
  {
    offsets := [];
    var next := 0;
    for w := 0 to |phases|
      invariant |offsets| == w && next == Sum(phases[..w])
      invariant forall v | 0 <= v < w :: offsets[v] == Sum(phases[..v])
    {
      offsets := offsets + [next];
      assert phases[..w + 1][..w] == phases[..w];
      next := next + phases[w];
    }
  }

  /** What is left of the waves: call number i is call e of wave w. */
  predicate Cursor(waves: seq<nat>, i: nat, w: nat, e: nat) {
    w < |waves| && e <= waves[w] && i == Sum(waves[..w]) + e
  }

  /** A wave that is used up is followed by another as long as calls are left. */
  lemma NextWave(waves: seq<nat>, i: nat, w: nat, e: nat)
    requires L.AllPositive(waves) && Cursor(waves, i, w, e) && e >= waves[w] && i < Sum(waves)
    ensures Cursor(waves, i, w + 1, 0) && waves[w + 1] > 0
  {
    assert waves[..w + 1][..w] == waves[..w] && waves[..|waves|] == waves;
  }

  /** The phase of the next call, with the cursor moved past it. */
  method NextPhase(
    waves: seq<nat>, phases: seq<nat>, offsets: seq<nat>, ghost i: nat, wave: nat, event: nat)
    returns (phase: nat, wave': nat, event': nat)
    requires |waves| == |phases| == |offsets| && L.AllPositive(waves) && L.AllPositive(phases)
    requires forall w | 0 <= w < |phases| :: offsets[w] == Sum(phases[..w])
    requires Cursor(waves, i, wave, event) && i < Sum(waves)
    ensures phase == L.PhaseOf(waves, phases, i) && Cursor(waves, i + 1, wave', event')
  {
    wave', event' := wave, event;
    while event' >= waves[wave']
      invariant Cursor(waves, i, wave', event')
      decreases |waves| - wave'
    {
      NextWave(waves, i, wave', event');
      wave', event' := wave' + 1, 0;
    }
    PhaseAt(waves, phases, wave', event');
    phase := offsets[wave'] + L.PhaseInWave(event', waves[wave'], phases[wave']);
    event' := event' + 1;
  }

  /** analyze: skips other records, moves from wave to wave, and puts every allocator call in
      the phase of its position. The count of the first pass is checked against. */
  method AnalyzeTrace(records: seq<Record>, allocators: nat, waves: seq<nat>, phases: seq<nat>)
    returns (profile: P.Analyzer, same: bool)
    requires Layout(records, waves, phases) && waves != []
    ensures fresh(profile) && profile.View() == P.Analyze(Phased(records, waves, phases))
    ensures same <==> S.Allocators(records) == allocators
  {
    hide L.AllPositive, P.Analyze, P.Analyze1, P.Sized, Cursor, S.Allocators, Sum;
    var offsets := PhaseOffsets(phases);
    profile := new P.Analyzer();
    var eventIndex, wave, waveEvent := 0, 0, 0;
    Nothing(records, waves, phases);
    assert records[..0] == [];
    for index := 0 to |records|
      invariant fresh(profile)
      invariant eventIndex == S.Allocators(records[..index])
      invariant Cursor(waves, eventIndex, wave, waveEvent)
      invariant Layout(records[..index], waves, phases)
      invariant profile.View() == P.Analyze(Phased(records[..index], waves, phases))
    {
      var record := records[index];
      OneMore(records, waves, phases, index);
      if IsAllocatorFunction(record.func) {
        var phase;
        phase, wave, waveEvent := NextPhase(waves, phases, offsets, eventIndex, wave, waveEvent);
        eventIndex := eventIndex + 1;
        profile.Record(record, phase);
      }
    }
    assert records[..|records|] == records;
    same := eventIndex == allocators;
  }

  lemma Nothing(records: seq<Record>, waves: seq<nat>, phases: seq<nat>)
    requires Layout(records, waves, phases) && waves != []
    ensures Layout([], waves, phases)
    ensures S.Allocators([]) == 0
    ensures P.Analyze([]) == P.INITIAL && Phased([], waves, phases) == [] && Cursor(waves, 0, 0, 0)
  {}

  /** One more record. */
  lemma OneMore(records: seq<Record>, waves: seq<nat>, phases: seq<nat>, n: nat)
    requires Layout(records, waves, phases) && n < |records|
    requires Layout(records[..n], waves, phases)
    ensures S.Allocators(records[..n + 1]) <= S.Allocators(records)
    ensures Layout(records[..n + 1], waves, phases)
    ensures var before := Phased(records[..n], waves, phases);
      if IsAllocatorFunction(records[n].func) then
        && S.Allocators(records[..n + 1]) == S.Allocators(records[..n]) + 1 <= Sum(waves)
        && P.Sized(P.Analyze(before))
        && P.Analyze(Phased(records[..n + 1], waves, phases))
           == P.Analyze1(P.Analyze(before), records[n], L.PhaseOf(waves, phases, |before|))
      else
        && S.Allocators(records[..n + 1]) == S.Allocators(records[..n])
        && Phased(records[..n + 1], waves, phases) == before
  {
    var shorter, longer := records[..n], records[..n + 1];
    assert longer[..n] == shorter && longer[n] == records[n];
    FewerAllocators(records, n + 1);
    var before, after := Phased(shorter, waves, phases), Phased(longer, waves, phases);
    if IsAllocatorFunction(records[n].func) {
      assert after[..|before|] == before;
    }
  }

  lemma {:induction false} FewerAllocators(records: seq<Record>, n: nat)
    requires n <= |records|
    ensures S.Allocators(records[..n]) <= S.Allocators(records)
    decreases |records|
  {
    if n < |records| {
      var m := |records| - 1;
      FewerAllocators(records[..m], n);
      assert records[..m][..n] == records[..n];
    } else {
      assert records[..n] == records;
    }
  }

  /** For the waves of the first pass and any phases dealt out to them, the profile sends
      every thread at least as many objects through any phase as it frees remotely, and in
      the end exactly as many. */
  lemma TraceRoutesCoverFrees(records: seq<Record>, phases: seq<nat>, t: nat, p: nat)
    requires |phases| == |S.Waves(records)| && L.AllPositive(phases)
    ensures Layout(records, S.Waves(records), phases)
    ensures var st := P.Analyze(Phased(records, S.Waves(records), phases));
      && P.FreesThrough(st.models, t, p) <= P.RoutesThrough(st.models, |st.order|, p, t)
      && (p >= Sum(phases) ==>
            P.FreesThrough(st.models, t, p) == P.RoutesThrough(st.models, |st.order|, p, t))
  {
    hide L.PhaseOf, P.Analyze, S.Waves, P.FreesThrough, P.RoutesThrough;
    var waves := S.Waves(records);
    S.WavesFit(records);
    PhasedGrow(records, waves, phases);
    var es := Phased(records, waves, phases);
    P.RoutesCoverFrees(es, t, p);
    if es != [] {
      assert P.LastPhase(es) == L.PhaseOf(waves, phases, |es| - 1) < Sum(phases);
    } else {
      NoEvents(t, p);
    }
  }

  lemma NoEvents(t: nat, p: nat)
    ensures var st := P.Analyze([]);
      P.FreesThrough(st.models, t, p) == P.RoutesThrough(st.models, |st.order|, p, t) == 0
  {
    P.NoFlow(p, t);
  }
}
