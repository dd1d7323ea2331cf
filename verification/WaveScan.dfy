/** scan_layout in rply_to_mstress.py: a trace whose threads are created and joined in groups
    is divided into waves. A wave may only begin where every thread created so far has been
    joined or detached. */
module WaveScan {
  import opened Wrappers
  import opened NativeFormat
  import opened QuotaArithmetic
  import L = PhaseLayout

  const CREATE: nat := 100
  const START: nat := 101
  const END: nat := 102
  const JOIN: nat := 103
  const DETACH: nat := 104

  datatype Scan = Scan(
    allocators: nat, waves: seq<nat>, create: nat, start: nat, end: nat, join: nat, detach: nat)

  datatype ScanError = Unsupported(index: nat) | NoAllocatorEvents | Mismatch

  predicate IsSupported(r: Record) {
    IsAllocatorFunction(r.func) || IsLifecycleFunction(r.func)
  }

  /** How many records call f. */
  function Calls(records: seq<Record>, f: nat): nat {
    if records == [] then 0
    else
      var n := |records| - 1;
      Calls(records[..n], f) + if records[n].func == f then 1 else 0
  }

  function Allocators(records: seq<Record>): nat {
    if records == [] then 0
    else
      var n := |records| - 1;
      Allocators(records[..n]) + if IsAllocatorFunction(records[n].func) then 1 else 0
  }

  /** Threads created and neither joined nor detached since. */
  function Pending(records: seq<Record>): set<nat> {
    if records == [] then {}
    else
      var n := |records| - 1;
      var before, r := Pending(records[..n]), records[n];
      if r.func == CREATE && r.result != 0 then before + {r.result}
      else if r.func == JOIN || r.func == DETACH then before - {r.result}
      else before
  }

  /** Record i begins a wave: the first creation after all earlier threads are gone. */
  predicate IsCut(records: seq<Record>, i: nat)
    requires i < |records|
  {
    records[i].func == CREATE && Calls(records[..i], CREATE) > 0 && Pending(records[..i]) == {}
  }

  /** Allocator calls from one cut to the next. */
  function WaveCounts(records: seq<Record>): (waves: seq<nat>)
    ensures |waves| > 0
  {
    if records == [] then [0]
    else
      var n := |records| - 1;
      var before := WaveCounts(records[..n]);
      var last := |before| - 1;
      if IsAllocatorFunction(records[n].func) then before[last := before[last] + 1]
      else if IsCut(records, n) then before + [0]
      else before
  }

  // ------------------------------------------------------------------ what a cut guarantees

  /** Record j ends the thread that record i created. */
  predicate EndsThread(records: seq<Record>, i: nat, j: nat)
    requires i < |records| && j < |records|
  {
    i < j && (records[j].func == JOIN || records[j].func == DETACH)
    && records[j].result == records[i].result
  }

  predicate Creates(r: Record, thread: nat) {
    r.func == CREATE && r.result == thread && thread != 0
  }

  /** A created thread is pending or has been joined or detached since. */
  lemma {:induction false} GoneOrPending(records: seq<Record>, i: nat)
    requires i < |records| && Creates(records[i], records[i].result)
    ensures records[i].result in Pending(records)
            || exists j | 0 <= j < |records| :: EndsThread(records, i, j)
    decreases |records|
  {
    var n := |records| - 1;
    if i < n {
      GoneOrPending(records[..n], i);
      if j :| 0 <= j < n && EndsThread(records[..n], i, j) {
        assert EndsThread(records, i, j);
      } else if records[i].result !in Pending(records) {
        assert EndsThread(records, i, n);
      }
    }
  }

  /** And a pending thread was created and not joined or detached since. */
  lemma {:induction false} PendingIsRunning(records: seq<Record>, thread: nat)
    returns (i: nat)
    requires thread in Pending(records)
    ensures i < |records| && Creates(records[i], thread)
    ensures forall j | 0 <= j < |records| :: !EndsThread(records, i, j)
  {
    var n := |records| - 1;
    if Creates(records[n], thread) {
      i := n;
    } else {
      i := PendingIsRunning(records[..n], thread);
      forall j | 0 <= j < |records| ensures !EndsThread(records, i, j) {
        assert j < n ==> !EndsThread(records[..n], i, j);
      }
    }
  }

  /** Where a wave begins no thread created earlier is still running. */
  lemma CutsAreQuiet(records: seq<Record>, c: nat, i: nat) returns (j: nat)
    requires i < c < |records| && IsCut(records, c)
    requires Creates(records[i], records[i].result)
    ensures i < j < c && EndsThread(records, i, j)
  {
    GoneOrPending(records[..c], i);
    j :| 0 <= j < c && EndsThread(records[..c], i, j);
  }

  // -------------------------------------------------------------------------------- sums

  lemma {:induction false} WavesAddUp(records: seq<Record>)
    ensures Sum(WaveCounts(records)) == Allocators(records)
  {
    if records != [] {
      var n := |records| - 1;
      var before := WaveCounts(records[..n]);
      WavesAddUp(records[..n]);
      SumUpdate(before, |before| - 1, before[|before| - 1] + 1);
      assert (before + [0])[..|before|] == before;
    } else {
      assert Sum([0]) == Sum([]) + 0;
    }
  }

  function Positive(waves: seq<nat>): seq<nat> {
    if waves == [] then []
    else
      var n := |waves| - 1;
      Positive(waves[..n]) + if waves[n] != 0 then [waves[n]] else []
  }

  lemma {:induction false} PositiveAddsUp(waves: seq<nat>)
    ensures Sum(Positive(waves)) == Sum(waves) && L.AllPositive(Positive(waves))
  {
    if waves != [] {
      var n := |waves| - 1;
      PositiveAddsUp(waves[..n]);
      var init := Positive(waves[..n]);
      assert (init + [waves[n]])[..|init|] == init;
      assert init + [] == init;
    }
  }

  // -------------------------------------------------------------------------------- loop

  /** The waves of a trace: the cuts, or one wave when lifecycle events are missing. */
  function Waves(records: seq<Record>): seq<nat> {
    if Calls(records, CREATE) == 0 || Calls(records, JOIN) == 0 || Calls(records, DETACH) != 0
    then Positive([Allocators(records)])
    else Positive(WaveCounts(records))
  }

  lemma WavesAre(records: seq<Record>)
    ensures Waves(records) == Positive(
      if Calls(records, CREATE) == 0 || Calls(records, JOIN) == 0 || Calls(records, DETACH) != 0
      then [Allocators(records)] else WaveCounts(records))
  {}

  lemma WavesFit(records: seq<Record>)
    ensures Sum(Waves(records)) == Allocators(records) && L.AllPositive(Waves(records))
    ensures Allocators(records) > 0 ==> Waves(records) != []
  {
    WavesAddUp(records);
    PositiveAddsUp(WaveCounts(records));
    PositiveAddsUp([Allocators(records)]);
    assert Sum([Allocators(records)]) == Sum([]) + Allocators(records);
  }

  /** One more record in every specification function. */
  lemma Grows(records: seq<Record>, n: nat)
    requires n < |records|
    ensures var before, after, r := records[..n], records[..n + 1], records[n];
      && Allocators(after) == Allocators(before) + (if IsAllocatorFunction(r.func) then 1 else 0)
      && (forall f :: Calls(after, f) == Calls(before, f) + if r.func == f then 1 else 0)
      && Pending(after) == (
           if r.func == CREATE && r.result != 0 then Pending(before) + {r.result}
           else if r.func == JOIN || r.func == DETACH then Pending(before) - {r.result}
           else Pending(before))
      && WaveCounts(after) == Extended(WaveCounts(before), r,
           r.func == CREATE && Calls(before, CREATE) > 0 && Pending(before) == {})
  {
    assert records[..n + 1][..n] == records[..n] && records[..n + 1][n] == records[n];
  }

  /** The waves after one more record, which may begin a wave. */
  function Extended(waves: seq<nat>, r: Record, cut: bool): seq<nat>
    requires |waves| > 0
  {
    if IsAllocatorFunction(r.func) then waves[|waves| - 1 := waves[|waves| - 1] + 1]
    else if cut then waves + [0]
    else waves
  }

  lemma NothingScanned()
    ensures Allocators([]) == 0 && Pending([]) == {} && WaveCounts([]) == [0]
    ensures forall f :: Calls([], f) == 0
  {}

  method ScanLayout(records: seq<Record>) returns (r: Result<Scan, ScanError>)
    ensures (r.Failure? && r.error.Unsupported?)
            <==> exists i | 0 <= i < |records| :: !IsSupported(records[i])
    ensures r.Failure? && r.error.Unsupported? ==>
      var k := r.error.index;
      k < |records| && !IsSupported(records[k]) && forall i | 0 <= i < k :: IsSupported(records[i])
    ensures r == Failure(NoAllocatorEvents) <==>
      Allocators(records) == 0 && forall i | 0 <= i < |records| :: IsSupported(records[i])
    ensures r != Failure(Mismatch)
    ensures r.Success? ==>
      r.value == Scan(Allocators(records), Waves(records), Calls(records, CREATE),
                      Calls(records, START), Calls(records, END), Calls(records, JOIN),
                      Calls(records, DETACH))
  {
    hide Allocators, Calls, Pending, WaveCounts, Waves, Positive, Sum;
    NothingScanned();
    var allocators, create, start, end, join, detach := 0, 0, 0, 0, 0, 0;
    var waves: seq<nat> := [0];
    var pending: set<nat> := {};
    var hasChildren := false;
    assert records[..0] == [];
    for index := 0 to |records|
      invariant allocators == Allocators(records[..index])
      invariant waves == WaveCounts(records[..index])
      invariant pending == Pending(records[..index])
      invariant hasChildren == (create > 0)
      invariant create == Calls(records[..index], CREATE)
      invariant start == Calls(records[..index], START)
      invariant end == Calls(records[..index], END)
      invariant join == Calls(records[..index], JOIN)
      invariant detach == Calls(records[..index], DETACH)
      invariant forall i | 0 <= i < index :: IsSupported(records[i])
    {
      var record := records[index];
      Grows(records, index);
      if IsAllocatorFunction(record.func) {
        allocators := allocators + 1;
        waves := waves[|waves| - 1 := waves[|waves| - 1] + 1];
      } else if record.func == CREATE {
        create := create + 1;
        if hasChildren && pending == {} {
          waves := waves + [0];
        }
        hasChildren := true;
        if record.result != 0 {
          pending := pending + {record.result};
        }
      } else if record.func == START {
        start := start + 1;
      } else if record.func == END {
        end := end + 1;
      } else if record.func == JOIN {
        join := join + 1;
        pending := pending - {record.result};
      } else if record.func == DETACH {
        detach := detach + 1;
        pending := pending - {record.result};
      } else if !(100 <= record.func <= 104) {
        return Failure(Unsupported(index));
      }
    }
    assert records[..|records|] == records;
    if allocators == 0 {
      return Failure(NoAllocatorEvents);
    }
    if create == 0 || join == 0 || detach != 0 {
      waves := [allocators];
    }
    waves := KeepPositive(waves);
    WavesAre(records);
    WavesFit(records);
    if L.TotalOf(waves) != allocators {
      return Failure(Mismatch);
    }
    return Success(Scan(allocators, waves, create, start, end, join, detach));
  }

  method KeepPositive(waves: seq<nat>) returns (kept: seq<nat>)
    ensures kept == Positive(waves)
  {
    kept := [];
    for i := 0 to |waves|
      invariant kept == Positive(waves[..i])
    {
      assert waves[..i + 1][..i] == waves[..i];
      if waves[i] != 0 {
        kept := kept + [waves[i]];
      }
    }
    assert waves[..|waves|] == waves;
  }

  /** The scanned waves are what the phase distribution expects. */
  lemma ScanSuitsPhases(records: seq<Record>)
    requires Allocators(records) > 0
    ensures Waves(records) != [] && L.AllPositive(Waves(records)) && Sum(Waves(records)) > 0
  {
    WavesFit(records);
  }
}
