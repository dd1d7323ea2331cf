/** bin_to_rply.c: the conversion of an event log, cut off anywhere, into a replay file. The
    reference is the set of committed events, not the bytes. */
module RplyConverter {
  import opened Wrappers
  import opened EventLog
  import NativeFormat

  const FUNCTION_COUNT: nat := 10
  const THREAD_CREATE: nat := 100
  const THREAD_DETACH: nat := 104
  const PROCESS_START: nat := 1000
  const ENTRY_WORDS: nat := 6

  /** What fread sees: the header's fields and the slots present in the file. */
  datatype Bin = Bin(nextIndex: nat, overflow: bool, capacity: nat, slots: seq<Slot>)

  datatype Entry = Entry(
    timestamp: nat, funcAndCpu: nat, tid: nat, address: nat, result: nat, size: nat)

  datatype Rply = Rply(
    indexWords: nat, entries: seq<Entry>, pid: nat, skippedPid: nat, skippedMetadata: nat,
    skippedIncomplete: nat, skippedUnknown: nat)

  datatype ConvertError =
    | Overflowed
    | CountExceedsCapacity
    | Truncated(index: nat)
    | NothingConverted
    | CountOverflow

  predicate KnownType(kind: nat) {
    kind < FUNCTION_COUNT || THREAD_CREATE <= kind <= THREAD_DETACH
  }

  /** convert_event */
  function ConvertEvent(e: Event): Option<Entry> {
    if e.kind >= FUNCTION_COUNT && (e.kind < THREAD_CREATE || e.kind > THREAD_DETACH) then None
    else Some(Entry(e.timestamp, e.kind * U32, e.tid, e.address, e.result, e.size))
  }

  // -------------------------------------------------------------------------- reference

  /** Committed events by slot. */
  type Committed = map<nat, Event>

  /** The process chosen after the first n slots: the one asked for, or (for zero) the one
      whose start event comes first. */
  function ChosenPid(events: Committed, requested: nat, n: nat): nat {
    if requested != 0 then requested
    else if n == 0 then 0
    else
      var before := ChosenPid(events, requested, n - 1);
      if before == 0 && n - 1 in events && events[n - 1].kind == PROCESS_START
      then events[n - 1].pid
      else before
  }

  /** The event in slot i belongs in the file. */
  predicate Belongs(events: Committed, requested: nat, i: nat) {
    && i in events && KnownType(events[i].kind)
    && events[i].pid == ChosenPid(events, requested, i + 1) != 0
  }

  /** The places that belong, in slot order. */
  function Places(events: Committed, requested: nat, n: nat): (r: seq<nat>)
    ensures forall k | 0 <= k < |r| :: r[k] < n && Belongs(events, requested, r[k])
    ensures forall i | 0 <= i < n && Belongs(events, requested, i) :: i in r
    ensures forall j, k | 0 <= j < k < |r| :: r[j] < r[k]
  {
    if n == 0 then []
    else
      Places(events, requested, n - 1)
        + if Belongs(events, requested, n - 1) then [n - 1] else []
  }

  /** Why the event in slot i is not in the file. */
  datatype Reason = Incomplete | OtherProcess | Metadata | UnknownType

  predicate SkippedFor(events: Committed, requested: nat, i: nat, reason: Reason) {
    match reason
    case Incomplete => i !in events
    case OtherProcess =>
      i in events && (ChosenPid(events, requested, i + 1) == 0
                      || events[i].pid != ChosenPid(events, requested, i + 1))
    case Metadata =>
      && i in events && events[i].kind == PROCESS_START
      && events[i].pid == ChosenPid(events, requested, i + 1) != 0
    case UnknownType =>
      && i in events && !KnownType(events[i].kind) && events[i].kind != PROCESS_START
      && events[i].pid == ChosenPid(events, requested, i + 1) != 0
  }

  function Skipped(events: Committed, requested: nat, n: nat, reason: Reason): nat {
    if n == 0 then 0
    else
      Skipped(events, requested, n - 1, reason)
        + if SkippedFor(events, requested, n - 1, reason) then 1 else 0
  }

  function EntryOf(e: Event): Entry {
    Entry(e.timestamp, e.kind * U32, e.tid, e.address, e.result, e.size)
  }

  /** The entries are the events at those places, unchanged and in order. */
  predicate Lists(events: Committed, requested: nat, n: nat, entries: seq<Entry>) {
    var places := Places(events, requested, n);
    && |entries| == |places|
    && forall k | 0 <= k < |places| ::
         places[k] in events && entries[k] == EntryOf(events[places[k]])
  }

  /** The event in slot n is skipped for one reason, and counted once. */
  lemma SkipSlot(events: Committed, requested: nat, n: nat, reason: Reason,
                 entries: seq<Entry>)
    requires SkippedFor(events, requested, n, reason) && Lists(events, requested, n, entries)
    ensures Lists(events, requested, n + 1, entries)
    ensures forall r :: Skipped(events, requested, n + 1, r)
                        == Skipped(events, requested, n, r) + if r == reason then 1 else 0
  {
    forall r ensures SkippedFor(events, requested, n, r) <==> r == reason {}
  }

  /** The event in slot n goes to the file, and is not counted as skipped. */
  lemma KeepSlot(events: Committed, requested: nat, n: nat, entries: seq<Entry>)
    requires Belongs(events, requested, n) && events[n].kind != PROCESS_START
    requires Lists(events, requested, n, entries)
    ensures Lists(events, requested, n + 1, entries + [EntryOf(events[n])])
    ensures forall r :: Skipped(events, requested, n + 1, r) == Skipped(events, requested, n, r)
  {
    forall r ensures !SkippedFor(events, requested, n, r) {}
  }

  /** The file shows exactly the committed events. */
  ghost predicate Shows(bin: Bin, events: Committed) {
    && bin.capacity < U32
    && (forall i | i in events :: i < bin.capacity)
    && forall i | 0 <= i < |bin.slots| ::
         && (bin.slots[i].sequence == (i + 1) % U32 <==> i in events)
         && (i in events ==> bin.slots[i].event == events[i])
  }

  // ----------------------------------------------------------------------- the conversion

  lemma NothingYet(events: Committed, requested: nat)
    ensures Lists(events, requested, 0, [])
    ensures forall r :: Skipped(events, requested, 0, r) == 0
  {}

  lemma ListLength(events: Committed, requested: nat, n: nat, entries: seq<Entry>)
    requires Lists(events, requested, n, entries)
    ensures |entries| == |Places(events, requested, n)|
  {}

  method Convert(bin: Bin, requested: nat, ghost events: Committed)
    returns (r: Result<Rply, ConvertError>)
    requires Shows(bin, events)
    ensures bin.overflow <==> r == Failure(Overflowed)
    ensures r == Failure(CountExceedsCapacity) <==> !bin.overflow && bin.nextIndex > bin.capacity
    ensures !bin.overflow && bin.nextIndex <= bin.capacity ==>
      (r.Failure? && r.error.Truncated? <==> |bin.slots| < bin.nextIndex)
    ensures !bin.overflow && bin.nextIndex <= bin.capacity && bin.nextIndex <= |bin.slots| ==>
      (r == Failure(NothingConverted) <==> Places(events, requested, bin.nextIndex) == [])
    ensures r != Failure(CountOverflow)
    ensures r.Success? ==>
      && Lists(events, requested, bin.nextIndex, r.value.entries)
      && r.value.pid == ChosenPid(events, requested, bin.nextIndex)
      && r.value.indexWords == ENTRY_WORDS * |r.value.entries|
      && r.value.skippedIncomplete == Skipped(events, requested, bin.nextIndex, Incomplete)
      && r.value.skippedPid == Skipped(events, requested, bin.nextIndex, OtherProcess)
      && r.value.skippedMetadata == Skipped(events, requested, bin.nextIndex, Metadata)
      && r.value.skippedUnknown == Skipped(events, requested, bin.nextIndex, UnknownType)
      && |r.value.entries| + r.value.skippedPid + r.value.skippedMetadata
         + r.value.skippedIncomplete + r.value.skippedUnknown == bin.nextIndex
  {
    hide Skipped, Lists;
    NothingYet(events, requested);
    if bin.overflow {
      return Failure(Overflowed);
    }
    if bin.nextIndex > bin.capacity || bin.nextIndex > NativeFormat.U32_MAX {
      return Failure(CountExceedsCapacity);
    }
    var pid := requested;
    var entries: seq<Entry> := [];
    var skippedPid, skippedMetadata, skippedIncomplete, skippedUnknown := 0, 0, 0, 0;
    for index := 0 to bin.nextIndex
      invariant index <= |bin.slots|
      invariant pid == ChosenPid(events, requested, index)
      invariant Lists(events, requested, index, entries)
      invariant skippedIncomplete == Skipped(events, requested, index, Incomplete)
      invariant skippedPid == Skipped(events, requested, index, OtherProcess)
      invariant skippedMetadata == Skipped(events, requested, index, Metadata)
      invariant skippedUnknown == Skipped(events, requested, index, UnknownType)
      invariant |entries| + skippedPid + skippedMetadata + skippedIncomplete + skippedUnknown
                == index
    {
      if index >= |bin.slots| {
        return Failure(Truncated(index));
      }
      var slot := bin.slots[index];
      if slot.sequence != (index + 1) % U32 {
        SkipSlot(events, requested, index, Incomplete, entries);
        skippedIncomplete := skippedIncomplete + 1;
        continue;
      }
      if requested == 0 && pid == 0 && slot.event.kind == PROCESS_START {
        pid := slot.event.pid;
      }
      if pid == 0 || slot.event.pid != pid {
        SkipSlot(events, requested, index, OtherProcess, entries);
        skippedPid := skippedPid + 1;
        continue;
      }
      if slot.event.kind == PROCESS_START {
        SkipSlot(events, requested, index, Metadata, entries);
        skippedMetadata := skippedMetadata + 1;
        continue;
      }
      var entry := ConvertEvent(slot.event);
      if entry.None? {
        SkipSlot(events, requested, index, UnknownType, entries);
        skippedUnknown := skippedUnknown + 1;
        continue;
      }
      KeepSlot(events, requested, index, entries);
      entries := entries + [entry.value];
    }
    ListLength(events, requested, bin.nextIndex, entries);
    if |entries| == 0 {
      return Failure(NothingConverted);
    }
    if |entries| > NativeFormat.U64_MAX / ENTRY_WORDS {
      return Failure(CountOverflow);
    }
    return Success(Rply(|entries| * ENTRY_WORDS, entries, pid, skippedPid, skippedMetadata,
                        skippedIncomplete, skippedUnknown));
  }

  /** The file as it stands when a run of the writers is cut off. */
  function CutOff(s: Log): Bin {
    Bin(s.nextIndex, s.overflow, |s.slots|, s.slots)
  }

  /** At every cut-off point of every run the file shows exactly the committed events, so
      the conversion lists those of the chosen process, whole and in slot order. */
  lemma CutOffShows(run: seq<Log>, i: nat)
    requires IsRun(run) && i < |run|
    ensures Shows(CutOff(run[i]), run[i].committed)
  {
    RunInv(run, i);
    var bin, s := CutOff(run[i]), run[i];
    forall k | 0 <= k < |bin.slots|
      ensures bin.slots[k].sequence == (k + 1) % U32 <==> k in s.committed
      ensures k in s.committed ==> bin.slots[k].event == s.committed[k]
    {
      CommittedIsWhole(run, i, k);
    }
  }

  /** A committed slot is counted, so nothing committed lies beyond the converter's loop
      unless the log overflowed. */
  lemma CommittedIsCounted(run: seq<Log>, i: nat, k: nat)
    requires IsRun(run) && i < |run| && k in run[i].committed
    ensures k < run[i].nextIndex
  {
    RunInv(run, i);
    assert SlotOk(run[i], k);
  }
}
