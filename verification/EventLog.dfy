/** The lock-free event log of malloc_free_hook.c as a state machine: a writer reserves a
    slot with one fetch-and-add, stores the event field by field and commits it by storing
    the slot's sequence last. Any state is a possible cut-off point. */
module EventLog {
  const U32: nat := 0x1_0000_0000

  datatype Event = Event(
    timestamp: nat, address: nat, result: nat, size: nat, pid: nat, tid: nat,
    kind: nat, flags: nat)

  const ZERO := Event(0, 0, 0, 0, 0, 0, 0, 0)

  /** A slot of the mapped file. */
  datatype Slot = Slot(event: Event, sequence: nat)

  const FIELDS: nat := 8

  datatype Writer =
    | Idle
    | Filling(index: nat, event: Event, written: nat)
    | Overflowing
    | Exited

  /** `committed` records which event each slot was committed with. */
  datatype Log = Log(
    nextIndex: nat, overflow: bool, slots: seq<Slot>, writers: seq<Writer>,
    committed: map<nat, Event>)

  /** The n-th store of commit_event. */
  function Store(was: Event, e: Event, n: nat): Event {
    match n
    case 0 => was.(timestamp := e.timestamp)
    case 1 => was.(address := e.address)
    case 2 => was.(result := e.result)
    case 3 => was.(size := e.size)
    case 4 => was.(pid := e.pid)
    case 5 => was.(tid := e.tid)
    case 6 => was.(kind := e.kind)
    case _ => was.(flags := e.flags)
  }

  /** The first n fields of a and b agree. */
  predicate Agree(a: Event, b: Event, n: nat) {
    && (n > 0 ==> a.timestamp == b.timestamp) && (n > 1 ==> a.address == b.address)
    && (n > 2 ==> a.result == b.result) && (n > 3 ==> a.size == b.size)
    && (n > 4 ==> a.pid == b.pid) && (n > 5 ==> a.tid == b.tid)
    && (n > 6 ==> a.kind == b.kind) && (n > 7 ==> a.flags == b.flags)
  }

  // ------------------------------------------------------------------------------ steps

  /** reserve_event_slot */
  predicate Reserve(s: Log, s': Log, t: nat, e: Event)
    requires t < |s.writers|
  {
    && s.writers[t].Idle?
    && s' == s.(nextIndex := s.nextIndex + 1,
                writers := s.writers[t := if s.nextIndex < |s.slots|
                                          then Filling(s.nextIndex, e, 0) else Overflowing])
  }

  predicate Fill(s: Log, s': Log, t: nat)
    requires t < |s.writers|
  {
    var w := s.writers[t];
    && w.Filling? && w.written < FIELDS && w.index < |s.slots|
    && s' == s.(writers := s.writers[t := w.(written := w.written + 1)],
                slots := s.slots[w.index := s.slots[w.index].(
                           event := Store(s.slots[w.index].event, w.event, w.written))])
  }

  predicate Commit(s: Log, s': Log, t: nat)
    requires t < |s.writers|
  {
    var w := s.writers[t];
    && w.Filling? && w.written == FIELDS && w.index < |s.slots|
    && s' == s.(writers := s.writers[t := Idle],
                slots := s.slots[w.index := s.slots[w.index].(
                           sequence := (w.index + 1) % U32)],
                committed := s.committed[w.index := w.event])
  }

  /** A full log: set the flag, then exit the whole process. */
  predicate Overflow(s: Log, s': Log, t: nat)
    requires t < |s.writers|
  {
    && s.writers[t].Overflowing?
    && s' == s.(overflow := true, writers := s.writers[t := Exited])
  }

  ghost predicate StepOf(s: Log, s': Log, t: nat)
    requires t < |s.writers|
  {
    (exists e :: Reserve(s, s', t, e)) || Fill(s, s', t) || Commit(s, s', t)
    || Overflow(s, s', t)
  }

  ghost predicate Step(s: Log, s': Log) {
    exists t: nat :: t < |s.writers| && StepOf(s, s', t)
  }

  /** A fresh mapping; its capacity fits a sequence number. */
  predicate Initial(s: Log) {
    && s.nextIndex == 0 && !s.overflow && s.committed == map[] && |s.slots| < U32
    && (forall i | 0 <= i < |s.slots| :: s.slots[i] == Slot(ZERO, 0))
    && forall t | 0 <= t < |s.writers| :: s.writers[t].Idle?
  }

  // -------------------------------------------------------------------------- invariant

  /** A slot is complete exactly when it is committed, and then holds its event whole. */
  predicate SlotOk(s: Log, i: nat)
    requires i < |s.slots|
  {
    if i in s.committed then
      s.slots[i] == Slot(s.committed[i], i + 1) && i < s.nextIndex
    else s.slots[i].sequence == 0
  }

  predicate WriterOk(s: Log, t: nat)
    requires t < |s.writers|
  {
    var w := s.writers[t];
    w.Filling? ==>
      && w.index < |s.slots| && w.index < s.nextIndex && w.index !in s.committed
      && w.written <= FIELDS && Agree(s.slots[w.index].event, w.event, w.written)
  }

  predicate Apart(s: Log, t: nat, u: nat)
    requires t < |s.writers| && u < |s.writers|
  {
    t != u && s.writers[t].Filling? && s.writers[u].Filling? ==>
      s.writers[t].index != s.writers[u].index
  }

  ghost predicate Inv(s: Log) {
    && |s.slots| < U32
    && (forall i | i in s.committed :: i < |s.slots|)
    && (forall i | 0 <= i < |s.slots| :: SlotOk(s, i))
    && (forall t | 0 <= t < |s.writers| :: WriterOk(s, t))
    && forall t, u | 0 <= t < |s.writers| && 0 <= u < |s.writers| :: Apart(s, t, u)
  }

  lemma KeepSlot(s: Log, s': Log, t: nat, i: nat)
    requires Inv(s) && t < |s.writers| && StepOf(s, s', t) && i < |s.slots|
    ensures |s'.slots| == |s.slots| && SlotOk(s', i)
  {
    hide Agree, Store;
    assert WriterOk(s, t) && SlotOk(s, i);
    if Commit(s, s', t) && i == s.writers[t].index {
      WholeEvent(s.slots[i].event, s.writers[t].event);
    }
  }

  lemma KeepWriter(s: Log, s': Log, t: nat, u: nat)
    requires Inv(s) && t < |s.writers| && StepOf(s, s', t) && u < |s.writers|
    ensures |s'.writers| == |s.writers| && |s'.slots| == |s.slots| && WriterOk(s', u)
  {
    hide Agree, Store;
    assert WriterOk(s, t) && WriterOk(s, u) && Apart(s, t, u);
    if s.nextIndex < |s.slots| {
      assert SlotOk(s, s.nextIndex);
      NothingWritten();
    }
    if Fill(s, s', t) {
      var w := s.writers[t];
      OneMoreField(s.slots[w.index].event, w.event, w.written);
    }
  }

  lemma KeepApart(s: Log, s': Log, t: nat, u: nat, v: nat)
    requires Inv(s) && t < |s.writers| && StepOf(s, s', t)
    requires u < |s.writers| == |s'.writers| && v < |s.writers|
    ensures Apart(s', u, v)
  {
    assert Apart(s, u, v) && WriterOk(s, u) && WriterOk(s, v);
  }

  lemma NothingWritten()
    ensures forall a, b :: Agree(a, b, 0)
  {}

  lemma OneMoreField(a: Event, b: Event, n: nat)
    requires Agree(a, b, n) && n < FIELDS
    ensures Agree(Store(a, b, n), b, n + 1)
  {}

  lemma StepKeeps(s: Log, s': Log)
    requires Inv(s) && Step(s, s')
    ensures Inv(s')
  {
    var t: nat :| t < |s.writers| && StepOf(s, s', t);
    assert WriterOk(s, t);
    KeepWriter(s, s', t, t);
    CommittedInRange(s, s', t);
    hide StepOf, SlotOk, WriterOk, Apart;
    forall i | 0 <= i < |s'.slots| ensures SlotOk(s', i) {
      KeepSlot(s, s', t, i);
    }
    forall u | 0 <= u < |s'.writers| ensures WriterOk(s', u) {
      KeepWriter(s, s', t, u);
    }
    forall u, v | 0 <= u < |s'.writers| && 0 <= v < |s'.writers| ensures Apart(s', u, v) {
      KeepApart(s, s', t, u, v);
    }
  }

  lemma CommittedInRange(s: Log, s': Log, t: nat)
    requires Inv(s) && t < |s.writers| && StepOf(s, s', t)
    ensures |s'.slots| == |s.slots| && forall i | i in s'.committed :: i < |s'.slots|
  {}

  lemma WholeEvent(a: Event, b: Event)
    requires Agree(a, b, FIELDS)
    ensures a == b
  {}

  ghost predicate IsRun(run: seq<Log>) {
    |run| > 0 && Initial(run[0]) && forall i | 0 <= i < |run| - 1 :: StepAt(run, i)
  }

  ghost predicate StepAt(run: seq<Log>, i: nat)
    requires i + 1 < |run|
  {
    Step(run[i], run[i + 1])
  }

  lemma {:induction false} RunInv(run: seq<Log>, i: nat)
    requires IsRun(run) && i < |run|
    ensures Inv(run[i])
  {
    if i > 0 {
      RunInv(run, i - 1);
      assert StepAt(run, i - 1);
      StepKeeps(run[i - 1], run[i]);
    }
  }

  /** Wherever the log is cut off, a slot's sequence is right exactly if the slot was
      committed, and then no field is torn. */
  lemma CommittedIsWhole(run: seq<Log>, i: nat, k: nat)
    requires IsRun(run) && i < |run| && k < |run[i].slots|
    ensures run[i].slots[k].sequence == (k + 1) % U32 <==> k in run[i].committed
    ensures k in run[i].committed ==> run[i].slots[k].event == run[i].committed[k]
  {
    RunInv(run, i);
    assert SlotOk(run[i], k);
  }
}
