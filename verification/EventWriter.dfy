/** The mapped event file of malloc_free_hook.c, changed in place by any number of writers.
    Every method is one atomic access of reserve_event_slot or commit_event and is proved to
    be a step of EventLog, so what EventLog proves holds for the file at any cut-off. */
module EventWriter {
  import opened Wrappers
  import opened EventLog

  class Mapping {
    const slots: array<Slot>
    const writers: array<Writer>
    var nextIndex: nat
    var overflow: bool
    ghost var committed: map<nat, Event>

    ghost function View(): Log
      reads this, slots, writers
    {
      Log(nextIndex, overflow, slots[..], writers[..], committed)
    }

    ghost predicate Valid()
      reads this, slots, writers
    {
      Inv(View())
    }

    /** A fresh file: all bytes zero. */
    constructor (capacity: nat, threads: nat)
      requires capacity < U32
      ensures Valid() && Initial(View()) && fresh(slots) && fresh(writers)
      ensures slots.Length == capacity && writers.Length == threads
    {
      slots := new Slot[capacity](_ => Slot(ZERO, 0));
      writers := new Writer[threads](_ => Idle);
      nextIndex := 0;
      overflow := false;
      committed := map[];
      new;
      FreshFile(View());
    }

    /** The fetch-and-add of reserve_event_slot and the comparison with the capacity. */
    method ReserveSlot(t: nat, e: Event) returns (index: Option<nat>)
      requires Valid() && t < writers.Length && writers[t].Idle?
      modifies this`nextIndex, writers
      ensures Valid() && Reserve(old(View()), View(), t, e)
      ensures index == if old(nextIndex) < slots.Length then Some(old(nextIndex)) else None
    {
      ghost var before := View();
      var claimed := nextIndex;
      nextIndex := nextIndex + 1;
      index := if claimed < slots.Length then Some(claimed) else None;
      writers[t] := if claimed < slots.Length then Filling(claimed, e, 0) else Overflowing;
      assert Reserve(before, View(), t, e);
      Keeps(before, View(), t);
    }

    /** The next field store of commit_event. */
    method StoreField(t: nat)
      requires Valid() && t < writers.Length
      requires writers[t].Filling? && writers[t].written < FIELDS
      modifies slots, writers
      ensures Valid() && Fill(old(View()), View(), t)
    {
      ghost var before := View();
      var w := writers[t];
      IndexInFile(t);
      StoreNext(w.index, w.event, w.written);
      writers[t] := w.(written := w.written + 1);
      assert Fill(before, View(), t);
      Keeps(before, View(), t);
    }

    method StoreNext(index: nat, e: Event, written: nat)
      requires index < slots.Length && written < FIELDS
      modifies slots
      ensures slots[..] == old(slots[..])[index := old(slots[index]).(
                             event := Store(old(slots[index].event), e, written))]
    {
      var was := slots[index].event;
      var now := match written
        case 0 => was.(timestamp := e.timestamp)
        case 1 => was.(address := e.address)
        case 2 => was.(result := e.result)
        case 3 => was.(size := e.size)
        case 4 => was.(pid := e.pid)
        case 5 => was.(tid := e.tid)
        case 6 => was.(kind := e.kind)
        case _ => was.(flags := e.flags);
      slots[index] := slots[index].(event := now);
    }

    /** The sequence store that commits the event. */
    method StoreSequence(t: nat)
      requires Valid() && t < writers.Length
      requires writers[t].Filling? && writers[t].written == FIELDS
      modifies this`committed, slots, writers
      ensures Valid() && Commit(old(View()), View(), t)
    {
      ghost var before := View();
      var w := writers[t];
      IndexInFile(t);
      slots[w.index] := slots[w.index].(sequence := (w.index + 1) % U32);
      writers[t] := Idle;
      committed := committed[w.index := w.event];
      assert Commit(before, View(), t);
      Keeps(before, View(), t);
    }

    /** A full file: the flag is set before the process exits. */
    method FlagOverflow(t: nat)
      requires Valid() && t < writers.Length && writers[t].Overflowing?
      modifies this`overflow, writers
      ensures Valid() && Overflow(old(View()), View(), t)
    {
      ghost var before := View();
      overflow := true;
      writers[t] := Exited;
      assert Overflow(before, View(), t);
      Keeps(before, View(), t);
    }

    lemma IndexInFile(t: nat)
      requires Valid() && t < writers.Length && writers[t].Filling?
      ensures writers[t].index < slots.Length
    {
      assert WriterOk(View(), t);
    }
  }

  lemma FreshFile(s: Log)
    requires Initial(s)
    ensures Inv(s)
  {}

  lemma Keeps(s: Log, s': Log, t: nat)
    requires Inv(s) && t < |s.writers| && StepOf(s, s', t)
    ensures Inv(s')
  {
    assert Step(s, s');
    StepKeeps(s, s');
  }
}
