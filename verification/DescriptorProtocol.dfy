/** The descriptors of synthetic_mstress_runtime.c as a state machine. Every access to a
    shared word is a step of its own: a stack is popped by loading its tagged head, reading
    the link of the top descriptor and comparing-and-swapping the head, and pushed by
    loading the head, writing the link and comparing-and-swapping. Random choices, the
    profile's targets and the allocator's answers are arbitrary. */
module DescriptorProtocol {
  import opened Wrappers

  const TAGS: nat := 0x1_0000_0000

  /** make_head: a wrapping 32-bit tag and the index of the top descriptor plus one. */
  datatype Head = Head(tag: nat, plusOne: nat)

  datatype Kind = Recycled | Inbound

  /** The descriptors a worker owns: object_first and the profile's capacity. */
  datatype Range = Range(first: nat, capacity: nat)

  /** What a worker is doing. `d` is a descriptor it has in hand. */
  datatype Control =
    | Idle
    | PopLoaded(kind: Kind, seen: Head)
    | PopRead(kind: Kind, seen: Head, below: nat)
    | Took(d: nat)
    | Freeing(d: nat)
    | Freed(d: nat)
    | Pushing(target: nat, kind: Kind, d: nat)
    | PushLoaded(target: nat, kind: Kind, d: nat, seen: Head)
    | PushLinked(target: nat, kind: Kind, d: nat, seen: Head)

  datatype Worker = Worker(
    control: Control, localFree: nat, issued: nat, local: seq<nat>,
    recycled: Head, inbound: Head)

  datatype State = State(
    next: seq<nat>, owner: seq<nat>, pointer: seq<nat>, heap: set<nat>, failed: bool,
    workers: seq<Worker>)

  function Top(s: State, w: nat, kind: Kind): Head
    requires w < |s.workers|
  {
    if kind.Recycled? then s.workers[w].recycled else s.workers[w].inbound
  }

  function WithTop(worker: Worker, kind: Kind, head: Head): Worker {
    if kind.Recycled? then worker.(recycled := head) else worker.(inbound := head)
  }

  function At(s: State, w: nat, c: Control): State
    requires w < |s.workers|
  {
    s.(workers := s.workers[w := s.workers[w].(control := c)])
  }

  function Bumped(head: Head, plusOne: nat): Head {
    Head((head.tag + 1) % TAGS, plusOne)
  }

  /** local_remove: the last entry fills the hole. */
  function LocalRemove(local: seq<nat>, position: nat): seq<nat>
    requires position < |local|
  {
    var n := |local| - 1;
    if position == n then local[..n] else local[..n][position := local[n]]
  }

  // ------------------------------------------------------------------------ steps

  /** take_descriptor finds its private free list non-empty. */
  predicate TakePrivate(s: State, s': State, w: nat)
    requires w < |s.workers|
  {
    var me := s.workers[w];
    && me.control.Idle? && 0 < me.localFree <= |s.next|
    && s' == s.(workers := s.workers[w := me.(localFree := s.next[me.localFree - 1],
                                              control := Took(me.localFree - 1))])
  }

  /** The head load of stack_pop, on its own recycled stack or on its own inbound stack. */
  predicate PopLoad(s: State, s': State, w: nat, kind: Kind)
    requires w < |s.workers|
  {
    && s.workers[w].control.Idle?
    && (kind.Recycled? ==> s.workers[w].localFree == 0)
    && s' == At(s, w, PopLoaded(kind, Top(s, w, kind)))
  }

  /** stack_pop saw an empty stack: take_descriptor issues a new descriptor or fails; a
      remote free is deferred. */
  predicate PopEmpty(ranges: seq<Range>, s: State, s': State, w: nat)
    requires w < |s.workers| == |ranges|
  {
    var me := s.workers[w];
    && me.control.PopLoaded? && me.control.seen.plusOne == 0
    && s' == (
         if me.control.kind.Inbound? then At(s, w, Idle)
         else if me.issued < ranges[w].capacity then
           s.(workers := s.workers[w := me.(issued := me.issued + 1,
                                            control := Took(ranges[w].first + me.issued))])
         else At(s, w, Idle).(failed := true))
  }

  predicate PopReadLink(s: State, s': State, w: nat)
    requires w < |s.workers|
  {
    var c := s.workers[w].control;
    && c.PopLoaded? && 0 < c.seen.plusOne <= |s.next|
    && s' == At(s, w, PopRead(c.kind, c.seen, s.next[c.seen.plusOne - 1]))
  }

  predicate PopSwap(s: State, s': State, w: nat)
    requires w < |s.workers|
  {
    var me := s.workers[w];
    var c := me.control;
    && c.PopRead? && 0 < c.seen.plusOne && Top(s, w, c.kind) == c.seen
    && var taken := if c.kind.Recycled? then Took(c.seen.plusOne - 1)
                    else Freeing(c.seen.plusOne - 1);
       s' == s.(workers := s.workers[w := WithTop(me, c.kind, Bumped(c.seen, c.below))
                                            .(control := taken)])
  }

  /** A failed (possibly spuriously) compare-and-swap reloads the head. */
  predicate PopRetry(s: State, s': State, w: nat)
    requires w < |s.workers|
  {
    var c := s.workers[w].control;
    c.PopRead? && s' == At(s, w, PopLoaded(c.kind, Top(s, w, c.kind)))
  }

  /** The allocation of run_alloc_call: NULL or a new object. The object is kept or sent. */
  predicate Allocate(s: State, s': State, w: nat, raw: nat, target: Option<nat>)
    requires w < |s.workers|
  {
    var me := s.workers[w];
    && me.control.Took? && me.control.d < |s.pointer| == |s.owner|
    && raw !in s.heap
    && (target.Some? ==> target.value < |s.workers|)
    && var d := me.control.d;
       s' == s.(heap := if raw == 0 then s.heap else s.heap + {raw},
                pointer := s.pointer[d := raw], owner := s.owner[d := w],
                workers := s.workers[w :=
                  if target.Some? then me.(control := Pushing(target.value, Inbound, d))
                  else me.(control := Idle, local := me.local + [d])])
  }

  /** The realloc branch of run_alloc_call on a kept object: the call fails and the object
      stays, or its pointer is replaced (by NULL when the size was zero). */
  predicate Reallocate(s: State, s': State, w: nat, position: nat, raw: nat, refused: bool)
    requires w < |s.workers|
  {
    var me := s.workers[w];
    && me.control.Idle? && position < |me.local| && me.local[position] < |s.pointer|
    && var d := me.local[position];
       && (refused ==> s' == s)
       && (!refused ==>
             && raw !in s.heap - {s.pointer[d]}
             && s' == s.(heap := s.heap - {s.pointer[d]} + if raw == 0 then {} else {raw},
                         pointer := s.pointer[d := raw]))
  }

  /** local_remove by run_local_free, by a publishing realloc or by a realloc to nothing. */
  predicate RemoveLocal(s: State, s': State, w: nat, position: nat, c: Control)
    requires w < |s.workers|
  {
    var me := s.workers[w];
    && me.control.Idle? && position < |me.local| && me.local[position] < |s.pointer|
    && var d := me.local[position];
       && (c == Freeing(d) || (c == Freed(d) && s.pointer[d] == 0)
           || (c.Pushing? && c.target < |s.workers| && c == Pushing(c.target, Inbound, d)))
       && s' == s.(workers := s.workers[w :=
                     me.(local := LocalRemove(me.local, position), control := c)])
  }

  /** The free call of run_free_call. */
  predicate Free(s: State, s': State, w: nat)
    requires w < |s.workers|
  {
    var c := s.workers[w].control;
    && c.Freeing? && c.d < |s.pointer|
    && s' == At(s, w, Freed(c.d)).(heap := s.heap - {s.pointer[c.d]})
  }

  /** recycle_object: to the private list of the owner, or off to the owner's stack. */
  predicate Recycle(s: State, s': State, w: nat)
    requires w < |s.workers|
  {
    var me := s.workers[w];
    && me.control.Freed? && me.control.d < |s.next| == |s.owner| == |s.pointer|
    && var d := me.control.d;
       s' == if s.owner[d] == w then
               s.(next := s.next[d := me.localFree], pointer := s.pointer[d := 0],
                  workers := s.workers[w := me.(localFree := d + 1, control := Idle)])
             else
               At(s, w, Pushing(s.owner[d], Recycled, d)).(pointer := s.pointer[d := 0])
  }

  predicate PushLoad(s: State, s': State, w: nat)
    requires w < |s.workers|
  {
    var c := s.workers[w].control;
    && (c.Pushing? || c.PushLinked?) && c.target < |s.workers|
    && s' == At(s, w, PushLoaded(c.target, c.kind, c.d, Top(s, c.target, c.kind)))
  }

  predicate PushLink(s: State, s': State, w: nat)
    requires w < |s.workers|
  {
    var c := s.workers[w].control;
    && c.PushLoaded? && c.d < |s.next|
    && s' == At(s, w, PushLinked(c.target, c.kind, c.d, c.seen))
               .(next := s.next[c.d := c.seen.plusOne])
  }

  predicate PushSwap(s: State, s': State, w: nat)
    requires w < |s.workers|
  {
    var c := s.workers[w].control;
    && c.PushLinked? && c.target < |s.workers| && Top(s, c.target, c.kind) == c.seen
    && var s1 := At(s, w, Idle);
       s' == s1.(workers := s1.workers[c.target :=
                   WithTop(s1.workers[c.target], c.kind, Bumped(c.seen, c.d + 1))])
  }

  ghost predicate StepOf(ranges: seq<Range>, s: State, s': State, w: nat)
    requires w < |s.workers| == |ranges|
  {
    || TakePrivate(s, s', w)
    || (exists kind :: PopLoad(s, s', w, kind))
    || PopEmpty(ranges, s, s', w)
    || PopReadLink(s, s', w) || PopSwap(s, s', w) || PopRetry(s, s', w)
    || (exists raw, target :: Allocate(s, s', w, raw, target))
    || (exists position, raw, refused :: Reallocate(s, s', w, position, raw, refused))
    || (exists position, c :: RemoveLocal(s, s', w, position, c))
    || Free(s, s', w) || Recycle(s, s', w)
    || PushLoad(s, s', w) || PushLink(s, s', w) || PushSwap(s, s', w)
  }

  ghost predicate Step(ranges: seq<Range>, s: State, s': State) {
    && |s.workers| == |ranges|
    && exists w: nat :: w < |ranges| && StepOf(ranges, s, s', w)
  }

  /** Consecutive ranges from zero, as main lays them out. */
  predicate Tiling(ranges: seq<Range>) {
    forall w | 0 <= w < |ranges| :: Follows(ranges, w)
  }

  predicate Follows(ranges: seq<Range>, w: nat)
    requires w < |ranges|
  {
    ranges[w].first == if w == 0 then 0 else ranges[w - 1].first + ranges[w - 1].capacity
  }

  function Total(ranges: seq<Range>): nat {
    if ranges == [] then 0
    else ranges[|ranges| - 1].first + ranges[|ranges| - 1].capacity
  }

  function Initial(ranges: seq<Range>): State {
    var zeros := seq(Total(ranges), _ => 0);
    State(zeros, zeros, zeros, {}, false,
          seq(|ranges|, _ => Worker(Idle, 0, 0, [], Head(0, 0), Head(0, 0))))
  }

  ghost predicate IsRun(ranges: seq<Range>, run: seq<State>) {
    && |run| > 0 && Tiling(ranges) && run[0] == Initial(ranges)
    && forall i | 0 <= i < |run| - 1 :: StepAt(ranges, run, i)
  }

  ghost predicate StepAt(ranges: seq<Range>, run: seq<State>, i: nat)
    requires i + 1 < |run|
  {
    Step(ranges, run[i], run[i + 1])
  }
}
