/** Under every interleaving each descriptor is in exactly one place, stays with its owner,
    and carries its heap object exactly while it is in use. Each stack has one consumer,
    so the proof does not depend on the tag width: a head that compares equal still has the
    link that was read, even after the tags wrap around. */
module DescriptorOwnership {
  import opened Wrappers
  import opened DescriptorProtocol

  datatype Place =
    | Unissued
    | Private(w: nat)
    | OnStack(w: nat, kind: Kind)
    | Local(w: nat)
    | Hand(w: nat)

  /** Ghost bookkeeping: where each descriptor is, and what each container holds. */
  datatype Ledger = Ledger(place: seq<Place>, lists: map<Place, seq<nat>>)

  predicate InRange(ranges: seq<Range>, w: nat, d: nat) {
    w < |ranges| && ranges[w].first <= d < ranges[w].first + ranges[w].capacity
  }

  function Held(c: Control): Option<nat> {
    match c
    case Idle => None
    case PopLoaded(_, _) => None
    case PopRead(_, _, _) => None
    case Took(d) => Some(d)
    case Freeing(d) => Some(d)
    case Freed(d) => Some(d)
    case Pushing(_, _, d) => Some(d)
    case PushLoaded(_, _, d, _) => Some(d)
    case PushLinked(_, _, d, _) => Some(d)
  }

  /** The descriptor in hand carries an object. */
  predicate HoldsObject(c: Control) {
    || c.Freeing?
    || (c.Pushing? && c.kind.Inbound?) || (c.PushLoaded? && c.kind.Inbound?)
    || (c.PushLinked? && c.kind.Inbound?)
  }

  // ------------------------------------------------------------------ linked lists

  /** plusOne heads the linked list whose members, top first, are list. */
  predicate Chain(next: seq<nat>, plusOne: nat, list: seq<nat>)
    decreases |list|
  {
    if list == [] then plusOne == 0
    else
      && plusOne == list[0] + 1 && list[0] < |next|
      && Chain(next, next[list[0]], list[1..])
  }

  lemma {:induction false} ChainFrame(
    next: seq<nat>, plusOne: nat, list: seq<nat>, d: nat, x: nat)
    requires d < |next| && d !in list && Chain(next, plusOne, list)
    ensures Chain(next[d := x], plusOne, list)
    decreases |list|
  {
    if list != [] {
      ChainFrame(next, next[list[0]], list[1..], d, x);
    }
  }

  lemma {:induction false} ChainUnique(
    next: seq<nat>, plusOne: nat, a: seq<nat>, b: seq<nat>)
    requires Chain(next, plusOne, a) && Chain(next, plusOne, b)
    ensures a == b
    decreases |a|
  {
    if a != [] {
      ChainUnique(next, next[a[0]], a[1..], b[1..]);
      assert a == [a[0]] + a[1..] && b == [b[0]] + b[1..];
    }
  }

  predicate Distinct(list: seq<nat>) {
    forall i, j | 0 <= i < j < |list| :: list[i] != list[j]
  }

  /** list names exactly the descriptors at place p, once each. */
  ghost predicate Lists(place: seq<Place>, p: Place, list: seq<nat>) {
    Distinct(list) && forall d: nat :: d in list <==> d < |place| && place[d] == p
  }

  lemma DropTop(list: seq<nat>)
    requires Distinct(list) && list != []
    ensures Distinct(list[1..])
    ensures forall x :: x in list[1..] <==> x in list && x != list[0]
  {
    forall x | x in list && x != list[0] ensures x in list[1..] {
      var i :| 0 <= i < |list| && list[i] == x;
      assert list[1..][i - 1] == x;
    }
  }

  lemma DropLocal(list: seq<nat>, position: nat)
    requires Distinct(list) && position < |list|
    ensures Distinct(LocalRemove(list, position))
    ensures forall x :: x in LocalRemove(list, position) <==> x in list && x != list[position]
  {
    var n := |list| - 1;
    var rest := LocalRemove(list, position);
    forall x | x in list && x != list[position] ensures x in rest {
      var i :| 0 <= i < |list| && list[i] == x;
      assert if i == n then rest[position] == x else rest[i] == x;
    }
  }

  // -------------------------------------------------------------------- invariant

  ghost predicate Shaped(ranges: seq<Range>, s: State, g: Ledger) {
    && |s.workers| == |ranges|
    && |s.next| == |s.owner| == |s.pointer| == |g.place| == Total(ranges)
  }

  predicate IsContainer(n: nat, p: Place) {
    (p.Private? || p.OnStack? || p.Local?) && p.w < n
  }

  /** The memory holds container p as the ledger says. */
  predicate Holds(s: State, p: Place, list: seq<nat>)
    requires IsContainer(|s.workers|, p)
  {
    match p
    case Private(w) => Chain(s.next, s.workers[w].localFree, list)
    case OnStack(w, kind) => Chain(s.next, Top(s, w, kind).plusOne, list)
    case Local(w) => s.workers[w].local == list
    case _ => false
  }

  ghost predicate ContainerOk(s: State, g: Ledger, p: Place)
    requires IsContainer(|s.workers|, p)
  {
    p in g.lists && Lists(g.place, p, g.lists[p]) && Holds(s, p, g.lists[p])
  }

  ghost predicate Containers(s: State, g: Ledger) {
    forall p | IsContainer(|s.workers|, p) :: ContainerOk(s, g, p)
  }

  predicate OwnerOk(ranges: seq<Range>, s: State, d: nat)
    requires d < |s.owner|
  {
    InRange(ranges, s.owner[d], d)
  }

  /** What is known of a descriptor from its place. */
  predicate PlaceOk(ranges: seq<Range>, s: State, g: Ledger, d: nat)
    requires Shaped(ranges, s, g) && d < |g.place|
  {
    match g.place[d]
    case Unissued => true
    case Private(w) => InRange(ranges, w, d) && OwnerOk(ranges, s, d)
    case OnStack(w, kind) =>
      && w < |ranges| && (kind.Recycled? ==> InRange(ranges, w, d)) && OwnerOk(ranges, s, d)
    case Local(w) => InRange(ranges, w, d) && OwnerOk(ranges, s, d)
    case Hand(w) =>
      && w < |ranges| && Held(s.workers[w].control) == Some(d)
      && (s.workers[w].control.Took? || OwnerOk(ranges, s, d))
  }

  predicate IsAt(g: Ledger, d: nat, p: Place) {
    d < |g.place| && g.place[d] == p
  }

  predicate WorkerOk(ranges: seq<Range>, s: State, g: Ledger, w: nat)
    requires Shaped(ranges, s, g) && w < |ranges|
  {
    match s.workers[w].control
    case Idle => true
    case PopLoaded(kind, seen) =>
      seen.plusOne != 0 ==> IsAt(g, seen.plusOne - 1, OnStack(w, kind))
    case PopRead(kind, seen, below) =>
      && seen.plusOne != 0 && IsAt(g, seen.plusOne - 1, OnStack(w, kind))
      && below == s.next[seen.plusOne - 1]
    case Took(d) => IsAt(g, d, Hand(w)) && InRange(ranges, w, d)
    case Freeing(d) => IsAt(g, d, Hand(w))
    case Freed(d) => IsAt(g, d, Hand(w))
    case Pushing(t, kind, d) => PushOk(ranges, g, w, t, kind, d)
    case PushLoaded(t, kind, d, _) => PushOk(ranges, g, w, t, kind, d)
    case PushLinked(t, kind, d, seen) =>
      PushOk(ranges, g, w, t, kind, d) && s.next[d] == seen.plusOne
  }

  predicate PushOk(ranges: seq<Range>, g: Ledger, w: nat, t: nat, kind: Kind, d: nat) {
    && IsAt(g, d, Hand(w)) && t < |ranges|
    && (kind.Recycled? ==> InRange(ranges, t, d))
  }

  ghost predicate FreshOk(ranges: seq<Range>, s: State, g: Ledger, w: nat)
    requires Shaped(ranges, s, g) && w < |ranges|
  {
    && s.workers[w].issued <= ranges[w].capacity
    && forall d | InRange(ranges, w, d) :: FreshAt(g, d, ranges[w].first + s.workers[w].issued)
  }

  predicate FreshAt(g: Ledger, d: nat, limit: nat) {
    d < |g.place| && (g.place[d].Unissued? <==> limit <= d)
  }

  /** The descriptor carries an object. */
  predicate InUse(s: State, g: Ledger, d: nat)
    requires d < |g.place|
  {
    match g.place[d]
    case Unissued => false
    case Private(_) => false
    case OnStack(_, kind) => kind.Inbound?
    case Local(_) => true
    case Hand(w) => w < |s.workers| && HoldsObject(s.workers[w].control)
  }

  /** The descriptor is the one that carries heap object x. */
  predicate Carries(s: State, g: Ledger, d: nat, x: nat) {
    d < |g.place| == |s.pointer| && InUse(s, g, d) && s.pointer[d] == x && x != 0
  }

  /** The heap is exactly the objects carried, each by one descriptor. */
  ghost predicate HeapOk(s: State, g: Ledger) {
    && (forall d, x | Carries(s, g, d, x) :: x in s.heap)
    && (forall d, e, x | Carries(s, g, d, x) && Carries(s, g, e, x) :: d == e)
    && (forall x | x in s.heap :: exists d :: Carries(s, g, d, x))
  }

  ghost predicate Inv(ranges: seq<Range>, s: State, g: Ledger) {
    && Shaped(ranges, s, g)
    && Containers(s, g)
    && (forall d | 0 <= d < |g.place| :: PlaceOk(ranges, s, g, d))
    && (forall w | 0 <= w < |ranges| :: WorkerOk(ranges, s, g, w))
    && (forall w | 0 <= w < |ranges| :: FreshOk(ranges, s, g, w))
    && HeapOk(s, g)
  }

  // --------------------------------------------------------------- what a step moves

  /** Only worker w acts, and only on descriptor d (none when d is out of range), which w
      may touch. */
  ghost predicate Touches(ranges: seq<Range>, s: State, s': State, g: Ledger, g': Ledger,
                          w: nat, d: nat)
    requires Shaped(ranges, s, g)
  {
    && Shaped(ranges, s', g') && w < |ranges|
    && (forall v | 0 <= v < |ranges| && v != w ::
          s'.workers[v].control == s.workers[v].control)
    && (forall e | 0 <= e < |g.place| && e != d ::
          && g'.place[e] == g.place[e] && s'.next[e] == s.next[e]
          && s'.owner[e] == s.owner[e])
    && (Held(s.workers[w].control).Some? ==> Held(s.workers[w].control) == Some(d))
    && (d < |g.place| ==>
          && (g.place[d].Unissued? || g.place[d].w == w)
          && (s'.next[d] == s.next[d] || g.place[d] == Hand(w)))
  }

  lemma OtherPlaces(ranges: seq<Range>, s: State, s': State, g: Ledger, g': Ledger,
                    w: nat, d: nat, e: nat)
    requires Shaped(ranges, s, g) && Touches(ranges, s, s', g, g', w, d)
    requires e < |g.place| && e != d && PlaceOk(ranges, s, g, e)
    ensures PlaceOk(ranges, s', g', e)
  {}

  lemma OtherWorkers(ranges: seq<Range>, s: State, s': State, g: Ledger, g': Ledger,
                     w: nat, d: nat, v: nat)
    requires Shaped(ranges, s, g) && Touches(ranges, s, s', g, g', w, d)
    requires v < |ranges| && v != w && WorkerOk(ranges, s, g, v)
    ensures WorkerOk(ranges, s', g', v)
  {}

  lemma FreshSame(ranges: seq<Range>, s: State, s': State, g: Ledger, g': Ledger)
    requires Shaped(ranges, s, g) && Shaped(ranges, s', g')
    requires forall w | 0 <= w < |ranges| :: FreshOk(ranges, s, g, w)
    requires forall w | 0 <= w < |ranges| :: s'.workers[w].issued == s.workers[w].issued
    requires forall e | 0 <= e < |g.place| :: g'.place[e].Unissued? <==> g.place[e].Unissued?
    ensures forall w | 0 <= w < |ranges| :: FreshOk(ranges, s', g', w)
  {
    forall w | 0 <= w < |ranges| ensures FreshOk(ranges, s', g', w) {
      assert FreshOk(ranges, s, g, w);
      var limit := ranges[w].first + s.workers[w].issued;
      forall d | InRange(ranges, w, d) ensures FreshAt(g', d, limit) {
        assert FreshAt(g, d, limit);
      }
    }
  }

  /** A step that leaves d's use and everyone's objects alone. */
  lemma HeapSame(ranges: seq<Range>, s: State, s': State, g: Ledger, g': Ledger,
                 w: nat, d: nat)
    requires Inv(ranges, s, g) && Touches(ranges, s, s', g, g', w, d)
    requires d < |g.place| ==> (InUse(s', g', d) <==> InUse(s, g, d))
    requires forall e | 0 <= e < |g.place| && InUse(s, g, e) :: s'.pointer[e] == s.pointer[e]
    requires s'.heap == s.heap
    ensures HeapOk(s', g')
  {
    forall e | 0 <= e < |g.place| ensures InUse(s', g', e) <==> InUse(s, g, e) {
      assert PlaceOk(ranges, s, g, e);
    }
    forall e, x ensures Carries(s', g', e, x) <==> Carries(s, g, e, x) {}
    forall x | x in s'.heap ensures exists e :: Carries(s', g', e, x) {
      var e :| Carries(s, g, e, x);
      assert Carries(s', g', e, x);
    }
  }

  lemma Assemble(ranges: seq<Range>, s: State, s': State, g: Ledger, g': Ledger,
                 w: nat, d: nat)
    requires Inv(ranges, s, g) && Touches(ranges, s, s', g, g', w, d)
    requires Containers(s', g') && WorkerOk(ranges, s', g', w)
    requires d < |g.place| ==> PlaceOk(ranges, s', g', d)
    requires forall v | 0 <= v < |ranges| :: FreshOk(ranges, s', g', v)
    requires HeapOk(s', g')
    ensures Inv(ranges, s', g')
  {
    forall e | 0 <= e < |g.place| ensures PlaceOk(ranges, s', g', e) {
      if e != d {
        OtherPlaces(ranges, s, s', g, g', w, d, e);
      }
    }
    forall v | 0 <= v < |ranges| ensures WorkerOk(ranges, s', g', v) {
      if v != w {
        OtherWorkers(ranges, s, s', g, g', w, d, v);
      }
    }
  }

  // ------------------------------------------------------- containers under a step

  /** Container p's own memory: the head of its list or the local array. */
  predicate SameHead(s: State, s': State, p: Place)
    requires IsContainer(|s.workers|, p) && |s'.workers| == |s.workers|
  {
    match p
    case Private(w) => s'.workers[w].localFree == s.workers[w].localFree
    case OnStack(w, kind) => Top(s', w, kind).plusOne == Top(s, w, kind).plusOne
    case Local(w) => s'.workers[w].local == s.workers[w].local
    case _ => true
  }

  /** Links are unchanged, except perhaps that of d. */
  predicate Relinks(s: State, s': State, d: nat) {
    s'.next == s.next || (d < |s.next| == |s'.next| && s'.next == s.next[d := s'.next[d]])
  }

  lemma HoldsFrame(s: State, s': State, p: Place, list: seq<nat>, d: nat)
    requires IsContainer(|s.workers|, p) && |s'.workers| == |s.workers|
    requires Holds(s, p, list) && SameHead(s, s', p) && Relinks(s, s', d)
    requires s'.next == s.next || d !in list
    requires |s'.next| == |s.next|
    ensures Holds(s', p, list)
  {
    if s'.next != s.next && !p.Local? {
      ChainFrame(s.next, if p.Private? then s.workers[p.w].localFree
                         else Top(s, p.w, p.kind).plusOne, list, d, s'.next[d]);
    }
  }

  /** No container changes. */
  lemma ContainersStay(s: State, s': State, g: Ledger, d: nat)
    requires Containers(s, g) && |s'.workers| == |s.workers| && |s'.next| == |s.next|
    requires forall p | IsContainer(|s.workers|, p) :: SameHead(s, s', p)
    requires Relinks(s, s', d)
    requires s'.next == s.next || (d < |g.place| && g.place[d].Hand?)
    ensures Containers(s', g)
  {
    forall p | IsContainer(|s'.workers|, p) ensures ContainerOk(s', g, p) {
      assert ContainerOk(s, g, p);
      HoldsFrame(s, s', p, g.lists[p], d);
    }
  }

  function Moved(g: Ledger, d: nat, to: Place, p: Place, list: seq<nat>): Ledger
    requires d < |g.place|
  {
    Ledger(g.place[d := to], g.lists[p := list])
  }

  /** Descriptor d leaves container p for worker w's hand. */
  lemma ContainersLose(s: State, s': State, g: Ledger, d: nat, p: Place, list: seq<nat>, w: nat)
    requires Containers(s, g) && |s'.workers| == |s.workers| && s'.next == s.next
    requires IsContainer(|s.workers|, p) && d < |g.place| && g.place[d] == p
    requires forall q | IsContainer(|s.workers|, q) && q != p :: SameHead(s, s', q)
    requires p in g.lists && Distinct(list)
    requires forall x: nat :: x in list <==> x in g.lists[p] && x != d
    requires Holds(s', p, list)
    ensures Containers(s', Moved(g, d, Hand(w), p, list))
  {
    var g' := Moved(g, d, Hand(w), p, list);
    forall q | IsContainer(|s'.workers|, q) ensures ContainerOk(s', g', q) {
      assert ContainerOk(s, g, q);
      if q != p {
        HoldsFrame(s, s', q, g.lists[q], d);
      }
    }
  }

  /** Descriptor d enters container p from a hand. */
  lemma ContainersGain(s: State, s': State, g: Ledger, d: nat, p: Place, list: seq<nat>)
    requires Containers(s, g) && |s'.workers| == |s.workers| && |s'.next| == |s.next|
    requires IsContainer(|s.workers|, p) && d < |g.place| && g.place[d].Hand?
    requires forall q | IsContainer(|s.workers|, q) && q != p :: SameHead(s, s', q)
    requires Relinks(s, s', d)
    requires p in g.lists && Distinct(list)
    requires forall x: nat :: x in list <==> x in g.lists[p] || x == d
    requires Holds(s', p, list)
    ensures Containers(s', Moved(g, d, p, p, list))
  {
    var g' := Moved(g, d, p, p, list);
    forall q | IsContainer(|s'.workers|, q) ensures ContainerOk(s', g', q) {
      assert ContainerOk(s, g, q);
      if q != p {
        HoldsFrame(s, s', q, g.lists[q], d);
      }
    }
  }

  // ------------------------------------------------------------------ steps, one by one

  /** Steps that only read shared words and advance the control. */
  lemma KeepReads(ranges: seq<Range>, s: State, s': State, g: Ledger, w: nat)
    requires Inv(ranges, s, g) && w < |ranges|
    requires
      || (exists kind :: PopLoad(s, s', w, kind))
      || PopReadLink(s, s', w) || PopRetry(s, s', w)
      || (PopEmpty(ranges, s, s', w) && Held(s'.workers[w].control).None?)
    ensures Inv(ranges, s', g)
  {
    assert WorkerOk(ranges, s, g, w);
    if kind :| PopLoad(s, s', w, kind) {
      TopListed(ranges, s, g, w, kind);
    } else if PopRetry(s, s', w) {
      TopListed(ranges, s, g, w, s.workers[w].control.kind);
    }
    KeepControl(ranges, s, s', g, w);
  }

  lemma KeepControl(ranges: seq<Range>, s: State, s': State, g: Ledger, w: nat)
    requires Inv(ranges, s, g) && w < |ranges| && |s'.workers| == |ranges|
    requires s' == At(s, w, s'.workers[w].control).(failed := s'.failed)
    requires Held(s.workers[w].control).None? && Held(s'.workers[w].control).None?
    requires WorkerOk(ranges, s', g, w)
    ensures Inv(ranges, s', g)
  {
    var none := |g.place|;
    ContainersStay(s, s', g, none);
    FreshSame(ranges, s, s', g, g);
    HeapSame(ranges, s, s', g, g, w, none);
    Assemble(ranges, s, s', g, g, w, none);
  }

  lemma TopListed(ranges: seq<Range>, s: State, g: Ledger, w: nat, kind: Kind)
    requires Inv(ranges, s, g) && w < |ranges|
    ensures Top(s, w, kind).plusOne != 0 ==>
      IsAt(g, Top(s, w, kind).plusOne - 1, OnStack(w, kind))
  {
    var p := OnStack(w, kind);
    assert ContainerOk(s, g, p);
    if g.lists[p] != [] {
      assert g.lists[p][0] in g.lists[p];
    }
  }

  lemma KeepTakePrivate(ranges: seq<Range>, s: State, s': State, g: Ledger, w: nat)
    returns (g': Ledger)
    requires Inv(ranges, s, g) && w < |ranges| && TakePrivate(s, s', w)
    ensures Inv(ranges, s', g')
  {
    var p := Private(w);
    assert ContainerOk(s, g, p);
    var list := g.lists[p];
    var d := list[0];
    assert d in list;
    DropTop(list);
    g' := Moved(g, d, Hand(w), p, list[1..]);
    assert PlaceOk(ranges, s, g, d);
    ContainersLose(s, s', g, d, p, list[1..], w);
    FreshSame(ranges, s, s', g, g');
    HeapSame(ranges, s, s', g, g', w, d);
    Assemble(ranges, s, s', g, g', w, d);
  }

  lemma KeepPopSwap(ranges: seq<Range>, s: State, s': State, g: Ledger, w: nat)
    returns (g': Ledger)
    requires Inv(ranges, s, g) && w < |ranges| && PopSwap(s, s', w)
    ensures Inv(ranges, s', g')
  {
    var c := s.workers[w].control;
    var p := OnStack(w, c.kind);
    assert WorkerOk(ranges, s, g, w);
    assert ContainerOk(s, g, p);
    var list := g.lists[p];
    var d := c.seen.plusOne - 1;
    assert list != [] && list[0] == d;
    DropTop(list);
    g' := Moved(g, d, Hand(w), p, list[1..]);
    assert PlaceOk(ranges, s, g, d);
    ContainersLose(s, s', g, d, p, list[1..], w);
    FreshSame(ranges, s, s', g, g');
    HeapSame(ranges, s, s', g, g', w, d);
    Assemble(ranges, s, s', g, g', w, d);
  }

  lemma KeepRemoveLocal(ranges: seq<Range>, s: State, s': State, g: Ledger, w: nat,
                        position: nat, c: Control)
    returns (g': Ledger)
    requires Inv(ranges, s, g) && w < |ranges| && RemoveLocal(s, s', w, position, c)
    ensures Inv(ranges, s', g')
  {
    var p := Local(w);
    assert ContainerOk(s, g, p);
    var list := g.lists[p];
    var d := list[position];
    assert d in list;
    DropLocal(list, position);
    var rest := LocalRemove(list, position);
    g' := Moved(g, d, Hand(w), p, rest);
    assert PlaceOk(ranges, s, g, d);
    ContainersLose(s, s', g, d, p, rest, w);
    FreshSame(ranges, s, s', g, g');
    if c.Freed? {
      HeapDrops(ranges, s, s', g, g', w, d);
    } else {
      HeapSame(ranges, s, s', g, g', w, d);
    }
    Assemble(ranges, s, s', g, g', w, d);
  }

  /** Descriptor d goes out of use; its object, if any, leaves the heap. */
  lemma HeapDrops(ranges: seq<Range>, s: State, s': State, g: Ledger, g': Ledger,
                  w: nat, d: nat)
    requires Inv(ranges, s, g) && Touches(ranges, s, s', g, g', w, d)
    requires d < |g.place| && InUse(s, g, d) && !InUse(s', g', d)
    requires s'.pointer == s.pointer
    requires s'.heap == s.heap - {s.pointer[d]} || (s.pointer[d] == 0 && s'.heap == s.heap)
    ensures HeapOk(s', g')
  {
    forall e | 0 <= e < |g.place| && e != d ensures InUse(s', g', e) <==> InUse(s, g, e) {
      assert PlaceOk(ranges, s, g, e);
    }
    forall e, x ensures Carries(s', g', e, x) <==> Carries(s, g, e, x) && e != d {}
    forall x | x in s'.heap ensures exists e :: Carries(s', g', e, x) {
      var e :| Carries(s, g, e, x);
      assert Carries(s', g', e, x);
    }
    assert s.pointer[d] != 0 ==> Carries(s, g, d, s.pointer[d]);
  }

  lemma KeepFree(ranges: seq<Range>, s: State, s': State, g: Ledger, w: nat)
    requires Inv(ranges, s, g) && w < |ranges| && Free(s, s', w)
    ensures Inv(ranges, s', g)
  {
    var d := s.workers[w].control.d;
    assert WorkerOk(ranges, s, g, w);
    assert PlaceOk(ranges, s, g, d);
    ContainersStay(s, s', g, d);
    FreshSame(ranges, s, s', g, g);
    HeapDrops(ranges, s, s', g, g, w, d);
    Assemble(ranges, s, s', g, g, w, d);
  }

  /** The allocator answers raw for descriptor d, which is in use afterwards and carried
      `before` until then (zero for none). */
  lemma HeapRenews(ranges: seq<Range>, s: State, s': State, g: Ledger, g': Ledger,
                   w: nat, d: nat, before: nat, raw: nat)
    requires Inv(ranges, s, g) && Touches(ranges, s, s', g, g', w, d)
    requires d < |g.place| && InUse(s', g', d)
    requires before == if InUse(s, g, d) then s.pointer[d] else 0
    requires raw !in s.heap - {before} && s'.pointer == s.pointer[d := raw]
    requires s'.heap == s.heap - {before} + if raw == 0 then {} else {raw}
    ensures HeapOk(s', g')
  {
    forall e | 0 <= e < |g.place| && e != d ensures InUse(s', g', e) <==> InUse(s, g, e) {
      assert PlaceOk(ranges, s, g, e);
    }
    forall e, x | e != d ensures Carries(s', g', e, x) <==> Carries(s, g, e, x) {}
    assert before != 0 ==> Carries(s, g, d, before);
    forall x | x in s'.heap ensures exists e :: Carries(s', g', e, x) {
      if x == raw {
        assert Carries(s', g', d, x);
      } else {
        var e :| Carries(s, g, e, x);
        assert Carries(s', g', e, x);
      }
    }
  }

  lemma ZeroNotHeap(s: State, g: Ledger)
    requires HeapOk(s, g)
    ensures 0 !in s.heap
  {
    forall d ensures !Carries(s, g, d, 0) {}
  }

  lemma KeepAllocate(ranges: seq<Range>, s: State, s': State, g: Ledger, w: nat, raw: nat,
                     target: Option<nat>)
    returns (g': Ledger)
    requires Inv(ranges, s, g) && w < |ranges| && Allocate(s, s', w, raw, target)
    ensures Inv(ranges, s', g')
  {
    var d := s.workers[w].control.d;
    assert WorkerOk(ranges, s, g, w);
    assert PlaceOk(ranges, s, g, d);
    ZeroNotHeap(s, g);
    if target.Some? {
      g' := g;
      ContainersStay(s, s', g, d);
    } else {
      var p := Local(w);
      assert ContainerOk(s, g, p);
      var list := g.lists[p] + [d];
      assert d !in g.lists[p];
      g' := Moved(g, d, p, p, list);
      ContainersGain(s, s', g, d, p, list);
    }
    FreshSame(ranges, s, s', g, g');
    assert s.heap - {0} == s.heap;
    HeapRenews(ranges, s, s', g, g', w, d, 0, raw);
    Assemble(ranges, s, s', g, g', w, d);
  }

  lemma KeepReallocate(ranges: seq<Range>, s: State, s': State, g: Ledger, w: nat,
                       position: nat, raw: nat, refused: bool)
    requires Inv(ranges, s, g) && w < |ranges|
    requires Reallocate(s, s', w, position, raw, refused)
    ensures Inv(ranges, s', g)
  {
    if !refused {
      var p := Local(w);
      assert ContainerOk(s, g, p);
      var d := g.lists[p][position];
      assert d in g.lists[p];
      assert PlaceOk(ranges, s, g, d);
      assert WorkerOk(ranges, s, g, w);
      ContainersStay(s, s', g, d);
      FreshSame(ranges, s, s', g, g);
      HeapRenews(ranges, s, s', g, g, w, d, s.pointer[d], raw);
      Assemble(ranges, s, s', g, g, w, d);
    }
  }

  lemma KeepRecycle(ranges: seq<Range>, s: State, s': State, g: Ledger, w: nat)
    returns (g': Ledger)
    requires Inv(ranges, s, g) && w < |ranges| && Recycle(s, s', w)
    ensures Inv(ranges, s', g')
  {
    var d := s.workers[w].control.d;
    assert WorkerOk(ranges, s, g, w);
    assert PlaceOk(ranges, s, g, d);
    if s.owner[d] == w {
      var p := Private(w);
      assert ContainerOk(s, g, p);
      var list := [d] + g.lists[p];
      assert d !in g.lists[p] && list[1..] == g.lists[p];
      ChainFrame(s.next, s.workers[w].localFree, g.lists[p], d, s.workers[w].localFree);
      g' := Moved(g, d, p, p, list);
      ContainersGain(s, s', g, d, p, list);
    } else {
      g' := g;
      ContainersStay(s, s', g, d);
    }
    FreshSame(ranges, s, s', g, g');
    HeapSame(ranges, s, s', g, g', w, d);
    Assemble(ranges, s, s', g, g', w, d);
  }

  lemma KeepPush(ranges: seq<Range>, s: State, s': State, g: Ledger, w: nat)
    requires Inv(ranges, s, g) && w < |ranges| && (PushLoad(s, s', w) || PushLink(s, s', w))
    ensures Inv(ranges, s', g)
  {
    var d := s.workers[w].control.d;
    assert WorkerOk(ranges, s, g, w);
    assert PlaceOk(ranges, s, g, d);
    ContainersStay(s, s', g, d);
    FreshSame(ranges, s, s', g, g);
    HeapSame(ranges, s, s', g, g, w, d);
    Assemble(ranges, s, s', g, g, w, d);
  }

  lemma KeepPushSwap(ranges: seq<Range>, s: State, s': State, g: Ledger, w: nat)
    returns (g': Ledger)
    requires Inv(ranges, s, g) && w < |ranges| && PushSwap(s, s', w)
    ensures Inv(ranges, s', g')
  {
    var c := s.workers[w].control;
    var d := c.d;
    assert WorkerOk(ranges, s, g, w);
    assert PlaceOk(ranges, s, g, d);
    var p := OnStack(c.target, c.kind);
    assert ContainerOk(s, g, p);
    var list := [d] + g.lists[p];
    assert d !in g.lists[p] && list[1..] == g.lists[p];
    g' := Moved(g, d, p, p, list);
    ContainersGain(s, s', g, d, p, list);
    FreshSame(ranges, s, s', g, g');
    HeapSame(ranges, s, s', g, g', w, d);
    Assemble(ranges, s, s', g, g', w, d);
  }

  // ------------------------------------------------------------------- over whole runs

  lemma StepKeeps(ranges: seq<Range>, s: State, s': State, g: Ledger) returns (g': Ledger)
    requires Inv(ranges, s, g) && Tiling(ranges) && Step(ranges, s, s')
    ensures Inv(ranges, s', g')
  {
    var w: nat :| w < |ranges| && StepOf(ranges, s, s', w);
    g' := g;
    if TakePrivate(s, s', w) {
      g' := KeepTakePrivate(ranges, s, s', g, w);
    } else if PopEmpty(ranges, s, s', w) {
      if Held(s'.workers[w].control).None? {
        KeepReads(ranges, s, s', g, w);
      } else {
        g' := KeepIssue(ranges, s, s', g, w);
      }
    } else if PopSwap(s, s', w) {
      g' := KeepPopSwap(ranges, s, s', g, w);
    } else if raw, target :| Allocate(s, s', w, raw, target) {
      g' := KeepAllocate(ranges, s, s', g, w, raw, target);
    } else if position, raw, refused :| Reallocate(s, s', w, position, raw, refused) {
      KeepReallocate(ranges, s, s', g, w, position, raw, refused);
    } else if position, c :| RemoveLocal(s, s', w, position, c) {
      g' := KeepRemoveLocal(ranges, s, s', g, w, position, c);
    } else if Free(s, s', w) {
      KeepFree(ranges, s, s', g, w);
    } else if Recycle(s, s', w) {
      g' := KeepRecycle(ranges, s, s', g, w);
    } else if PushLoad(s, s', w) || PushLink(s, s', w) {
      KeepPush(ranges, s, s', g, w);
    } else if PushSwap(s, s', w) {
      g' := KeepPushSwap(ranges, s, s', g, w);
    } else {
      KeepReads(ranges, s, s', g, w);
    }
  }

  lemma {:induction false} RangesOrdered(ranges: seq<Range>, v: nat, w: nat)
    requires Tiling(ranges) && v < w < |ranges|
    ensures ranges[v].first + ranges[v].capacity <= ranges[w].first
    ensures ranges[w].first + ranges[w].capacity <= Total(ranges)
    decreases w - v
  {
    assert Follows(ranges, w);
    if v + 1 < w {
      RangesOrdered(ranges, v, w - 1);
    }
    WithinTotal(ranges, w);
  }

  lemma {:induction false} WithinTotal(ranges: seq<Range>, w: nat)
    requires Tiling(ranges) && w < |ranges|
    ensures ranges[w].first + ranges[w].capacity <= Total(ranges)
    decreases |ranges| - w
  {
    if w + 1 < |ranges| {
      assert Follows(ranges, w + 1);
      WithinTotal(ranges, w + 1);
    }
  }

  lemma RangesApart(ranges: seq<Range>, v: nat, w: nat, d: nat)
    requires Tiling(ranges) && InRange(ranges, v, d) && InRange(ranges, w, d)
    ensures v == w
  {
    if v < w {
      RangesOrdered(ranges, v, w);
    } else if w < v {
      RangesOrdered(ranges, w, v);
    }
  }

  lemma KeepIssue(ranges: seq<Range>, s: State, s': State, g: Ledger, w: nat)
    returns (g': Ledger)
    requires Inv(ranges, s, g) && Tiling(ranges) && w < |ranges| && PopEmpty(ranges, s, s', w)
    requires Held(s'.workers[w].control).Some?
    ensures Inv(ranges, s', g')
  {
    var d := ranges[w].first + s.workers[w].issued;
    assert FreshOk(ranges, s, g, w);
    assert InRange(ranges, w, d) && FreshAt(g, d, d);
    g' := Ledger(g.place[d := Hand(w)], g.lists);
    forall p | IsContainer(|s'.workers|, p) ensures ContainerOk(s', g', p) {
      assert ContainerOk(s, g, p);
    }
    forall v | 0 <= v < |ranges| ensures FreshOk(ranges, s', g', v) {
      assert FreshOk(ranges, s, g, v);
      var limit := ranges[v].first + s'.workers[v].issued;
      forall e | InRange(ranges, v, e) ensures FreshAt(g', e, limit) {
        assert FreshAt(g, e, ranges[v].first + s.workers[v].issued);
        if e == d {
          RangesApart(ranges, v, w, d);
        }
      }
    }
    HeapSame(ranges, s, s', g, g', w, d);
    Assemble(ranges, s, s', g, g', w, d);
  }

  function NoLists(n: nat): map<Place, seq<nat>> {
    map w, kind | 0 <= w < n && kind in {Recycled, Inbound} :: OnStack(w, kind) := []
  }

  lemma InitialInv(ranges: seq<Range>) returns (g: Ledger)
    requires Tiling(ranges)
    ensures Inv(ranges, Initial(ranges), g)
  {
    var n := |ranges|;
    g := Ledger(seq(Total(ranges), _ => Unissued),
                (map w | 0 <= w < n :: Private(w) := [])
                + (map w | 0 <= w < n :: Local(w) := []) + NoLists(n));
    var s := Initial(ranges);
    forall p | IsContainer(n, p) ensures ContainerOk(s, g, p) {
      match p {
        case Private(w) => assert p in g.lists;
        case Local(w) => assert p in g.lists;
        case OnStack(w, kind) =>
          assert kind == Recycled || kind == Inbound;
          assert p in NoLists(n);
      }
    }
    forall w | 0 <= w < n ensures FreshOk(ranges, s, g, w) {
      WithinTotal(ranges, w);
      forall d | InRange(ranges, w, d) ensures FreshAt(g, d, ranges[w].first) {}
    }
  }

  /** The ledger exists in every state of every run. */
  lemma {:induction false} RunInv(ranges: seq<Range>, run: seq<State>, i: nat)
    returns (g: Ledger)
    requires IsRun(ranges, run) && i < |run|
    ensures Inv(ranges, run[i], g)
  {
    if i == 0 {
      g := InitialInv(ranges);
    } else {
      var before := RunInv(ranges, run, i - 1);
      assert StepAt(ranges, run, i - 1);
      g := StepKeeps(ranges, run[i - 1], run[i], before);
    }
  }

  // --------------------------------------------------------------------- consequences

  /** Where the memory alone says descriptor d is. */
  ghost predicate Occupies(ranges: seq<Range>, s: State, d: nat, p: Place) {
    && |s.workers| == |ranges|
    && match p
       case Unissued =>
         exists w | 0 <= w < |ranges| && InRange(ranges, w, d) ::
           ranges[w].first + s.workers[w].issued <= d
       case Private(w) => w < |ranges| && Linked(s.next, s.workers[w].localFree, d)
       case OnStack(w, kind) => w < |ranges| && Linked(s.next, Top(s, w, kind).plusOne, d)
       case Local(w) => w < |ranges| && d in s.workers[w].local
       case Hand(w) => w < |ranges| && Held(s.workers[w].control) == Some(d)
  }

  ghost predicate Linked(next: seq<nat>, plusOne: nat, d: nat) {
    exists list :: Chain(next, plusOne, list) && d in list
  }

  lemma LinkedIff(next: seq<nat>, plusOne: nat, list: seq<nat>, d: nat)
    requires Chain(next, plusOne, list)
    ensures Linked(next, plusOne, d) <==> d in list
  {
    if Linked(next, plusOne, d) {
      var other :| Chain(next, plusOne, other) && d in other;
      ChainUnique(next, plusOne, list, other);
    }
  }

  lemma {:induction false} FindRange(ranges: seq<Range>, d: nat) returns (w: nat)
    requires Tiling(ranges) && d < Total(ranges)
    ensures InRange(ranges, w, d)
  {
    var n := |ranges| - 1;
    assert Follows(ranges, n);
    if ranges[n].first <= d {
      w := n;
    } else {
      var init := ranges[..n];
      forall v | 0 <= v < n ensures Follows(init, v) {
        assert Follows(ranges, v);
      }
      w := FindRange(init, d);
    }
  }

  lemma OccupiesIff(ranges: seq<Range>, s: State, g: Ledger, d: nat, p: Place)
    requires Tiling(ranges) && Inv(ranges, s, g) && d < Total(ranges)
    ensures Occupies(ranges, s, d, p) <==> g.place[d] == p
  {
    match p {
      case Unissued =>
        var w := FindRange(ranges, d);
        forall v | 0 <= v < |ranges| && InRange(ranges, v, d) ensures v == w {
          RangesApart(ranges, v, w, d);
        }
        assert FreshOk(ranges, s, g, w);
        assert FreshAt(g, d, ranges[w].first + s.workers[w].issued);
      case Private(w) =>
        if w < |ranges| {
          assert ContainerOk(s, g, p);
          LinkedIff(s.next, s.workers[w].localFree, g.lists[p], d);
        }
        assert PlaceOk(ranges, s, g, d);
      case OnStack(w, kind) =>
        if w < |ranges| {
          assert ContainerOk(s, g, p);
          LinkedIff(s.next, Top(s, w, kind).plusOne, g.lists[p], d);
        }
        assert PlaceOk(ranges, s, g, d);
      case Local(w) =>
        if w < |ranges| {
          assert ContainerOk(s, g, p);
        }
        assert PlaceOk(ranges, s, g, d);
      case Hand(w) =>
        if w < |ranges| {
          assert WorkerOk(ranges, s, g, w);
        }
        assert PlaceOk(ranges, s, g, d);
    }
  }

  /** Conservation: in every reachable state the memory holds every descriptor in exactly
      one place. */
  lemma ExactlyOnePlace(ranges: seq<Range>, run: seq<State>, i: nat, d: nat)
    returns (p: Place)
    requires IsRun(ranges, run) && i < |run| && d < Total(ranges)
    ensures Occupies(ranges, run[i], d, p)
    ensures forall q | Occupies(ranges, run[i], d, q) :: q == p
  {
    var g := RunInv(ranges, run, i);
    p := g.place[d];
    OccupiesIff(ranges, run[i], g, d, p);
    forall q | Occupies(ranges, run[i], d, q) ensures q == p {
      OccupiesIff(ranges, run[i], g, d, q);
    }
  }

  /** A descriptor never leaves its owner: only the worker whose range has it keeps it in a
      free list, in its recycled stack or in its local array, and once it is in use its
      owner field names that worker, whoever holds it. */
  lemma StaysWithOwner(ranges: seq<Range>, run: seq<State>, i: nat, w: nat, d: nat, p: Place)
    requires IsRun(ranges, run) && i < |run| && d < Total(ranges) && InRange(ranges, w, d)
    requires Occupies(ranges, run[i], d, p)
    ensures p.Private? || p.Local? || (p.OnStack? && p.kind.Recycled?) ==> p.w == w
    ensures !p.Unissued? && (p.Hand? ==> !run[i].workers[p.w].control.Took?) ==>
      d < |run[i].owner| && run[i].owner[d] == w
  {
    var g := RunInv(ranges, run, i);
    var s := run[i];
    OccupiesIff(ranges, s, g, d, p);
    assert PlaceOk(ranges, s, g, d);
    if !p.Unissued? && p.w < |ranges| && InRange(ranges, p.w, d) {
      RangesApart(ranges, p.w, w, d);
    }
    if InRange(ranges, s.owner[d], d) {
      RangesApart(ranges, s.owner[d], w, d);
    }
  }

  /** `local[local_count++]` stays inside the array: the local array never holds more than
      the capacity. */
  lemma LocalFits(ranges: seq<Range>, run: seq<State>, i: nat, w: nat)
    requires IsRun(ranges, run) && i < |run| && w < |ranges|
    ensures w < |run[i].workers| && |run[i].workers[w].local| <= ranges[w].capacity
  {
    var g := RunInv(ranges, run, i);
    var s := run[i];
    assert ContainerOk(s, g, Local(w));
    var list := g.lists[Local(w)];
    forall d | d in list ensures InRange(ranges, w, d) {
      assert PlaceOk(ranges, s, g, d);
    }
    Pigeonhole(list, ranges[w].first, ranges[w].capacity);
  }

  lemma {:induction false} Pigeonhole(list: seq<nat>, first: nat, capacity: nat)
    requires Distinct(list) && forall d | d in list :: first <= d < first + capacity
    ensures |list| <= capacity
    decreases capacity
  {
    if list != [] {
      assert list[0] in list;
      var last := first + capacity - 1;
      if i :| 0 <= i < |list| && list[i] == last {
        DropLocal(list, i);
        Pigeonhole(LocalRemove(list, i), first, capacity - 1);
      } else {
        Pigeonhole(list, first, capacity - 1);
      }
    }
  }

  /** The pointer a worker passes to free is NULL or allocated. */
  lemma FreesLive(ranges: seq<Range>, run: seq<State>, i: nat, w: nat)
    requires IsRun(ranges, run) && i < |run| && w < |run[i].workers|
    requires run[i].workers[w].control.Freeing?
    ensures var d := run[i].workers[w].control.d;
      d < |run[i].pointer| && (run[i].pointer[d] == 0 || run[i].pointer[d] in run[i].heap)
  {
    var g := RunInv(ranges, run, i);
    var s := run[i];
    assert WorkerOk(ranges, s, g, w);
    var d := s.workers[w].control.d;
    assert s.pointer[d] != 0 ==> Carries(s, g, d, s.pointer[d]);
  }

  /** The descriptor is kept, in flight to another thread, or in hand with its object. */
  ghost predicate InUseAt(s: State, d: nat, p: Place)
    requires p.Hand? ==> p.w < |s.workers|
  {
    || p.Local? || (p.OnStack? && p.kind.Inbound?)
    || (p.Hand? && HoldsObject(s.workers[p.w].control))
  }

  /** No leak and no sharing: every allocated object is the pointer of exactly one
      descriptor, and that one is in use. */
  lemma HeapIsInUse(ranges: seq<Range>, run: seq<State>, i: nat, x: nat)
    returns (d: nat, p: Place)
    requires IsRun(ranges, run) && i < |run| && x in run[i].heap
    ensures d < |run[i].pointer| == Total(ranges) && run[i].pointer[d] == x != 0
    ensures Occupies(ranges, run[i], d, p) && InUseAt(run[i], d, p)
    ensures forall e, q | 0 <= e < Total(ranges) && Occupies(ranges, run[i], e, q)
                          && InUseAt(run[i], e, q) && run[i].pointer[e] == x :: e == d
  {
    var g := RunInv(ranges, run, i);
    var s := run[i];
    d :| Carries(s, g, d, x);
    p := g.place[d];
    OccupiesIff(ranges, s, g, d, p);
    forall e, q | 0 <= e < Total(ranges) && Occupies(ranges, s, e, q)
                  && InUseAt(s, e, q) && s.pointer[e] == x
      ensures e == d
    {
      OccupiesIff(ranges, s, g, e, q);
      assert Carries(s, g, e, x);
    }
  }
}
