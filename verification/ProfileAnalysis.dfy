/** analyze in rply_to_mstress.py: the profile of a trace by thread and phase, with every
    remote free routed back to the thread and phase that allocated the object. Threads are
    named by the index in which they first appear. */
module ProfileAnalysis {
  import opened Wrappers
  import opened NativeFormat
  import Q = QuotaArithmetic
  import W = SyntheticWorker

  datatype Key = Key(thread: nat, phase: nat)

  /** PhaseModel; `routes` counts by target thread. */
  datatype Model = Model(
    counts: seq<nat>, remoteFree: nat, remotePublish: nat, reallocNull: nat,
    routes: map<nat, nat>)

  function Zero(): Model {
    Model(seq(FUNC_COUNT, _ => 0), 0, 0, 0, map[])
  }

  datatype State = State(
    order: seq<nat>, live: map<nat, Key>, models: map<Key, Model>,
    unknownFree: nat, unknownRealloc: nat, remoteRealloc: nat)

  const INITIAL := State([], map[], map[], 0, 0, 0)

  function Get(models: map<Key, Model>, k: Key): Model {
    if k in models then models[k] else Zero()
  }

  function Route(routes: map<nat, nat>, t: nat): nat {
    if t in routes then routes[t] else 0
  }

  function IndexOf(order: seq<nat>, tid: nat): (i: nat)
    ensures i <= |order| && (i < |order| <==> tid in order)
    ensures i < |order| ==> order[i] == tid
  {
    if order == [] then 0
    else if order[0] == tid then 0
    else 1 + IndexOf(order[1..], tid)
  }

  // ---------------------------------------------------------------- one record at a time

  function Register(st: State, tid: nat): State {
    if tid in st.order then st else st.(order := st.order + [tid])
  }

  function Count(st: State, k: Key, f: nat): State
    requires f < FUNC_COUNT && |Get(st.models, k).counts| == FUNC_COUNT
  {
    var m := Get(st.models, k);
    st.(models := st.models[k := m.(counts := m.counts[f := m.counts[f] + 1])])
  }

  /** A free on another thread than the allocation. */
  function Publish(models: map<Key, Model>, freer: Key, origin: Key): map<Key, Model> {
    var m := Get(models, freer);
    var models1 := models[freer := m.(remoteFree := m.remoteFree + 1)];
    var o := Get(models1, origin);
    models1[origin := o.(remotePublish := o.remotePublish + 1,
                         routes := o.routes[freer.thread := Route(o.routes, freer.thread) + 1])]
  }

  function AddLive(live: map<nat, Key>, address: nat, origin: Key): map<nat, Key> {
    if address == 0 then live else live[address := origin]
  }

  function FreeObject(st: State, k: Key, address: nat): State {
    if address !in st.live then st.(unknownFree := st.unknownFree + 1)
    else
      var origin := st.live[address];
      var st1 := st.(live := st.live - {address});
      if origin.thread == k.thread then st1
      else st1.(models := Publish(st.models, k, origin))
  }

  function BumpReallocNull(st: State, k: Key): State {
    var m := Get(st.models, k);
    st.(models := st.models[k := m.(reallocNull := m.reallocNull + 1)])
  }

  function ReallocObject(st: State, k: Key, r: Record): State {
    if r.address == 0 then
      var st1 := BumpReallocNull(st, k);
      st1.(live := AddLive(st1.live, r.result, k))
    else if r.address !in st.live then
      var st1 := BumpReallocNull(st, k).(unknownRealloc := st.unknownRealloc + 1);
      st1.(live := AddLive(st1.live, r.result, k))
    else
      var origin := st.live[r.address];
      var st1 := st.(live := st.live - {r.address},
                     remoteRealloc := st.remoteRealloc
                       + if origin.thread != k.thread then 1 else 0);
      if r.result != 0 then st1.(live := AddLive(st1.live, r.result, k))
      else if r.size != 0 then st1.(live := AddLive(st1.live, r.address, origin))
      else st1
  }

  function Apply(st: State, k: Key, r: Record): State {
    if IsFreeFunction(r.func) then FreeObject(st, k, r.address)
    else if r.func == FUNC_REALLOC then ReallocObject(st, k, r)
    else st.(live := AddLive(st.live, r.result, k))
  }

  predicate Sized(st: State) {
    forall k | k in st.models :: |st.models[k].counts| == FUNC_COUNT
  }

  /** One allocator record in the given phase. */
  function Analyze1(st: State, r: Record, phase: nat): State
    requires Sized(st) && IsAllocatorFunction(r.func)
  {
    var st1 := Register(st, r.tid);
    var k := Key(IndexOf(st1.order, r.tid), phase);
    Apply(Count(st1, k, r.func), k, r)
  }

  /** The allocator records in order, each with its phase. */
  datatype Event = Event(record: Record, phase: nat)

  function Analyze(events: seq<Event>): (st: State)
    requires forall e | e in events :: IsAllocatorFunction(e.record.func)
    ensures Sized(st)
  {
    if events == [] then INITIAL
    else
      var n := |events| - 1;
      var before := Analyze(events[..n]);
      StaysSized(before, events[n].record, events[n].phase);
      Analyze1(before, events[n].record, events[n].phase)
  }

  lemma StaysSized(st: State, r: Record, phase: nat)
    requires Sized(st) && IsAllocatorFunction(r.func)
    ensures Sized(Analyze1(st, r, phase))
  {
    var st1 := Register(st, r.tid);
    var k := Key(IndexOf(st1.order, r.tid), phase);
    var st2 := Count(st1, k, r.func);
    assert Sized(st2);
    if IsFreeFunction(r.func) && r.address in st2.live {
      PublishSized(st2, k, st2.live[r.address]);
    }
  }

  lemma PublishSized(st: State, freer: Key, origin: Key)
    requires Sized(st)
    ensures Sized(st.(models := Publish(st.models, freer, origin)))
  {}

  // --------------------------------------------------------------------- the mutating loop

  class Analyzer {
    var order: seq<nat>
    var live: map<nat, Key>
    var models: map<Key, Model>
    var unknownFree: nat
    var unknownRealloc: nat
    var remoteRealloc: nat

    ghost function View(): State
      reads this
    {
      State(order, live, models, unknownFree, unknownRealloc, remoteRealloc)
    }

    constructor ()
      ensures View() == INITIAL
    {
      order, live, models := [], map[], map[];
      unknownFree, unknownRealloc, remoteRealloc := 0, 0, 0;
    }

    /** One allocator record: the thread is registered, its phase model counts the call, and
        the live map and the routes follow. */
    method Record(r: Record, phase: nat)
      requires Sized(View()) && IsAllocatorFunction(r.func)
      modifies this
      ensures View() == Analyze1(old(View()), r, phase)
    {
      if r.tid !in order {
        order := order + [r.tid];
      }
      var k := Key(IndexOf(order, r.tid), phase);
      var m := Get(models, k);
      models := models[k := m.(counts := m.counts[r.func := m.counts[r.func] + 1])];
      if IsFreeFunction(r.func) {
        FreeRecord(k, r.address);
      } else if r.func == FUNC_REALLOC {
        ReallocRecord(k, r);
      } else {
        live := AddLive(live, r.result, k);
      }
    }

    method FreeRecord(k: Key, address: nat)
      modifies this
      ensures View() == FreeObject(old(View()), k, address)
    {
      if address !in live {
        unknownFree := unknownFree + 1;
        return;
      }
      var origin := live[address];
      live := live - {address};
      if origin.thread != k.thread {
        models := Publish(models, k, origin);
      }
    }

    method ReallocRecord(k: Key, r: Record)
      requires k in models
      modifies this
      ensures View() == ReallocObject(old(View()), k, r)
    {
      if r.address == 0 {
        models := models[k := models[k].(reallocNull := models[k].reallocNull + 1)];
        live := AddLive(live, r.result, k);
        return;
      }
      if r.address !in live {
        unknownRealloc := unknownRealloc + 1;
        models := models[k := models[k].(reallocNull := models[k].reallocNull + 1)];
        live := AddLive(live, r.result, k);
        return;
      }
      var origin := live[r.address];
      live := live - {r.address};
      if origin.thread != k.thread {
        remoteRealloc := remoteRealloc + 1;
      }
      if r.result != 0 {
        live := AddLive(live, r.result, k);
      } else if r.size != 0 {
        live := AddLive(live, r.address, origin);
      }
    }
  }

  // ------------------------------------------------------------------- one key's numbers

  /** The live objects that were allocated under a key. */
  function From(live: map<nat, Key>, k: Key): set<nat> {
    set a | a in live && live[a] == k
  }

  function RouteSum(routes: map<nat, nat>, n: nat): nat {
    if n == 0 then 0 else RouteSum(routes, n - 1) + Route(routes, n - 1)
  }

  lemma {:induction false} RouteSumBump(routes: map<nat, nat>, t: nat, n: nat)
    ensures RouteSum(routes[t := Route(routes, t) + 1], n)
            == RouteSum(routes, n) + if t < n then 1 else 0
  {
    if n > 0 {
      RouteSumBump(routes, t, n - 1);
    }
  }

  function Frees(m: Model): nat
    requires |m.counts| == FUNC_COUNT
  {
    m.counts[W.FREE] + m.counts[W.FREE_SIZED]
  }

  function Allocs(m: Model): nat
    requires |m.counts| == FUNC_COUNT
  {
    W.AllocSum(m.counts, FUNC_COUNT)
  }

  /** What a phase model may claim. A call of function `f` under key `k` that has been
      counted but not yet applied is still to be used up. */
  predicate ModelOk(m: Model, held: nat, n: nat, pending: Option<nat>) {
    && |m.counts| == FUNC_COUNT
    && m.remotePublish + held + (if pending.Some? && W.IsAllocation(pending.value) then 1 else 0)
       <= Allocs(m)
    && m.remoteFree + (if pending.Some? && !W.IsAllocation(pending.value) then 1 else 0)
       <= Frees(m)
    && m.reallocNull + (if pending == Some(W.REALLOC) then 1 else 0) <= m.counts[W.REALLOC]
    && RouteSum(m.routes, n) == m.remotePublish
    && forall t | t in m.routes :: t < n
  }

  predicate KeyOk(st: State, k: Key, at: Key, pending: Option<nat>) {
    && ModelOk(Get(st.models, k), |From(st.live, k)|, |st.order|, if k == at then pending else None)
    && (k in st.models ==> k.thread < |st.order|)
  }

  ghost predicate KeysOk(st: State, at: Key, pending: Option<nat>) {
    && (forall k: Key :: KeyOk(st, k, at, pending))
    && forall a | a in st.live :: st.live[a] in st.models
  }

  lemma {:induction false} AllocSumBump(s: seq<nat>, f: nat, n: nat)
    requires f < |s| && n <= |s|
    ensures W.AllocSum(s[f := s[f] + 1], n)
            == W.AllocSum(s, n) + if f < n && W.IsAllocation(f) then 1 else 0
  {
    if n > 0 {
      AllocSumBump(s, f, n - 1);
    }
  }

  lemma {:induction false} RouteSumWiden(routes: map<nat, nat>, n: nat, m: nat)
    requires n <= m && forall t | t in routes :: t < n
    ensures RouteSum(routes, m) == RouteSum(routes, n)
  {
    if n < m {
      RouteSumWiden(routes, n, m - 1);
    }
  }

  lemma RegisterKeys(st: State, tid: nat, at: Key)
    requires KeysOk(st, at, None)
    ensures KeysOk(Register(st, tid), at, None)
  {
    var st' := Register(st, tid);
    forall k: Key ensures KeyOk(st', k, at, None) {
      assert KeyOk(st, k, at, None);
      RouteSumWiden(Get(st.models, k).routes, |st.order|, |st'.order|);
    }
  }

  lemma CountKeys(st: State, k: Key, f: nat)
    requires KeysOk(st, k, None) && k.thread < |st.order| && f < FUNC_COUNT
    ensures |Get(st.models, k).counts| == FUNC_COUNT && KeysOk(Count(st, k, f), k, Some(f))
    ensures k in Count(st, k, f).models
  {
    assert KeyOk(st, k, k, None);
    var st' := Count(st, k, f);
    AllocSumBump(Get(st.models, k).counts, f, FUNC_COUNT);
    forall j: Key ensures KeyOk(st', j, k, Some(f)) {
      assert KeyOk(st, j, k, None);
    }
  }

  /** Once applied, the call needs nothing more. */
  lemma Done(st: State, k: Key, f: nat, at: Key)
    requires KeysOk(st, k, Some(f))
    ensures KeysOk(st, at, None)
  {
    forall j: Key ensures KeyOk(st, j, at, None) {
      assert KeyOk(st, j, k, Some(f));
    }
  }

  lemma FromRemoved(live: map<nat, Key>, a: nat, k: Key)
    requires a in live
    ensures From(live - {a}, k) == From(live, k) - {a}
    ensures |From(live - {a}, k)| == |From(live, k)| - if live[a] == k then 1 else 0
  {
    assert a in From(live, k) <==> live[a] == k;
  }

  lemma FromAdded(live: map<nat, Key>, a: nat, origin: Key, k: Key)
    ensures |From(live[a := origin], k)| <= |From(live, k)| + if origin == k then 1 else 0
  {
    var live' := live[a := origin];
    if origin == k {
      assert From(live', k) == From(live, k) + {a};
    } else {
      assert From(live', k) == From(live, k) - {a};
    }
  }

  /** An allocation call puts its object under its own key. */
  lemma AddKeys(st: State, k: Key, f: nat, a: nat)
    requires KeysOk(st, k, Some(f)) && W.IsAllocation(f) && k in st.models
    ensures KeysOk(st.(live := AddLive(st.live, a, k)), k, None)
  {
    var st' := st.(live := AddLive(st.live, a, k));
    forall j: Key ensures KeyOk(st', j, k, None) {
      assert KeyOk(st, j, k, Some(f));
      FromAdded(st.live, a, k, j);
    }
  }

  lemma RemoveKeys(st: State, k: Key, f: nat, a: nat)
    requires KeysOk(st, k, Some(f)) && a in st.live
    ensures KeysOk(st.(live := st.live - {a}), k, Some(f))
  {
    var st' := st.(live := st.live - {a});
    forall j: Key ensures KeyOk(st', j, k, Some(f)) {
      assert KeyOk(st, j, k, Some(f));
      FromRemoved(st.live, a, j);
    }
  }

  /** A failed realloc puts the object back where it came from. */
  lemma RestoreKeys(st: State, k: Key, f: nat, a: nat)
    requires KeysOk(st, k, Some(f)) && a in st.live && a != 0
    ensures AddLive(st.live - {a}, a, st.live[a]) == st.live
  {
    assert (st.live - {a})[a := st.live[a]] == st.live;
  }

  lemma NullKeys(st: State, k: Key)
    requires KeysOk(st, k, Some(W.REALLOC)) && k in st.models
    ensures KeysOk(BumpReallocNull(st, k), k, Some(FUNC_MALLOC))
  {
    var st' := BumpReallocNull(st, k);
    forall j: Key ensures KeyOk(st', j, k, Some(FUNC_MALLOC)) {
      assert KeyOk(st, j, k, Some(W.REALLOC));
    }
  }

  /** A remote free turns a live object into a published one. */
  lemma PublishKeys(st: State, k: Key, f: nat, a: nat)
    requires KeysOk(st, k, Some(f)) && !W.IsAllocation(f) && a in st.live && k in st.models
    requires st.live[a].thread != k.thread
    ensures KeysOk(st.(live := st.live - {a}, models := Publish(st.models, k, st.live[a])),
                   k, None)
  {
    var origin := st.live[a];
    var st' := st.(live := st.live - {a}, models := Publish(st.models, k, origin));
    assert KeyOk(st, k, k, Some(f)) && KeyOk(st, origin, k, Some(f));
    RouteSumBump(Get(st.models, origin).routes, k.thread, |st.order|);
    forall j: Key ensures KeyOk(st', j, k, None) {
      assert KeyOk(st, j, k, Some(f));
      FromRemoved(st.live, a, j);
    }
  }

  /** Every record keeps each key's numbers within its call counts. */
  lemma RecordKeys(st: State, r: Record, phase: nat, at: Key)
    requires Sized(st) && IsAllocatorFunction(r.func) && KeysOk(st, at, None)
    ensures KeysOk(Analyze1(st, r, phase), at, None)
  {
    hide KeyOk, ModelOk;
    RegisterKeys(st, r.tid, at);
    var st1 := Register(st, r.tid);
    var k := Key(IndexOf(st1.order, r.tid), phase);
    AnyKey(st1, at, k);
    CountKeys(st1, k, r.func);
    var st2 := Count(st1, k, r.func);
    var end := Apply(st2, k, r);
    ApplyKeys(st2, k, r);
    AnyKey(end, k, at);
  }

  lemma AnyKey(st: State, k: Key, at: Key)
    requires KeysOk(st, k, None)
    ensures KeysOk(st, at, None)
  {
    forall j: Key ensures KeyOk(st, j, at, None) {
      assert KeyOk(st, j, k, None);
    }
  }

  lemma SameKeys(st: State, st': State, at: Key, pending: Option<nat>)
    requires KeysOk(st, at, pending)
    requires st'.live == st.live && st'.models == st.models && st'.order == st.order
    ensures KeysOk(st', at, pending)
  {
    forall j: Key ensures KeyOk(st', j, at, pending) {
      assert KeyOk(st, j, at, pending);
    }
  }

  lemma ApplyKeys(st: State, k: Key, r: Record)
    requires IsAllocatorFunction(r.func) && KeysOk(st, k, Some(r.func)) && k in st.models
    ensures KeysOk(Apply(st, k, r), k, None)
  {
    hide KeyOk, ModelOk;
    if IsFreeFunction(r.func) {
      if r.address !in st.live {
        Done(st, k, r.func, k);
        SameKeys(st, Apply(st, k, r), k, None);
      } else if st.live[r.address].thread == k.thread {
        RemoveKeys(st, k, r.func, r.address);
        Done(Apply(st, k, r), k, r.func, k);
      } else {
        PublishKeys(st, k, r.func, r.address);
      }
    } else if r.func == FUNC_REALLOC {
      ReallocKeys(st, k, r);
    } else {
      AddKeys(st, k, r.func, r.result);
    }
  }

  lemma ReallocKeys(st: State, k: Key, r: Record)
    requires r.func == FUNC_REALLOC && KeysOk(st, k, Some(r.func)) && k in st.models
    ensures KeysOk(ReallocObject(st, k, r), k, None)
  {
    hide KeyOk, ModelOk;
    if r.address == 0 {
      NullKeys(st, k);
      AddKeys(BumpReallocNull(st, k), k, FUNC_MALLOC, r.result);
    } else if r.address !in st.live {
      NullKeys(st, k);
      var st1 := BumpReallocNull(st, k).(unknownRealloc := st.unknownRealloc + 1);
      SameKeys(BumpReallocNull(st, k), st1, k, Some(FUNC_MALLOC));
      AddKeys(st1, k, FUNC_MALLOC, r.result);
    } else {
      var origin := st.live[r.address];
      var st0 := st.(remoteRealloc := st.remoteRealloc
                       + if origin.thread != k.thread then 1 else 0);
      SameKeys(st, st0, k, Some(r.func));
      RemoveKeys(st0, k, r.func, r.address);
      var st1 := st0.(live := st0.live - {r.address});
      if r.result != 0 {
        AddKeys(st1, k, r.func, r.result);
      } else if r.size != 0 {
        RestoreKeys(st0, k, r.func, r.address);
        Done(st0, k, r.func, k);
      } else {
        Done(st1, k, r.func, k);
      }
    }
  }

  lemma {:induction false} AnalyzedKeys(events: seq<Event>, at: Key)
    requires forall e | e in events :: IsAllocatorFunction(e.record.func)
    ensures KeysOk(Analyze(events), at, None)
  {
    hide KeyOk;
    if events == [] {
      NoKeys(at);
    } else {
      var n := |events| - 1;
      AnalyzedKeys(events[..n], at);
      RecordKeys(Analyze(events[..n]), events[n].record, events[n].phase, at);
    }
  }

  lemma NoKeys(at: Key)
    ensures KeysOk(INITIAL, at, None)
  {
    forall k: Key ensures KeyOk(INITIAL, k, at, None) {
      assert From(INITIAL.live, k) == {};
      EmptyRoutes(0);
    }
  }

  lemma {:induction false} EmptyRoutes(n: nat)
    ensures RouteSum(map[], n) == 0
  {
    if n > 0 {
      EmptyRoutes(n - 1);
    }
  }

  // ---------------------------------------------------------------- routes against frees

  /** Objects for thread t published by threads below n in one phase. */
  function PhaseRoutes(models: map<Key, Model>, n: nat, phase: nat, t: nat): nat {
    if n == 0 then 0
    else PhaseRoutes(models, n - 1, phase, t)
         + Route(Get(models, Key(n - 1, phase)).routes, t)
  }

  /** ... in all phases before p. */
  function RoutesThrough(models: map<Key, Model>, n: nat, p: nat, t: nat): nat {
    if p == 0 then 0
    else RoutesThrough(models, n, p - 1, t) + PhaseRoutes(models, n, p - 1, t)
  }

  /** Remote frees of thread t in phases before p. */
  function FreesThrough(models: map<Key, Model>, t: nat, p: nat): nat {
    if p == 0 then 0
    else FreesThrough(models, t, p - 1) + Get(models, Key(t, p - 1)).remoteFree
  }

  predicate SameFlow(a: map<Key, Model>, b: map<Key, Model>, k: Key) {
    Get(a, k).routes == Get(b, k).routes && Get(a, k).remoteFree == Get(b, k).remoteFree
  }

  lemma {:induction false} PhaseRoutesSame(
    a: map<Key, Model>, b: map<Key, Model>, n: nat, phase: nat, t: nat)
    requires forall k: Key :: SameFlow(a, b, k)
    ensures PhaseRoutes(a, n, phase, t) == PhaseRoutes(b, n, phase, t)
  {
    if n > 0 {
      PhaseRoutesSame(a, b, n - 1, phase, t);
      assert SameFlow(a, b, Key(n - 1, phase));
    }
  }

  lemma {:induction false} FlowSame(
    a: map<Key, Model>, b: map<Key, Model>, n: nat, p: nat, t: nat)
    requires forall k: Key :: SameFlow(a, b, k)
    ensures RoutesThrough(a, n, p, t) == RoutesThrough(b, n, p, t)
    ensures FreesThrough(a, t, p) == FreesThrough(b, t, p)
  {
    if p > 0 {
      FlowSame(a, b, n, p - 1, t);
      PhaseRoutesSame(a, b, n, p - 1, t);
      assert SameFlow(a, b, Key(t, p - 1));
    }
  }

  /** A thread without models adds nothing. */
  lemma {:induction false} FlowWidens(models: map<Key, Model>, n: nat, p: nat, t: nat)
    requires forall k | k in models :: k.thread < n
    ensures RoutesThrough(models, n + 1, p, t) == RoutesThrough(models, n, p, t)
  {
    if p > 0 {
      FlowWidens(models, n, p - 1, t);
      assert Key(n, p - 1) !in models;
    }
  }

  lemma {:induction false} PhaseRoutesPublish(
    models: map<Key, Model>, freer: Key, origin: Key, n: nat, phase: nat, t: nat)
    requires freer.thread != origin.thread
    ensures PhaseRoutes(Publish(models, freer, origin), n, phase, t)
            == PhaseRoutes(models, n, phase, t)
               + if t == freer.thread && phase == origin.phase && origin.thread < n then 1 else 0
  {
    if n > 0 {
      PhaseRoutesPublish(models, freer, origin, n - 1, phase, t);
    }
  }

  lemma {:induction false} FlowPublish(
    models: map<Key, Model>, freer: Key, origin: Key, n: nat, p: nat, t: nat)
    requires freer.thread != origin.thread && origin.thread < n
    ensures var models' := Publish(models, freer, origin);
      && RoutesThrough(models', n, p, t)
         == RoutesThrough(models, n, p, t)
            + (if t == freer.thread && origin.phase < p then 1 else 0)
      && FreesThrough(models', t, p)
         == FreesThrough(models, t, p)
            + (if t == freer.thread && freer.phase < p then 1 else 0)
  {
    if p > 0 {
      FlowPublish(models, freer, origin, n, p - 1, t);
      PhaseRoutesPublish(models, freer, origin, n, p - 1, t);
    }
  }

  /** Up to any phase t is sent at least what it frees remotely, and in the end exactly. */
  predicate FlowOk(st: State, last: nat, t: nat, p: nat) {
    && FreesThrough(st.models, t, p) <= RoutesThrough(st.models, |st.order|, p, t)
    && (p > last ==> FreesThrough(st.models, t, p) == RoutesThrough(st.models, |st.order|, p, t))
  }

  ghost predicate FlowsOk(st: State, last: nat) {
    && (forall t: nat, p: nat :: FlowOk(st, last, t, p))
    && (forall k | k in st.models :: k.thread < |st.order|)
    && (forall a | a in st.live :: st.live[a].phase <= last && st.live[a].thread < |st.order|)
  }

  /** Steps that publish nothing. */
  lemma QuietFlows(st: State, st': State, last: nat, last': nat)
    requires FlowsOk(st, last) && last <= last' && st'.order == st.order
    requires forall k: Key :: SameFlow(st.models, st'.models, k)
    requires forall k | k in st'.models :: k.thread < |st'.order|
    requires forall a | a in st'.live :: st'.live[a].phase <= last' && st'.live[a].thread < |st.order|
    ensures FlowsOk(st', last')
  {
    forall t: nat, p: nat ensures FlowOk(st', last', t, p) {
      assert FlowOk(st, last, t, p);
      FlowSame(st.models, st'.models, |st.order|, p, t);
    }
  }

  lemma RegisterFlows(st: State, tid: nat, last: nat)
    requires FlowsOk(st, last)
    ensures FlowsOk(Register(st, tid), last)
  {
    var st' := Register(st, tid);
    forall t: nat, p: nat ensures FlowOk(st', last, t, p) {
      assert FlowOk(st, last, t, p);
      FlowWidens(st.models, |st.order|, p, t);
    }
  }

  lemma PublishFlows(st: State, k: Key, a: nat, last: nat)
    requires FlowsOk(st, last) && a in st.live && st.live[a].thread != k.thread
    requires k.thread < |st.order| && last <= k.phase
    ensures FlowsOk(st.(live := st.live - {a}, models := Publish(st.models, k, st.live[a])),
                    k.phase)
  {
    var origin := st.live[a];
    var st' := st.(live := st.live - {a}, models := Publish(st.models, k, origin));
    forall t: nat, p: nat ensures FlowOk(st', k.phase, t, p) {
      assert FlowOk(st, last, t, p);
      FlowPublish(st.models, k, origin, |st.order|, p, t);
    }
  }

  lemma RecordFlows(st: State, r: Record, phase: nat, last: nat)
    requires Sized(st) && IsAllocatorFunction(r.func) && FlowsOk(st, last) && last <= phase
    ensures FlowsOk(Analyze1(st, r, phase), phase)
  {
    hide FlowOk;
    RegisterFlows(st, r.tid, last);
    var st1 := Register(st, r.tid);
    var k := Key(IndexOf(st1.order, r.tid), phase);
    QuietFlows(st1, Count(st1, k, r.func), last, last);
    ApplyFlows(Count(st1, k, r.func), k, r, last);
  }

  lemma ApplyFlows(st2: State, k: Key, r: Record, last: nat)
    requires FlowsOk(st2, last) && last <= k.phase && k.thread < |st2.order|
    requires IsAllocatorFunction(r.func)
    ensures FlowsOk(Apply(st2, k, r), k.phase)
  {
    hide FlowOk;
    if IsFreeFunction(r.func) && r.address in st2.live
       && st2.live[r.address].thread != k.thread {
      PublishFlows(st2, k, r.address, last);
    } else {
      QuietFlows(st2, Apply(st2, k, r), last, k.phase);
    }
  }

  predicate PhasesGrow(events: seq<Event>) {
    forall i, j | 0 <= i < j < |events| :: events[i].phase <= events[j].phase
  }

  function LastPhase(events: seq<Event>): nat {
    if events == [] then 0 else events[|events| - 1].phase
  }

  lemma {:induction false} AnalyzedFlows(events: seq<Event>)
    requires forall e | e in events :: IsAllocatorFunction(e.record.func)
    requires PhasesGrow(events)
    ensures FlowsOk(Analyze(events), LastPhase(events))
  {
    if events == [] {
      forall t: nat, p: nat ensures FlowOk(INITIAL, 0, t, p) {
        NoFlow(p, t);
      }
    } else {
      var n := |events| - 1;
      AnalyzedFlows(events[..n]);
      RecordFlows(Analyze(events[..n]), events[n].record, events[n].phase,
                  LastPhase(events[..n]));
    }
  }

  lemma {:induction false} NoFlow(p: nat, t: nat)
    ensures RoutesThrough(map[], 0, p, t) == 0 && FreesThrough(map[], t, p) == 0
  {
    if p > 0 {
      NoFlow(p - 1, t);
    }
  }

  /** Route conservation: through any phase the profile sends a thread at least as many
      objects as it frees remotely, and over the whole trace exactly as many. */
  lemma RoutesCoverFrees(events: seq<Event>, t: nat, p: nat)
    requires forall e | e in events :: IsAllocatorFunction(e.record.func)
    requires PhasesGrow(events)
    ensures var st := Analyze(events);
      && FreesThrough(st.models, t, p) <= RoutesThrough(st.models, |st.order|, p, t)
      && (p > LastPhase(events) ==>
            FreesThrough(st.models, t, p) == RoutesThrough(st.models, |st.order|, p, t))
  {
    AnalyzedFlows(events);
    assert FlowOk(Analyze(events), LastPhase(events), t, p);
  }

  // ------------------------------------------------------------- what the runtime is given

  /** write_image: the routes of a model, sorted by target. */
  function RouteList(routes: map<nat, nat>, n: nat): seq<Q.Route> {
    if n == 0 then []
    else RouteList(routes, n - 1) + if n - 1 in routes then [Q.Route(n - 1, routes[n - 1])] else []
  }

  function Profile(m: Model, threads: nat): W.Model {
    W.Model(m.counts, m.remoteFree, m.remotePublish, m.reallocNull, RouteList(m.routes, threads))
  }

  lemma {:induction false} RouteListTotals(routes: map<nat, nat>, n: nat, t: nat)
    ensures Q.RouteTotal(RouteList(routes, n)) == RouteSum(routes, n)
    ensures Q.SentTo(RouteList(routes, n), t) == if t < n then Route(routes, t) else 0
    ensures forall r | r in RouteList(routes, n) :: r.target < n
  {
    if n > 0 {
      RouteListTotals(routes, n - 1, t);
      var before := RouteList(routes, n - 1);
      if n - 1 in routes {
        var whole := before + [Q.Route(n - 1, routes[n - 1])];
        assert whole[..|whole| - 1] == before;
      } else {
        assert RouteList(routes, n) == before;
      }
    }
  }

  /** Every phase model the profile hands to the runtime keeps the runtime's assumptions:
      its quotas can be met, and its routes name real threads and exactly the published
      objects. */
  lemma ProfileIsWellFormed(events: seq<Event>, k: Key, t: nat)
    requires forall e | e in events :: IsAllocatorFunction(e.record.func)
    ensures var st := Analyze(events);
      && W.WellFormed(Profile(Get(st.models, k), |st.order|), |st.order|)
      && Q.SentTo(Profile(Get(st.models, k), |st.order|).routes, t)
         == (if t < |st.order| then Route(Get(st.models, k).routes, t) else 0)
  {
    var st := Analyze(events);
    AnalyzedKeys(events, k);
    assert KeyOk(st, k, k, None);
    RouteListTotals(Get(st.models, k).routes, |st.order|, t);
  }
}
