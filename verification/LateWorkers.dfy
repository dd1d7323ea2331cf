/** What happens when a worker is launched after the first announced epoch. It reads the
    epoch before its own and may be counted for the next one. The count then stays one ahead
    from epoch to epoch, until the worker that lags finishes between the check for finished
    workers and the next announcement: its arrival is wiped and the controller waits for
    ever. So the barrier's count is right in every run, and every replay completes, exactly
    when all workers start inside the same epoch. */
module LateWorkers {
  import opened NativeFormat
  import opened EpochBarrier
  import opened EpochTheorems
  import opened EpochProgress

  // ------------------------------------------------------------------- building a run

  lemma ByController(cfg: Config, run: seq<State>, s': State) returns (longer: seq<State>)
    requires IsRun(cfg, run) && |run[|run| - 1].workers| == |cfg.workers|
    requires ControlStep(cfg, run[|run| - 1], s')
    ensures IsRun(cfg, longer) && longer[|longer| - 1] == s'
  {
    assert Step(cfg, run[|run| - 1], s');
    longer := Longer(cfg, run, s');
  }

  lemma ByWorker(cfg: Config, run: seq<State>, s': State, w: nat) returns (longer: seq<State>)
    requires IsRun(cfg, run) && w < |run[|run| - 1].workers| == |cfg.workers|
    requires WorkerStep(cfg, run[|run| - 1], s', w)
    ensures IsRun(cfg, longer) && longer[|longer| - 1] == s'
  {
    assert Step(cfg, run[|run| - 1], s');
    longer := Longer(cfg, run, s');
  }

  lemma Longer(cfg: Config, run: seq<State>, s': State) returns (longer: seq<State>)
    requires IsRun(cfg, run) && Step(cfg, run[|run| - 1], s')
    ensures IsRun(cfg, longer) && longer[|longer| - 1] == s'
  {
    longer := run + [s'];
    forall i | 0 <= i < |longer| - 1 ensures StepAt(cfg, longer, i) {
      assert i < |run| - 1 ==> StepAt(cfg, run, i);
    }
  }

  // --------------------------------------------------- exactly when the count is right

  /** While the controller waits its count is the number of launched, unjoined workers that
      have arrived for the announced epoch. */
  predicate CountsRight(s: State) {
    s.control.Waiting? ==> s.arrived == Count(ArrivedFlags(s))
  }

  ghost predicate AlwaysCountsRight(cfg: Config) {
    forall run | IsRun(cfg, run) :: CountsRight(run[|run| - 1])
  }

  /** A worker's operations lie after its start, and its end does too. */
  predicate Lifetimes(cfg: Config) {
    && (forall w | 0 <= w < |cfg.workers| :: cfg.workers[w].startTs <= cfg.workers[w].endTs)
    && forall w, k | 0 <= w < |cfg.workers| && 0 <= k < |cfg.ops|
                     && cfg.ops[k].tid == cfg.workers[w].tid ::
         cfg.workers[w].startTs <= cfg.ops[k].ts
  }

  /** The barrier counts right in every run if and only if all workers start inside the same
      epoch. */
  lemma CountsExactlyWhenTogether(cfg: Config)
    requires WellFormed(cfg) && Lifetimes(cfg)
    ensures AlwaysCountsRight(cfg) <==> Together(cfg)
  {
    if Together(cfg) {
      forall run | IsRun(cfg, run) ensures CountsRight(run[|run| - 1]) {
        RunInv(cfg, run, |run| - 1);
      }
    } else {
      InitialInv(cfg);
      var run := ReachLate(cfg, [Initial(cfg)]);
      run := Miscount(cfg, run);
      assert !CountsRight(run[|run| - 1]);
    }
  }

  /** The controller is about to launch a worker after an announcement. */
  predicate LateReady(cfg: Config, s: State) {
    s.id >= 1 && s.control.Launching? && s.next < |cfg.workers| && !NoMoreLaunches(cfg, s)
  }

  lemma NotDone(cfg: Config, s: State)
    requires Inv(cfg, s) && !Together(cfg)
    ensures !s.control.Done?
  {}

  /** Workers still to be launched start, and so operate, after the current epoch. */
  lemma WaitingIsSupplied(cfg: Config, s: State)
    requires WellFormed(cfg) && Lifetimes(cfg) && Inv(cfg, s) && s.control.Waiting?
    ensures Supplied(cfg, s)
  {
    forall w, k | s.next <= w < |cfg.workers| && 0 <= k < |cfg.ops|
                  && cfg.ops[k].tid == cfg.workers[w].tid
      ensures cfg.ops[k].ts >= s.end
    {
      assert s.next < w ==> InOrder(cfg, s.next, w);
    }
  }

  /** Unless all workers start together, every run can be continued to a late launch. */
  lemma {:induction false} ReachLate(cfg: Config, run: seq<State>) returns (longer: seq<State>)
    requires WellFormed(cfg) && Lifetimes(cfg) && !Together(cfg)
    requires IsRun(cfg, run) && Inv(cfg, run[|run| - 1])
    ensures IsRun(cfg, longer) && Inv(cfg, longer[|longer| - 1])
    ensures LateReady(cfg, longer[|longer| - 1])
    decreases Measure(cfg, run[|run| - 1])
  {
    hide Inv, WellFormed, Lifetimes, Together, Measure, Step;
    var s := run[|run| - 1];
    longer := run;
    if !LateReady(cfg, s) {
      NotDone(cfg, s);
      if s.control.Waiting? {
        WaitingIsSupplied(cfg, s);
      }
      NeverStuck(cfg, s);
      var s' :| Step(cfg, s, s');
      StepKeeps(cfg, s, s');
      StepDecreases(cfg, s, s');
      longer := Longer(cfg, run, s');
      longer := ReachLate(cfg, longer);
    }
  }

  // ------------------------------------------------------------------------- launching

  /** The launching loop runs to its end; earlier workers are untouched. */
  lemma {:induction false} LaunchRest(cfg: Config, run: seq<State>) returns (longer: seq<State>)
    requires IsRun(cfg, run)
    requires var s := run[|run| - 1];
      && s.control.Launching? && s.next <= |cfg.workers| == |s.workers|
      && forall w | s.next <= w < |s.workers| :: Unborn(s, w)
    ensures IsRun(cfg, longer)
    ensures Launched(cfg, run[|run| - 1], longer[|longer| - 1])
    decreases |cfg.workers| - run[|run| - 1].next
  {
    var s := run[|run| - 1];
    longer := run;
    if !NoMoreLaunches(cfg, s) {
      assert Unborn(s, s.next);
      var s' := s.(next := s.next + 1, active := s.active + 1,
                   workers := s.workers[s.next := Worker(Checking, 0, 0, false)]);
      longer := ByController(cfg, run, s');
      forall w | s'.next <= w < |s'.workers| ensures Unborn(s', w) {
        assert Unborn(s, w);
      }
      CountUpdate(Unjoined(s.workers), s.next, true);
      assert Unjoined(s'.workers) == Unjoined(s.workers)[s.next := true];
      longer := LaunchRest(cfg, longer);
      assert longer[|longer| - 1].workers[s.next] == s'.workers[s.next];
    }
  }

  /** Nothing but launches lies between s and t, and none is left. */
  ghost predicate Launched(cfg: Config, s: State, t: State)
    requires s.next <= |s.workers|
  {
    && t.control.Launching? && NoMoreLaunches(cfg, t)
    && s.next <= t.next <= |cfg.workers| == |t.workers| == |s.workers|
    && t == s.(next := t.next, active := t.active, workers := t.workers)
    && t.active == s.active + (t.next - s.next)
    && Count(Unjoined(t.workers)) == Count(Unjoined(s.workers)) + (t.next - s.next)
    && (forall w | 0 <= w < s.next :: t.workers[w] == s.workers[w])
    && (forall w | s.next <= w < t.next :: t.workers[w] == Worker(Checking, 0, 0, false))
    && forall w | t.next <= w < |t.workers| :: Unborn(t, w)
  }

  /** Between epochs worker m has not arrived for the last one, all others have, and m is
      about to: it lags. */
  ghost predicate Lagging(cfg: Config, s: State, m: nat, finishing: bool) {
    && s.control.Launching? && s.id >= 1 && s.next <= |cfg.workers| == |s.workers| && m < s.next
    && LagsAt(cfg, s, m, finishing)
    && (forall w | 0 <= w < s.next && w != m :: WorkerOk(cfg, s, w) && Rested(s, w))
    && (forall w | s.next <= w < |s.workers| :: Unborn(s, w))
    && s.active == Count(Unjoined(s.workers)) && s.end <= EpochEnd(cfg, s.epoch)
    && GensOk(cfg, s)
  }

  ghost predicate LagsAt(cfg: Config, s: State, m: nat, finishing: bool)
    requires m < |cfg.workers| == |s.workers|
  {
    && s.workers[m] == Worker(Arriving(s.end, finishing), s.id, s.workers[m].pos, false)
    && NothingAfter(cfg, s, m, s.end) && (finishing ==> s.workers[m].pos == |Q(cfg, m)|)
  }

  /** Worker m is wanted in the current epoch and has not arrived for it. */
  predicate Wanted(s: State, m: nat) {
    m < s.next && m < |s.workers| && !s.workers[m].phase.Unlaunched? && !s.workers[m].joined
    && !Arrived(s, m)
  }

  /** Inside an epoch, off by d; who is still to be launched starts later. */
  ghost predicate Off(cfg: Config, s: State, d: int) {
    && Inside(cfg, s, d) && GensOk(cfg, s)
    && (s.next < |cfg.workers| ==> s.epoch < cfg.epochs && cfg.workers[s.next].startTs >= s.end)
  }

  function Announced(cfg: Config, s: State): State {
    s.(control := Waiting, end := EpochEnd(cfg, s.epoch), arrived := 0, target := s.active,
       id := s.id + 1)
  }

  /** Every worker but m after the announcement: nobody has arrived for the new epoch. */
  lemma OthersAnnounced(
    cfg: Config, s: State, t: State, u: State, m: nat, finishing: bool, w: nat)
    requires Lagging(cfg, s, m, finishing) && w != m && w < t.next
    requires s.next <= |s.workers| && t.id == s.id && t.next <= |t.workers|
    requires |t.workers| == |s.workers| == |u.workers|
    requires w < s.next ==> t.workers[w] == s.workers[w]
    requires w >= s.next ==> t.workers[w] == Worker(Checking, 0, 0, false)
    requires u.control.Waiting? && u.id == s.id + 1 && u.end >= s.end
    requires u.workers[w] == t.workers[w]
    ensures WorkerOk(cfg, u, w) && (u.workers[w].joined || !Arrived(u, w))
  {
    if w < s.next {
      assert WorkerOk(cfg, s, w) && Rested(s, w);
      forall i | 0 <= i < s.workers[w].pos ensures AfterAt(cfg, w, u.end, i) {
        assert AfterAt(cfg, w, s.end, i);
      }
      if s.workers[w].phase.Gone? {
        GoneBelow(cfg, s, u, w);
      }
    }
  }

  lemma CountOne(bs: seq<bool>, m: nat)
    requires m < |bs| && bs[m] && forall i | 0 <= i < |bs| && i != m :: !bs[i]
    ensures Count(bs) == 1
  {
    CountUpdate(bs, m, false);
    CountNone(bs[m := false]);
  }

  lemma LagsLater(cfg: Config, s: State, u: State, m: nat, finishing: bool)
    requires Lagging(cfg, s, m, finishing) && |u.workers| == |s.workers|
    requires u.control.Waiting? && u.id == s.id + 1 && u.end >= s.end
    requires u.workers[m] == Worker(if finishing then Gone else Checking, s.id,
                                    s.workers[m].pos, false)
    ensures WorkerOk(cfg, u, m)
  {
    forall i | 0 <= i < s.workers[m].pos ensures AfterAt(cfg, m, u.end, i) {
      assert AfterAt(cfg, m, s.end, i);
    }
    if finishing {
      forall i | 0 <= i < |Q(cfg, m)| ensures BelowAt(cfg, u, m, u.end, i) {
        assert AfterAt(cfg, m, s.end, i);
      }
    }
  }

  /** The announced state's bookkeeping, one ahead or one behind because of m. */
  lemma OffByOne(cfg: Config, s: State, t: State, u: State, m: nat, finishing: bool)
    requires WellFormed(cfg) && Lagging(cfg, s, m, finishing)
    requires s.next <= t.next <= |cfg.workers| == |t.workers| && NoMoreLaunches(cfg, t)
    requires t.id == s.id && t.end == s.end && t.epoch == s.epoch
    requires forall w | 0 <= w < s.next && w != m :: t.workers[w] == s.workers[w]
    requires forall w | s.next <= w < t.next :: t.workers[w] == Worker(Checking, 0, 0, false)
    requires forall w | t.next <= w < |t.workers| :: Unborn(t, w)
    requires t.active == Count(Unjoined(t.workers)) > 0
    requires u == Announced(cfg, t).(workers := u.workers,
                                     arrived := if finishing then 0 else 1)
    requires m < |u.workers| == |t.workers|
    requires u.workers == t.workers[m := u.workers[m]] && !t.workers[m].joined
    requires !t.workers[m].phase.Unlaunched?
    requires u.workers[m] == Worker(if finishing then Gone else Checking, s.id,
                                    s.workers[m].pos, false)
    requires t.gens == s.gens
    ensures Off(cfg, u, if finishing then -1 else 1)
    ensures !finishing ==> Wanted(u, m)
  {
    forall w | 0 <= w < |s.workers| ensures u.workers[w].pos == s.workers[w].pos {
      assert w >= s.next ==> Unborn(s, w);
      assert w >= t.next ==> Unborn(t, w);
    }
    GensSame(cfg, s, u);
    assert u.end >= s.end;
    forall w | u.next <= w < |u.workers| ensures Unborn(u, w) {
      assert Unborn(t, w);
    }
    forall w | 0 <= w < u.next
      ensures WorkerOk(cfg, u, w) && (w != m ==> u.workers[w].joined || !Arrived(u, w))
    {
      if w != m {
        OthersAnnounced(cfg, s, t, u, m, finishing, w);
      } else {
        LagsLater(cfg, s, u, m, finishing);
      }
    }
    assert Unjoined(u.workers) == Unjoined(t.workers);
    forall w | 0 <= w < |u.workers| && w != m ensures !ArrivedFlags(u)[w] {
      assert w >= u.next ==> Unborn(u, w);
    }
    if finishing {
      CountOne(ArrivedFlags(u), m);
    } else {
      CountNone(ArrivedFlags(u));
    }
  }

  /** From a lagging worker to a wrong count: a stale arrival is counted for the epoch that
      is announced before it; the arrival of a worker that has finished is wiped by an
      announcement that still waits for it. */
  lemma Relaunch(cfg: Config, run: seq<State>, m: nat, finishing: bool)
    returns (longer: seq<State>)
    requires WellFormed(cfg) && IsRun(cfg, run) && Lagging(cfg, run[|run| - 1], m, finishing)
    ensures IsRun(cfg, longer) && Off(cfg, longer[|longer| - 1], if finishing then -1 else 1)
    ensures longer[|longer| - 1].epoch == run[|run| - 1].epoch
    ensures !finishing ==> Wanted(longer[|longer| - 1], m)
  {
    hide WorkerOk, WellFormed, NothingAfter;
    var s := run[|run| - 1];
    var w' := Worker(if finishing then Gone else Checking, s.id, s.workers[m].pos, false);
    SomebodyActive(s.workers, m);
    if finishing {
      var s1 := s.(arrived := s.arrived + 1, workers := s.workers[m := w']);
      longer := ByWorker(cfg, run, s1, m);
      forall w | s1.next <= w < |s1.workers| ensures Unborn(s1, w) {
        assert Unborn(s, w);
      }
      assert Unjoined(s1.workers) == Unjoined(s.workers);
      longer := LaunchRest(cfg, longer);
      var t := longer[|longer| - 1];
      var u := Announced(cfg, t);
      longer := ByController(cfg, longer, u);
      OffByOne(cfg, s, t, u, m, finishing);
    } else {
      longer := LaunchRest(cfg, run);
      var t := longer[|longer| - 1];
      longer := ByController(cfg, longer, Announced(cfg, t));
      var u := Announced(cfg, t).(arrived := 1, workers := t.workers[m := w']);
      longer := ByWorker(cfg, longer, u, m);
      OffByOne(cfg, s, t, u, m, finishing);
    }
  }

  lemma SomebodyActive(workers: seq<Worker>, m: nat)
    requires m < |workers| && !workers[m].phase.Unlaunched? && !workers[m].joined
    ensures Count(Unjoined(workers)) > 0
  {
    CountUpdate(Unjoined(workers), m, false);
  }

  /** A late worker wakes before the next announcement and finds nothing to do. */
  lemma WakesEarly(cfg: Config, run: seq<State>)
    returns (longer: seq<State>, m: nat, finishing: bool)
    requires WellFormed(cfg) && Lifetimes(cfg)
    requires IsRun(cfg, run) && Inv(cfg, run[|run| - 1]) && LateReady(cfg, run[|run| - 1])
    ensures IsRun(cfg, longer) && Lagging(cfg, longer[|longer| - 1], m, finishing)
    ensures longer[|longer| - 1].epoch <= cfg.epochs
  {
    var s := run[|run| - 1];
    m := s.next;
    assert Unborn(s, m);
    var s1 := s.(next := m + 1, active := s.active + 1,
                 workers := s.workers[m := Worker(Checking, 0, 0, false)]);
    longer := ByController(cfg, run, s1);
    var s2 := s1.(workers := s1.workers[m := Worker(Running(s.end), s.id, 0, false)]);
    longer := ByWorker(cfg, longer, s2, m);
    QueueShape(cfg.ops, cfg.workers[m].tid);
    assert !HasWork(cfg, s2, m, s.end);
    finishing := 0 >= |Q(cfg, m)| && s.end >= cfg.workers[m].endTs;
    var s3 := s2.(workers := s2.workers[m := Worker(Arriving(s.end, finishing), s.id, 0, false)]);
    longer := ByWorker(cfg, longer, s3, m);
    LateLags(cfg, s, s3, m, finishing);
  }

  lemma LateLags(cfg: Config, s: State, t: State, m: nat, finishing: bool)
    requires WellFormed(cfg) && Inv(cfg, s) && LateReady(cfg, s) && m == s.next
    requires t == s.(next := m + 1, active := s.active + 1, workers := t.workers)
    requires t.workers == s.workers[m := Worker(Arriving(s.end, finishing), s.id, 0, false)]
    requires finishing ==> |Q(cfg, m)| == 0
    ensures Lagging(cfg, t, m, finishing) && t.epoch <= cfg.epochs
  {
    assert Unborn(s, m);
    forall w | 0 <= w < m ensures WorkerOk(cfg, t, w) && Rested(t, w) {
      assert Rested(s, w);
      OtherWorkerOk(cfg, s, t, w);
    }
    forall w | t.next <= w < |t.workers| ensures Unborn(t, w) {
      assert Unborn(s, w);
    }
    CountUpdate(Unjoined(s.workers), m, true);
    assert Unjoined(t.workers) == Unjoined(s.workers)[m := true];
    GensSame(cfg, s, t);
  }

  /** Any late launch can be continued to a wrong count. */
  lemma Miscount(cfg: Config, run: seq<State>) returns (longer: seq<State>)
    requires WellFormed(cfg) && Lifetimes(cfg)
    requires IsRun(cfg, run) && Inv(cfg, run[|run| - 1]) && LateReady(cfg, run[|run| - 1])
    ensures IsRun(cfg, longer) && !CountsRight(longer[|longer| - 1])
  {
    var m, finishing;
    longer, m, finishing := WakesEarly(cfg, run);
    longer := Relaunch(cfg, longer, m, finishing);
  }

  // ------------------------------------------------------------------------------- hangs

  /** One arrival short, the controller waits for ever. */
  lemma {:induction false} Hang(cfg: Config, run: seq<State>) returns (longer: seq<State>)
    requires WellFormed(cfg) && IsRun(cfg, run) && Off(cfg, run[|run| - 1], -1)
    ensures IsRun(cfg, longer) && Stuck(cfg, longer[|longer| - 1])
    ensures !longer[|longer| - 1].control.Done?
    decreases WorkLeft(cfg, run[|run| - 1], |cfg.workers|)
  {
    var s := run[|run| - 1];
    longer := run;
    if !Stuck(cfg, s) {
      var s' :| Step(cfg, s, s');
      NeverLeaves(cfg, s, s');
      var w: nat :| w < |s.workers| && WorkerStep(cfg, s, s', w);
      KeepInside(cfg, s, s', w, -1);
      InsideDecreases(cfg, s, s', w, -1);
      longer := Longer(cfg, run, s');
      longer := Hang(cfg, longer);
    }
  }

  lemma NeverLeaves(cfg: Config, s: State, s': State)
    requires Inside(cfg, s, -1)
    ensures !ControlStep(cfg, s, s')
  {
    forall w | 0 <= w < |s.workers| && ArrivedFlags(s)[w] ensures Unjoined(s.workers)[w] {
      assert w >= s.next ==> Unborn(s, w);
    }
    CountBelow(ArrivedFlags(s), Unjoined(s.workers));
  }

  /** Everybody but m has arrived, and m is about to. */
  predicate OnlyLags(s: State, m: nat)
    requires s.next <= |s.workers| && m < s.next
  {
    && s.workers[m].phase.Arriving?
    && forall w | 0 <= w < s.next && w != m :: Arrived(s, w)
  }

  /** Everybody else can finish the epoch while m stops short of arriving. */
  lemma {:induction false} Drive(cfg: Config, run: seq<State>, m: nat)
    returns (longer: seq<State>)
    requires WellFormed(cfg) && Lifetimes(cfg) && IsRun(cfg, run)
    requires Off(cfg, run[|run| - 1], 1) && Wanted(run[|run| - 1], m)
    ensures IsRun(cfg, longer) && Off(cfg, longer[|longer| - 1], 1)
    ensures longer[|longer| - 1].epoch == run[|run| - 1].epoch
    ensures Wanted(longer[|longer| - 1], m) && OnlyLags(longer[|longer| - 1], m)
    decreases WorkLeft(cfg, run[|run| - 1], |cfg.workers|)
  {
    hide WellFormed, Lifetimes, GensOk, WorkerStep, WorkLeft, WorkerOk;
    var s := run[|run| - 1];
    longer := run;
    if !OnlyLags(s, m) {
      var w, s' := OthersMove(cfg, s, m);
      longer := ByWorker(cfg, run, s', w);
      longer := Drive(cfg, longer, m);
    }
  }

  /** While somebody other than m is still missing, there is a step that does not let m
      arrive. */
  lemma OthersMove(cfg: Config, s: State, m: nat) returns (w: nat, s': State)
    requires WellFormed(cfg) && Lifetimes(cfg) && Off(cfg, s, 1)
    requires Wanted(s, m) && !OnlyLags(s, m)
    ensures w < |s.workers| == |s'.workers| == |cfg.workers| && WorkerStep(cfg, s, s', w)
    ensures Off(cfg, s', 1) && Wanted(s', m) && s'.epoch == s.epoch
    ensures WorkLeft(cfg, s', |cfg.workers|) < WorkLeft(cfg, s, |cfg.workers|)
  {
    hide WellFormed, Lifetimes, GensOk, WorkLeft, WorkerStep;
    LateIsSupplied(cfg, s);
    var v := m;
    if s.workers[m].phase.Arriving? {
      v :| 0 <= v < s.next && v != m && !Arrived(s, v);
    }
    w, s' := AbsentMoves(cfg, s, v, 1);
    KeepInside(cfg, s, s', w, 1);
    InsideDecreases(cfg, s, s', w, 1);
    StaysWanted(cfg, s, s', w, m);
  }

  lemma StaysWanted(cfg: Config, s: State, s': State, w: nat, m: nat)
    requires Inside(cfg, s, 1) && Wanted(s, m) && w < |s.workers| == |cfg.workers|
    requires WorkerStep(cfg, s, s', w) && (w == m ==> !Arrive(s, s', w))
    ensures Wanted(s', m)
  {
    assert WorkerOk(cfg, s, m);
  }

  lemma LateIsSupplied(cfg: Config, s: State)
    requires WellFormed(cfg) && Lifetimes(cfg) && Off(cfg, s, 1)
    ensures Supplied(cfg, s)
  {
    forall w, k | s.next <= w < |cfg.workers| && 0 <= k < |cfg.ops|
                  && cfg.ops[k].tid == cfg.workers[w].tid
      ensures cfg.ops[k].ts >= s.end
    {
      assert s.next < w ==> InOrder(cfg, s.next, w);
    }
  }

  /** The workers after the check for finished ones. */
  predicate Checked(before: Worker, after: Worker) {
    after == if before.phase.Gone? then before.(joined := true) else before
  }

  lemma {:induction false} JoinAll(cfg: Config, run: seq<State>) returns (longer: seq<State>)
    requires IsRun(cfg, run) && run[|run| - 1].control.Joining?
    requires var s := run[|run| - 1];
      && s.control.k <= s.next <= |s.workers| == |cfg.workers|
      && s.active == Count(Unjoined(s.workers))
      && forall w | 0 <= w < s.control.k :: Checked(s.workers[w], s.workers[w])
    ensures IsRun(cfg, longer)
    ensures var s, t := run[|run| - 1], longer[|longer| - 1];
      && |t.workers| == |s.workers|
      && t == s.(control := Launching, epoch := s.epoch + 1, active := t.active,
                 workers := t.workers)
      && t.active == Count(Unjoined(t.workers))
      && (forall w | 0 <= w < s.next :: Checked(s.workers[w], t.workers[w]))
      && forall w | s.next <= w < |s.workers| :: t.workers[w] == s.workers[w]
    decreases run[|run| - 1].next - run[|run| - 1].control.k
  {
    var s := run[|run| - 1];
    var k := s.control.k;
    if k == s.next {
      longer := ByController(cfg, run, s.(control := Launching, epoch := s.epoch + 1));
    } else {
      var me := s.workers[k];
      var s' := s.(control := Joining(k + 1));
      if me.phase.Gone? && !me.joined {
        CountUpdate(Unjoined(s.workers), k, false);
        s' := s'.(active := s.active - 1, workers := s.workers[k := me.(joined := true)]);
        assert Unjoined(s'.workers) == Unjoined(s.workers)[k := false];
        SomebodyActive(s.workers, k);
      }
      longer := ByController(cfg, run, s');
      longer := JoinAll(cfg, longer);
    }
  }

  /** With m the only one missing, the controller leaves: the stale arrival stands in. */
  lemma LeavesEarly(cfg: Config, run: seq<State>, m: nat)
    returns (longer: seq<State>, finishing: bool)
    requires WellFormed(cfg) && IsRun(cfg, run) && Off(cfg, run[|run| - 1], 1)
    requires Wanted(run[|run| - 1], m) && OnlyLags(run[|run| - 1], m)
    ensures IsRun(cfg, longer) && Lagging(cfg, longer[|longer| - 1], m, finishing)
    ensures longer[|longer| - 1].epoch == run[|run| - 1].epoch + 1
    ensures run[|run| - 1].epoch >= cfg.epochs ==> finishing
  {
    hide WellFormed, GensOk, ExactlyBelow;
    var s := run[|run| - 1];
    assert WorkerOk(cfg, s, m);
    finishing := s.workers[m].phase.finishing;
    OneShort(cfg, s, m);
    longer := ByController(cfg, run, s.(control := Joining(0)));
    longer := JoinAll(cfg, longer);
    var t := longer[|longer| - 1];
    GensSame(cfg, s, t);
    NextEnd(cfg, s.epoch);
    forall w | 0 <= w < t.next && w != m ensures WorkerOk(cfg, t, w) && Rested(t, w) {
      OthersRest(cfg, s, t, w);
    }
    forall w | t.next <= w < |t.workers| ensures Unborn(t, w) {
      assert Unborn(s, w);
    }
    if s.epoch >= cfg.epochs {
      DrainsAll(cfg, s, m);
    }
  }

  lemma NextEnd(cfg: Config, epoch: nat)
    requires WellFormed(cfg)
    ensures EpochEnd(cfg, epoch) <= EpochEnd(cfg, epoch + 1)
  {
    EndsGrow(cfg, epoch);
  }

  lemma OneShort(cfg: Config, s: State, m: nat)
    requires Inside(cfg, s, 1) && Wanted(s, m) && OnlyLags(s, m)
    ensures s.arrived >= s.target
  {
    CountUpdate(Unjoined(s.workers), m, false);
    forall w | 0 <= w < |s.workers|
      ensures ArrivedFlags(s)[w] == Unjoined(s.workers)[m := false][w]
    {
      assert w >= s.next ==> Unborn(s, w);
      assert w < s.next ==> WorkerOk(cfg, s, w);
    }
    assert ArrivedFlags(s) == Unjoined(s.workers)[m := false];
  }

  lemma OthersRest(cfg: Config, s: State, t: State, w: nat)
    requires Inside(cfg, s, 1) && w < s.next && Arrived(s, w) && |t.workers| == |s.workers|
    requires t.control.Launching? && t.id == s.id && t.end == s.end
    requires Checked(s.workers[w], t.workers[w])
    ensures WorkerOk(cfg, t, w) && Rested(t, w)
  {
    assert WorkerOk(cfg, s, w);
    forall i | 0 <= i < |Q(cfg, w)| ensures BelowAt(cfg, t, w, s.end, i) {
      assert BelowAt(cfg, s, w, s.end, i);
    }
  }

  /** In the epoch without an end every worker finishes. */
  lemma DrainsAll(cfg: Config, s: State, m: nat)
    requires WellFormed(cfg) && Inside(cfg, s, 1) && s.epoch >= cfg.epochs && m < s.next
    requires s.workers[m].phase.Arriving?
    ensures s.workers[m].phase.finishing
  {
    assert WorkerOk(cfg, s, m);
    var below := s.workers[m].pos < |Q(cfg, m)| ==> BelowAt(cfg, s, m, s.end, s.workers[m].pos);
  }

  /** A count that is one ahead stays so from epoch to epoch until m finishes; then the
      replay hangs. */
  lemma {:induction false} LagsOn(cfg: Config, run: seq<State>, m: nat)
    returns (longer: seq<State>)
    requires WellFormed(cfg) && Lifetimes(cfg) && IsRun(cfg, run)
    requires Off(cfg, run[|run| - 1], 1) && Wanted(run[|run| - 1], m)
    requires run[|run| - 1].epoch <= cfg.epochs
    ensures IsRun(cfg, longer) && Stuck(cfg, longer[|longer| - 1])
    ensures !longer[|longer| - 1].control.Done?
    decreases cfg.epochs - run[|run| - 1].epoch
  {
    hide WellFormed, Lifetimes, Off, Wanted, Lagging;
    longer := Drive(cfg, run, m);
    var finishing;
    longer, finishing := LeavesEarly(cfg, longer, m);
    longer := Relaunch(cfg, longer, m, finishing);
    if finishing {
      longer := Hang(cfg, longer);
    } else {
      longer := LagsOn(cfg, longer, m);
    }
  }

  /** Unless all workers start inside the same epoch some run hangs. */
  lemma SomeRunHangs(cfg: Config) returns (run: seq<State>)
    requires WellFormed(cfg) && Lifetimes(cfg) && !Together(cfg)
    ensures IsRun(cfg, run) && Stuck(cfg, run[|run| - 1]) && !run[|run| - 1].control.Done?
  {
    InitialInv(cfg);
    run := ReachLate(cfg, [Initial(cfg)]);
    var m, finishing;
    run, m, finishing := WakesEarly(cfg, run);
    run := Relaunch(cfg, run, m, finishing);
    if finishing {
      run := Hang(cfg, run);
    } else {
      run := LagsOn(cfg, run, m);
    }
  }

  /** A run that cannot go on has ended with every operation executed. */
  ghost predicate Completes(cfg: Config, s: State) {
    && |s.workers| == |cfg.workers|
    && (Stuck(cfg, s) ==>
          s.control.Done? && forall k | 0 <= k < |cfg.ops| :: HasExecuted(cfg, s, k))
  }

  ghost predicate AlwaysCompletes(cfg: Config) {
    forall run | IsRun(cfg, run) :: Completes(cfg, run[|run| - 1])
  }

  /** Every replay completes if and only if all workers start inside the same epoch. */
  lemma CompletesExactlyWhenTogether(cfg: Config)
    requires WellFormed(cfg) && Lifetimes(cfg)
    ensures AlwaysCompletes(cfg) <==> Together(cfg)
  {
    if Together(cfg) {
      forall run | IsRun(cfg, run) ensures Completes(cfg, run[|run| - 1]) {
        ReplayCompletes(cfg, run);
      }
    } else {
      var run := SomeRunHangs(cfg);
      assert !Completes(cfg, run[|run| - 1]);
    }
  }

  /** Two workers without operations; the second starts in the second epoch. */
  function LateConfig(): Config {
    Config([], [WorkerInfo(1, 0, 20), WorkerInfo(2, 15, 30)], 0, 10, 3)
  }

  /** For example this replay can wait for ever. */
  lemma LateWorkerHangs() returns (run: seq<State>)
    ensures IsRun(LateConfig(), run) && WellFormed(LateConfig()) && !Together(LateConfig())
    ensures Stuck(LateConfig(), run[|run| - 1]) && !run[|run| - 1].control.Done?
  {
    var cfg := LateConfig();
    assert StartsBefore(cfg, 0, 0) && !StartsBefore(cfg, 1, 0);
    run := SomeRunHangs(cfg);
  }
}
