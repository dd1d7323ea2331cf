/** The epoch replay ends with every operation executed when all workers start inside the
    same epoch. */
module EpochProgress {
  import opened NativeFormat
  import opened EpochBarrier
  import opened EpochTheorems

  // -------------------------------------------------------------------- deadlock freedom

  ghost predicate CanStep(cfg: Config, s: State) {
    exists s' :: Step(cfg, s, s')
  }

  lemma WorkerMoves(cfg: Config, s: State, s': State, w: nat)
    requires |s.workers| == |cfg.workers| && w < |s.workers| && WorkerStep(cfg, s, s', w)
    ensures CanStep(cfg, s)
  {
    assert Step(cfg, s, s');
  }

  /** The index of a worker's next operation. */
  function NextOp(cfg: Config, s: State, w: nat): nat
    requires w < |cfg.workers| == |s.workers| && s.workers[w].pos < |Q(cfg, w)|
  {
    Q(cfg, w)[s.workers[w].pos]
  }

  /** A worker that has not arrived moves when its next operation is ready, or it has none;
      with a ready operation it looks at the epoch or executes. */
  lemma ReadyMoves(cfg: Config, s: State, w: nat, d: int) returns (s': State)
    requires WellFormed(cfg) && Inside(cfg, s, d) && w < s.next && !Arrived(s, w)
    requires s.workers[w].phase.Running? && HasWork(cfg, s, w, s.end) ==>
      cfg.ops[NextOp(cfg, s, w)].waitGen <= Gen(s, cfg.ops[NextOp(cfg, s, w)].slot)
    ensures WorkerStep(cfg, s, s', w)
    ensures !s.workers[w].phase.Arriving? ==> !Arrive(s, s', w)
  {
    assert WorkerOk(cfg, s, w);
    var me := s.workers[w];
    if me.phase.Checking? {
      s' := s.(workers := s.workers[w := me.(phase := Running(s.end), seen := s.id)]);
      assert See(s, s', w);
    } else if me.phase.Arriving? {
      s' := s.(arrived := s.arrived + 1,
        workers := s.workers[w := me.(phase := if me.phase.finishing then Gone else Checking)]);
      assert Arrive(s, s', w);
    } else if HasWork(cfg, s, w, s.end) {
      var o := cfg.ops[NextOp(cfg, s, w)];
      s' := s.(workers := s.workers[w := me.(pos := me.pos + 1)],
        gens := if o.outGen == 0 then s.gens else s.gens[o.slot := o.outGen]);
      assert Execute(cfg, s, s', w);
    } else {
      var finishing := me.pos >= |Q(cfg, w)| && me.phase.end >= cfg.workers[w].endTs;
      s' := s.(workers := s.workers[w := me.(phase := Arriving(me.phase.end, finishing))]);
      assert Stop(cfg, s, s', w);
    }
  }

  /** Nobody who is still to be launched has an operation in the current epoch. */
  predicate Supplied(cfg: Config, s: State) {
    forall w, k | s.next <= w < |cfg.workers| && 0 <= k < |cfg.ops|
                  && cfg.ops[k].tid == cfg.workers[w].tid :: cfg.ops[k].ts >= s.end
  }

  /** The worker an unexecuted operation belongs to is at or before it. */
  lemma OwnerBehind(cfg: Config, s: State, k: nat, d: int) returns (w: nat)
    requires WellFormed(cfg) && Inside(cfg, s, d) && Supplied(cfg, s)
    requires k < |cfg.ops| && !HasExecuted(cfg, s, k)
    requires cfg.ops[k].ts < s.end
    ensures w < s.next <= |cfg.workers| == |s.workers| && s.workers[w].pos < |Q(cfg, w)|
    ensures NextOp(cfg, s, w) <= k && !Arrived(s, w) && !s.workers[w].phase.Arriving?
    ensures HasWork(cfg, s, w, s.end)
  {
    assert HasWorker(cfg, k);
    w :| 0 <= w < |cfg.workers| && cfg.workers[w].tid == cfg.ops[k].tid;
    assert WorkerOk(cfg, s, w);
    var i := Rank(cfg.ops, k);
    QueueShape(cfg.ops, cfg.workers[w].tid);
    var q, p := Q(cfg, w), s.workers[w].pos;
    PastIsExecuted(cfg, s, w, k, i);
    var below, next := BelowAt(cfg, s, w, s.end, i), BelowAt(cfg, s, w, s.end, p);
    if p < i {
      assert q[p] < q[i];
      assert cfg.ops[q[p]].ts <= cfg.ops[q[i]].ts;
    }
  }

  lemma PastIsExecuted(cfg: Config, s: State, w: nat, k: nat, i: nat)
    requires w < |cfg.workers| == |s.workers| && InQueue(Q(cfg, w), k, i)
    requires s.workers[w].pos <= |Q(cfg, w)|
    ensures i < s.workers[w].pos ==> ExecutedBy(cfg, s, w, k)
  {
    if i < s.workers[w].pos {
      assert Q(cfg, w)[..s.workers[w].pos][i] == k;
    }
  }

  /** If an operation of the epoch is still to be executed, somebody looks at the epoch or
      executes: follow the chain of waits to the earliest. */
  lemma {:induction false} SomeoneMoves(cfg: Config, s: State, k: nat, d: int)
    returns (w: nat, s': State)
    requires WellFormed(cfg) && Inside(cfg, s, d) && GensOk(cfg, s) && Supplied(cfg, s)
    requires k < |cfg.ops| && !HasExecuted(cfg, s, k) && cfg.ops[k].ts < s.end
    ensures w < s.next && WorkerStep(cfg, s, s', w) && !Arrive(s, s', w)
    decreases k
  {
    w := OwnerBehind(cfg, s, k, d);
    var m := NextOp(cfg, s, w);
    var o := cfg.ops[m];
    if o.waitGen <= Gen(s, o.slot) {
      s' := ReadyMoves(cfg, s, w, d);
    } else {
      var j := WaitsStayInEpoch(cfg, m, s.end);
      w, s' := SomeoneMoves(cfg, s, j, d);
    }
  }

  /** So a worker that has not arrived lets somebody move, without its own arrival unless it
      is arriving. */
  lemma AbsentMoves(cfg: Config, s: State, v: nat, d: int) returns (w: nat, s': State)
    requires WellFormed(cfg) && Inside(cfg, s, d) && GensOk(cfg, s) && Supplied(cfg, s)
    requires v < s.next && !Arrived(s, v)
    ensures w < s.next && WorkerStep(cfg, s, s', w)
    ensures w == v || !Arrive(s, s', w)
    ensures !s.workers[v].phase.Arriving? ==> !Arrive(s, s', w)
  {
    assert WorkerOk(cfg, s, v);
    if s.workers[v].phase.Running? && HasWork(cfg, s, v, s.end) {
      NextIsNew(cfg, s, v);
      w, s' := SomeoneMoves(cfg, s, NextOp(cfg, s, v), d);
    } else {
      w := v;
      s' := ReadyMoves(cfg, s, v, d);
    }
  }

  /** A reachable state that has not ended always has a next step. */
  lemma NeverStuck(cfg: Config, s: State)
    requires WellFormed(cfg) && Inv(cfg, s) && !s.control.Done?
    requires s.control.Waiting? ==> Supplied(cfg, s)
    ensures CanStep(cfg, s)
  {
    if s.control.Waiting? && s.arrived < s.target {
      WaitingMoves(cfg, s);
    } else {
      ControlMoves(cfg, s);
    }
  }

  lemma ControlMoves(cfg: Config, s: State)
    requires Inv(cfg, s) && !s.control.Done?
    requires s.control.Waiting? ==> s.arrived >= s.target
    ensures CanStep(cfg, s)
  {
    var s' := match s.control
      case Launching =>
        if !NoMoreLaunches(cfg, s) then
          s.(next := s.next + 1, active := s.active + 1,
             workers := s.workers[s.next := s.workers[s.next].(phase := Checking)])
        else if s.active == 0 then
          if s.epoch < cfg.epochs then s.(epoch := s.epoch + 1) else s.(control := Done)
        else
          s.(control := Waiting, end := EpochEnd(cfg, s.epoch), arrived := 0,
             target := s.active, id := s.id + 1)
      case Waiting => s.(control := Joining(0))
      case Joining(k) =>
        if k == s.next then s.(control := Launching, epoch := s.epoch + 1)
        else if s.workers[k].phase.Gone? && !s.workers[k].joined then
          s.(control := Joining(k + 1), active := if s.active > 0 then s.active - 1 else 0,
             workers := s.workers[k := s.workers[k].(joined := true)])
        else s.(control := Joining(k + 1))
      case Done => s;
    assert ControlStep(cfg, s, s');
    assert Step(cfg, s, s');
  }

  lemma WaitingMoves(cfg: Config, s: State)
    requires WellFormed(cfg) && Inv(cfg, s) && s.control.Waiting? && s.arrived < s.target
    requires Supplied(cfg, s)
    ensures CanStep(cfg, s)
  {
    var v := Missing(s);
    assert v >= s.next ==> Unborn(s, v);
    var w, s' := AbsentMoves(cfg, s, v, 0);
    WorkerMoves(cfg, s, s', w);
  }

  /** Somebody has not arrived. */
  lemma Missing(s: State) returns (w: nat)
    requires Count(ArrivedFlags(s)) < Count(Unjoined(s.workers))
    ensures w < |s.workers| && !Arrived(s, w)
    ensures !s.workers[w].phase.Unlaunched? && !s.workers[w].joined
  {
    w := Gap(ArrivedFlags(s), Unjoined(s.workers));
  }

  lemma {:induction false} Gap(a: seq<bool>, b: seq<bool>) returns (w: nat)
    requires |a| == |b| && Count(a) < Count(b)
    ensures w < |a| && !a[w] && b[w]
  {
    var n := |a| - 1;
    if !a[n] && b[n] {
      w := n;
    } else {
      w := Gap(a[..n], b[..n]);
    }
  }

  // ------------------------------------------------------------------------ termination

  function PhaseRank(s: State, w: nat): nat
    requires w < |s.workers|
  {
    match s.workers[w].phase
    case Unlaunched => 0
    case Checking => if s.workers[w].seen != s.id then 3 else 0
    case Running(_) => 2
    case Arriving(_, _) => 1
    case Gone => 0
  }

  function Left(cfg: Config, s: State, w: nat): nat
    requires w < |cfg.workers| == |s.workers|
  {
    if s.workers[w].pos <= |Q(cfg, w)| then |Q(cfg, w)| - s.workers[w].pos else 0
  }

  /** Steps the first n workers still have, in this epoch and in operations. */
  function WorkLeft(cfg: Config, s: State, n: nat): nat
    requires n <= |cfg.workers| == |s.workers|
  {
    if n == 0 then 0 else WorkLeft(cfg, s, n - 1) + PhaseRank(s, n - 1) + Left(cfg, s, n - 1)
  }

  function ControlRank(s: State, n: nat): nat {
    match s.control
    case Launching => 4 * n + 4
    case Waiting => n + 3
    case Joining(k) => if k <= n + 1 then n + 2 - k else 1
    case Done => 0
  }

  function EpochsLeft(cfg: Config, s: State): nat {
    if s.epoch <= cfg.epochs + 1 then cfg.epochs + 2 - s.epoch else 0
  }

  /** An upper bound on the steps still to come. */
  function Measure(cfg: Config, s: State): nat
    requires |cfg.workers| == |s.workers|
  {
    var n := |cfg.workers|;
    EpochsLeft(cfg, s) * (5 * n + 10) + ControlRank(s, n) + WorkLeft(cfg, s, n)
      + if s.next <= n then n - s.next else 0
  }

  lemma {:induction false} WorkSame(cfg: Config, s: State, s': State, n: nat)
    requires n <= |cfg.workers| == |s.workers| == |s'.workers|
    requires forall w | 0 <= w < n ::
      PhaseRank(s', w) + Left(cfg, s', w) == PhaseRank(s, w) + Left(cfg, s, w)
    ensures WorkLeft(cfg, s', n) == WorkLeft(cfg, s, n)
  {
    if n > 0 {
      WorkSame(cfg, s, s', n - 1);
    }
  }

  lemma {:induction false} WorkDrops(cfg: Config, s: State, s': State, n: nat, w: nat)
    requires w < n <= |cfg.workers| == |s.workers| == |s'.workers|
    requires s'.id == s.id && s'.workers == s.workers[w := s'.workers[w]]
    requires PhaseRank(s', w) + Left(cfg, s', w) < PhaseRank(s, w) + Left(cfg, s, w)
    ensures WorkLeft(cfg, s', n) < WorkLeft(cfg, s, n)
  {
    if w < n - 1 {
      WorkDrops(cfg, s, s', n - 1, w);
    } else {
      WorkSame(cfg, s, s', n - 1);
    }
  }

  lemma {:induction false} WorkRenewed(cfg: Config, s: State, s': State, n: nat)
    requires n <= |cfg.workers| == |s.workers| && s'.workers == s.workers
    requires forall w | 0 <= w < n :: PhaseRank(s, w) == 0
    ensures WorkLeft(cfg, s', n) <= WorkLeft(cfg, s, n) + 3 * n
    ensures forall w | 0 <= w < n :: PhaseRank(s', w) <= 3
  {
    if n > 0 {
      WorkRenewed(cfg, s, s', n - 1);
    }
  }

  /** A worker's step inside an epoch uses up its work. */
  lemma InsideDecreases(cfg: Config, s: State, s': State, w: nat, d: int)
    requires WellFormed(cfg) && Inside(cfg, s, d) && GensOk(cfg, s)
    requires w < |s.workers| == |cfg.workers| && WorkerStep(cfg, s, s', w)
    ensures |s'.workers| == |cfg.workers|
    ensures WorkLeft(cfg, s', |cfg.workers|) < WorkLeft(cfg, s, |cfg.workers|)
  {
    CanAct(cfg, s, s', w, d);
    assert WorkerOk(cfg, s, w);
    WorkDrops(cfg, s, s', |cfg.workers|, w);
  }

  lemma WorkerStepDecreases(cfg: Config, s: State, s': State, w: nat)
    requires WellFormed(cfg) && Inv(cfg, s) && w < |s.workers| && WorkerStep(cfg, s, s', w)
    ensures |s'.workers| == |cfg.workers| && Measure(cfg, s') < Measure(cfg, s)
  {
    hide WorkerOk, WorkerStep, GensOk, WellFormed, TogetherUpTo, Split, WorkLeft;
    OnlyInEpoch(cfg, s, s', w);
    InsideDecreases(cfg, s, s', w, 0);
    KeepInside(cfg, s, s', w, 0);
  }

  lemma ControlStepDecreases(cfg: Config, s: State, s': State)
    requires WellFormed(cfg) && Inv(cfg, s) && ControlStep(cfg, s, s')
    requires !LateLaunch(cfg, s, s')
    ensures |s'.workers| == |cfg.workers| && Measure(cfg, s') < Measure(cfg, s)
  {
    hide WorkerOk, GensOk, TogetherUpTo, Split, WorkLeft;
    var n := |cfg.workers|;
    if Announce(cfg, s, s') {
      forall w | 0 <= w < n ensures PhaseRank(s, w) == 0 {
        Idle(cfg, s, w);
      }
      WorkRenewed(cfg, s, s', n);
    } else {
      ControlKeepsWork(cfg, s, s');
      if EpochsLeft(cfg, s') != EpochsLeft(cfg, s) {
        OneEpochLess(EpochsLeft(cfg, s), 5 * n + 10);
      }
    }
  }

  lemma ControlKeepsWork(cfg: Config, s: State, s': State)
    requires WellFormed(cfg) && Inv(cfg, s) && ControlStep(cfg, s, s')
    requires !LateLaunch(cfg, s, s') && !Announce(cfg, s, s')
    ensures |s'.workers| == |cfg.workers|
    ensures WorkLeft(cfg, s', |cfg.workers|) == WorkLeft(cfg, s, |cfg.workers|)
  {
    hide WorkerOk, GensOk, TogetherUpTo, Split, WorkLeft;
    var n := |cfg.workers|;
    forall w | 0 <= w < n ensures
      PhaseRank(s', w) + Left(cfg, s', w) == PhaseRank(s, w) + Left(cfg, s, w)
    {
      if NotBegun(cfg, s) {
        assert Starting(cfg, s, w);
      }
    }
    WorkSame(cfg, s, s', n);
  }

  lemma OneEpochLess(e: nat, x: nat)
    requires e >= 1
    ensures (e - 1) * x == e * x - x
  {}

  lemma Idle(cfg: Config, s: State, w: nat)
    requires Inv(cfg, s) && s.control.Launching? && w < |cfg.workers|
    ensures PhaseRank(s, w) == 0
  {
    if NotBegun(cfg, s) {
      assert Starting(cfg, s, w);
    } else if w < s.next {
      assert Rested(s, w);
    } else {
      assert Unborn(s, w);
    }
  }

  lemma StepDecreases(cfg: Config, s: State, s': State)
    requires WellFormed(cfg) && Inv(cfg, s) && Step(cfg, s, s') && !LateLaunch(cfg, s, s')
    ensures |s'.workers| == |cfg.workers| && Measure(cfg, s') < Measure(cfg, s)
  {
    hide Inv, WellFormed, Measure, Launch, Skip, Announce, Leave, Join, EndJoin, See, Execute,
         Stop, Arrive;
    if ControlStep(cfg, s, s') {
      ControlStepDecreases(cfg, s, s');
    } else {
      var w: nat :| w < |s.workers| && WorkerStep(cfg, s, s', w);
      WorkerStepDecreases(cfg, s, s', w);
    }
  }

  lemma {:induction false} RunIsBounded(cfg: Config, run: seq<State>, i: nat)
    requires WellFormed(cfg) && Together(cfg) && IsRun(cfg, run) && i < |run|
    ensures |run[i].workers| == |cfg.workers|
    ensures Measure(cfg, run[i]) + i <= Measure(cfg, Initial(cfg))
  {
    if i > 0 {
      RunIsBounded(cfg, run, i - 1);
      RunInv(cfg, run, i - 1);
      assert StepAt(cfg, run, i - 1);
      NeverLate(cfg, run[i - 1], run[i]);
      StepDecreases(cfg, run[i - 1], run[i]);
    }
  }

  /** When the controller is done every operation has been executed. */
  lemma DoneMeansExecuted(cfg: Config, s: State, k: nat)
    requires WellFormed(cfg) && Inv(cfg, s) && s.control.Done? && k < |cfg.ops|
    ensures HasExecuted(cfg, s, k)
  {
    assert HasWorker(cfg, k);
    var w :| 0 <= w < |cfg.workers| && cfg.workers[w].tid == cfg.ops[k].tid;
    assert WorkerOk(cfg, s, w);
    assert Rested(s, w);
    NoneUnjoined(Unjoined(s.workers), w);
    var i := Rank(cfg.ops, k);
    PastIsExecuted(cfg, s, w, k, i);
  }

  lemma {:induction false} NoneUnjoined(bs: seq<bool>, w: nat)
    requires w < |bs| && Count(bs) == 0
    ensures !bs[w]
  {
    if w < |bs| - 1 {
      NoneUnjoined(bs[..|bs| - 1], w);
    }
  }

  /** The whole replay: every run is bounded, and one that cannot go on has ended with every
      operation executed. */
  lemma ReplayCompletes(cfg: Config, run: seq<State>)
    requires WellFormed(cfg) && Together(cfg) && IsRun(cfg, run)
    ensures |run| <= Measure(cfg, Initial(cfg)) + 1
    ensures var s := run[|run| - 1];
      && |s.workers| == |cfg.workers|
      && (Stuck(cfg, s) <==> s.control.Done?)
      && (Stuck(cfg, s) ==> forall k | 0 <= k < |cfg.ops| :: HasExecuted(cfg, s, k))
  {
    var s := run[|run| - 1];
    RunIsBounded(cfg, run, |run| - 1);
    RunInv(cfg, run, |run| - 1);
    if !s.control.Done? {
      if Begun(cfg, s) {
        AllLaunched(cfg, s);
      }
      NeverStuck(cfg, s);
    } else {
      DoneIsStuck(cfg, s);
      forall k | 0 <= k < |cfg.ops| ensures HasExecuted(cfg, s, k) {
        DoneMeansExecuted(cfg, s, k);
      }
    }
  }

  lemma DoneIsStuck(cfg: Config, s: State)
    requires Inv(cfg, s) && s.control.Done?
    ensures Stuck(cfg, s)
  {
    forall s' ensures !Step(cfg, s, s') {
      if w: nat :| w < |s.workers| && |s.workers| == |cfg.workers| && WorkerStep(cfg, s, s', w) {
        OnlyInEpoch(cfg, s, s', w);
      }
    }
  }
}
