/** The epoch barrier of replay_main.c: a controller launches workers, announces an epoch,
    waits until as many arrivals as active workers are counted, and joins the finished. Each
    step below holds the epoch mutex or touches only its own worker; a slot wait is a guard
    of the step that executes the waiting operation. */
module EpochBarrier {
  import opened NativeFormat
  import opened EpochCompiler

  type pos = n: nat | 0 < n witness 1

  datatype WorkerInfo = WorkerInfo(tid: nat, startTs: nat, endTs: nat)

  /** Workers in launch order. */
  datatype Config = Config(
    ops: seq<EpochOp>, workers: seq<WorkerInfo>, minTs: nat, epochSize: pos, epochs: nat)

  datatype Phase =
    | Unlaunched
    | Checking
    | Running(end: nat)
    | Arriving(end: nat, finishing: bool)
    | Gone

  datatype Worker = Worker(phase: Phase, seen: nat, pos: nat, joined: bool)

  datatype Control = Launching | Waiting | Joining(k: nat) | Done

  datatype State = State(
    control: Control, epoch: nat, next: nat, active: nat,
    id: nat, end: nat, arrived: nat, target: nat,
    workers: seq<Worker>, gens: map<nat, nat>)

  /** A worker's operations, as places in the whole trace. */
  function Queue(ops: seq<EpochOp>, tid: nat): seq<nat> {
    if ops == [] then []
    else
      var n := |ops| - 1;
      Queue(ops[..n], tid) + if ops[n].tid == tid then [n] else []
  }

  function Q(cfg: Config, w: nat): seq<nat>
    requires w < |cfg.workers|
  {
    Queue(cfg.ops, cfg.workers[w].tid)
  }

  /** After the last epoch one more runs without an end. */
  function EpochEnd(cfg: Config, epoch: nat): nat {
    if epoch < cfg.epochs then cfg.minTs + (epoch + 1) * cfg.epochSize else U64_MAX
  }

  function Gen(s: State, slot: nat): nat {
    if slot in s.gens then s.gens[slot] else 0
  }

  // --------------------------------------------------------------------- controller

  predicate NoMoreLaunches(cfg: Config, s: State) {
    s.next < |cfg.workers| ==>
      s.epoch < cfg.epochs && cfg.workers[s.next].startTs >= EpochEnd(cfg, s.epoch)
  }

  predicate Launch(cfg: Config, s: State, s': State) {
    && s.control.Launching? && s.next < |cfg.workers| == |s.workers|
    && !NoMoreLaunches(cfg, s)
    && s' == s.(next := s.next + 1, active := s.active + 1,
                workers := s.workers[s.next := s.workers[s.next].(phase := Checking)])
  }

  predicate Skip(cfg: Config, s: State, s': State) {
    && s.control.Launching? && NoMoreLaunches(cfg, s) && s.active == 0
    && s' == if s.epoch < cfg.epochs then s.(epoch := s.epoch + 1) else s.(control := Done)
  }

  predicate Announce(cfg: Config, s: State, s': State) {
    && s.control.Launching? && NoMoreLaunches(cfg, s) && s.active > 0
    && s' == s.(control := Waiting, end := EpochEnd(cfg, s.epoch), arrived := 0,
                target := s.active, id := s.id + 1)
  }

  predicate Leave(s: State, s': State) {
    s.control.Waiting? && s.arrived >= s.target && s' == s.(control := Joining(0))
  }

  predicate Join(s: State, s': State) {
    && s.control.Joining? && s.control.k < s.next <= |s.workers|
    && var k := s.control.k;
       var w := s.workers[k];
       s' == if w.phase.Gone? && !w.joined then
               s.(control := Joining(k + 1), active := if s.active > 0 then s.active - 1 else 0,
                  workers := s.workers[k := w.(joined := true)])
             else s.(control := Joining(k + 1))
  }

  predicate EndJoin(s: State, s': State) {
    && s.control.Joining? && s.control.k == s.next
    && s' == s.(control := Launching, epoch := s.epoch + 1)
  }

  // -------------------------------------------------------------------------- workers

  /** The worker has a next operation before `end`. */
  predicate HasWork(cfg: Config, s: State, w: nat, end: nat)
    requires w < |cfg.workers| == |s.workers|
  {
    var q := Q(cfg, w);
    && s.workers[w].pos < |q| && q[s.workers[w].pos] < |cfg.ops|
    && cfg.ops[q[s.workers[w].pos]].ts < end
  }

  predicate See(s: State, s': State, w: nat)
    requires w < |s.workers|
  {
    && s.workers[w].phase.Checking? && s.workers[w].seen != s.id
    && s' == s.(workers := s.workers[w := s.workers[w].(phase := Running(s.end), seen := s.id)])
  }

  predicate Execute(cfg: Config, s: State, s': State, w: nat)
    requires w < |cfg.workers| == |s.workers|
  {
    var me := s.workers[w];
    && me.phase.Running? && HasWork(cfg, s, w, me.phase.end)
    && var o := cfg.ops[Q(cfg, w)[me.pos]];
       && o.waitGen <= Gen(s, o.slot)
       && s' == s.(workers := s.workers[w := me.(pos := me.pos + 1)],
                   gens := if o.outGen == 0 then s.gens else s.gens[o.slot := o.outGen])
  }

  predicate Stop(cfg: Config, s: State, s': State, w: nat)
    requires w < |cfg.workers| == |s.workers|
  {
    var me := s.workers[w];
    && me.phase.Running? && !HasWork(cfg, s, w, me.phase.end)
    && var finishing := me.pos >= |Q(cfg, w)| && me.phase.end >= cfg.workers[w].endTs;
       s' == s.(workers := s.workers[w := me.(phase := Arriving(me.phase.end, finishing))])
  }

  predicate Arrive(s: State, s': State, w: nat)
    requires w < |s.workers|
  {
    var me := s.workers[w];
    && me.phase.Arriving?
    && s' == s.(arrived := s.arrived + 1,
                workers := s.workers[w :=
                  me.(phase := if me.phase.finishing then Gone else Checking)])
  }

  predicate WorkerStep(cfg: Config, s: State, s': State, w: nat)
    requires w < |cfg.workers| == |s.workers|
  {
    See(s, s', w) || Execute(cfg, s, s', w) || Stop(cfg, s, s', w) || Arrive(s, s', w)
  }

  predicate ControlStep(cfg: Config, s: State, s': State) {
    || Launch(cfg, s, s') || Skip(cfg, s, s') || Announce(cfg, s, s')
    || Leave(s, s') || Join(s, s') || EndJoin(s, s')
  }

  ghost predicate Step(cfg: Config, s: State, s': State) {
    && |s.workers| == |cfg.workers|
    && (ControlStep(cfg, s, s') || exists w: nat :: w < |s.workers| && WorkerStep(cfg, s, s', w))
  }

  function Initial(cfg: Config): State {
    State.State(Launching, 0, 0, 0, 0, 0, 0, 0,
          seq(|cfg.workers|, _ => Worker(Unlaunched, 0, 0, false)), map[])
  }

  ghost predicate IsRun(cfg: Config, run: seq<State>) {
    && |run| > 0 && run[0] == Initial(cfg)
    && forall i | 0 <= i < |run| - 1 :: StepAt(cfg, run, i)
  }

  ghost predicate StepAt(cfg: Config, run: seq<State>, i: nat)
    requires i + 1 < |run|
  {
    Step(cfg, run[i], run[i + 1])
  }

  ghost predicate Stuck(cfg: Config, s: State) {
    forall s' :: !Step(cfg, s, s')
  }
}
