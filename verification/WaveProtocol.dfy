/** All workers of one wave of synthetic_mstress_runtime.c. A worker publishes objects onto
    the inbound stacks of others, takes objects from its own stack for its remote frees, owes
    those it finds no object for, counts itself done with generating, and then settles its
    debts; a look at an empty stack and the test of the done count are two steps. How calls
    interleave, within a worker and between them, is arbitrary. */
module WaveProtocol {
  import W = SyntheticWorker

  /** The targets of a worker's objects in order, and its number of remote frees. */
  datatype Plan = Plan(sends: seq<nat>, frees: nat)

  /** `start` says how many objects earlier waves left on each stack. */
  datatype Wave = Wave(plans: seq<Plan>, start: seq<nat>)

  /** Testing remembers the done count at the moment the stack was seen empty. */
  datatype Stage = Generating | Ended | Settling | Testing(seen: nat) | Finished

  datatype Worker = Worker(
    stage: Stage, sent: nat, issued: nat, debt: nat, taken: nat, holding: bool)

  datatype State = State(workers: seq<Worker>, stacks: seq<nat>, done: nat, failed: bool)

  predicate WellFormed(c: Wave) {
    |c.start| == |c.plans| && forall w | 0 <= w < |c.plans| :: SendsOk(c, w)
  }

  predicate SendsOk(c: Wave, w: nat)
    requires w < |c.plans|
  {
    forall k | 0 <= k < |c.plans[w].sends| :: c.plans[w].sends[k] < |c.plans|
  }

  function With(s: State, w: nat, me: Worker): State
    requires w < |s.workers|
  {
    s.(workers := s.workers[w := me])
  }

  predicate Fits(c: Wave, s: State) {
    |s.workers| == |s.stacks| == |c.plans|
  }

  // ------------------------------------------------------------------------------ steps

  /** publish_object: the push onto the target's stack. */
  predicate Publish(c: Wave, s: State, s': State, w: nat)
    requires Fits(c, s) && w < |c.plans|
  {
    var me := s.workers[w];
    && me.stage.Generating? && !me.holding && me.sent < |c.plans[w].sends|
    && var t := c.plans[w].sends[me.sent];
       && t < |s.stacks|
       && s' == With(s, w, me.(sent := me.sent + 1)).(stacks := s.stacks[t := s.stacks[t] + 1])
  }

  /** run_remote_free finds an object, */
  predicate Take(c: Wave, s: State, s': State, w: nat)
    requires Fits(c, s) && w < |c.plans|
  {
    var me := s.workers[w];
    && me.stage.Generating? && !me.holding && me.issued < c.plans[w].frees && s.stacks[w] > 0
    && s' == With(s, w, me.(issued := me.issued + 1, holding := true))
              .(stacks := s.stacks[w := s.stacks[w] - 1])
  }

  /** or goes into debt. */
  predicate Owe(c: Wave, s: State, s': State, w: nat)
    requires Fits(c, s) && w < |c.plans|
  {
    var me := s.workers[w];
    && me.stage.Generating? && !me.holding && me.issued < c.plans[w].frees && s.stacks[w] == 0
    && s' == With(s, w, me.(issued := me.issued + 1, debt := me.debt + 1))
  }

  /** drain_one_remote, while generating or settling. */
  predicate Drain(c: Wave, s: State, s': State, w: nat)
    requires Fits(c, s) && w < |c.plans|
  {
    var me := s.workers[w];
    && (me.stage.Generating? || me.stage.Settling?) && !me.holding
    && me.debt > 0 && s.stacks[w] > 0
    && s' == With(s, w, me.(debt := me.debt - 1, holding := true))
              .(stacks := s.stacks[w := s.stacks[w] - 1])
  }

  /** The object in hand is freed. */
  predicate Free(c: Wave, s: State, s': State, w: nat)
    requires Fits(c, s) && w < |c.plans|
  {
    var me := s.workers[w];
    me.holding && s' == With(s, w, me.(holding := false, taken := me.taken + 1))
  }

  /** A worker runs out of descriptors. */
  predicate Exhaust(c: Wave, s: State, s': State, w: nat)
    requires Fits(c, s) && w < |c.plans|
  {
    s.workers[w].stage.Generating? && s' == s.(failed := true)
  }

  /** The generating loop ends and the worker counts itself done. */
  predicate EndGenerating(c: Wave, s: State, s': State, w: nat)
    requires Fits(c, s) && w < |c.plans|
  {
    var me := s.workers[w];
    && me.stage.Generating? && !me.holding
    && (s.failed || (me.sent == |c.plans[w].sends| && me.issued == c.plans[w].frees))
    && s' == With(s, w, me.(stage := Ended)).(done := s.done + 1)
  }

  /** Nothing is settled once the run has failed. */
  predicate BeginSettling(c: Wave, s: State, s': State, w: nat)
    requires Fits(c, s) && w < |c.plans|
  {
    var me := s.workers[w];
    && me.stage.Ended?
    && s' == With(s, w, me.(stage := if s.failed then Finished else Settling))
  }

  /** finish_debts: stack_pop finds the stack empty, */
  predicate Look(c: Wave, s: State, s': State, w: nat)
    requires Fits(c, s) && w < |c.plans|
  {
    var me := s.workers[w];
    && me.stage.Settling? && !me.holding && me.debt > 0 && s.stacks[w] == 0
    && s' == With(s, w, me.(stage := Testing(s.done)))
  }

  /** then the done count is read. */
  predicate Test(c: Wave, s: State, s': State, w: nat)
    requires Fits(c, s) && w < |c.plans|
  {
    var me := s.workers[w];
    && me.stage.Testing?
    && s' == if s.done == |c.plans| then With(s, w, me.(stage := Finished)).(failed := true)
             else With(s, w, me.(stage := Settling))
  }

  predicate Finish(c: Wave, s: State, s': State, w: nat)
    requires Fits(c, s) && w < |c.plans|
  {
    var me := s.workers[w];
    && me.stage.Settling? && !me.holding && me.debt == 0
    && s' == With(s, w, me.(stage := Finished))
  }

  /** What a worker does; running out of descriptors only if they may not last. */
  predicate StepOf(c: Wave, poolLasts: bool, s: State, s': State, w: nat)
    requires Fits(c, s) && w < |c.plans|
  {
    || Publish(c, s, s', w) || Take(c, s, s', w) || Owe(c, s, s', w) || Drain(c, s, s', w)
    || Free(c, s, s', w) || EndGenerating(c, s, s', w) || BeginSettling(c, s, s', w)
    || Look(c, s, s', w) || Test(c, s, s', w) || Finish(c, s, s', w)
    || (!poolLasts && Exhaust(c, s, s', w))
  }

  ghost predicate Step(c: Wave, poolLasts: bool, s: State, s': State) {
    Fits(c, s) && exists w: nat :: w < |c.plans| && StepOf(c, poolLasts, s, s', w)
  }

  function Initial(c: Wave): State {
    State(seq(|c.plans|, _ => Worker(Generating, 0, 0, 0, 0, false)), c.start, 0, false)
  }

  ghost predicate StepAt(c: Wave, poolLasts: bool, run: seq<State>, i: nat)
    requires i + 1 < |run|
  {
    Step(c, poolLasts, run[i], run[i + 1])
  }

  ghost predicate IsRun(c: Wave, poolLasts: bool, run: seq<State>) {
    && |run| > 0 && run[0] == Initial(c)
    && forall i | 0 <= i < |run| - 1 :: StepAt(c, poolLasts, run, i)
  }

  // ---------------------------------------------------------------------------- numbers

  /** Objects the first n workers have pushed to t. */
  function Pushed(c: Wave, workers: seq<Worker>, t: nat, n: nat): nat
    requires n <= |workers| == |c.plans|
  {
    if n == 0 then 0
    else
      var w := n - 1;
      Pushed(c, workers, t, w)
        + if workers[w].sent <= |c.plans[w].sends|
          then W.CountOf(c.plans[w].sends[..workers[w].sent], t) else 0
  }

  /** And all they will. */
  function PlannedFor(c: Wave, t: nat, n: nat): nat
    requires n <= |c.plans|
  {
    if n == 0 then 0 else PlannedFor(c, t, n - 1) + W.CountOf(c.plans[n - 1].sends, t)
  }

  /** The first n workers that have finished generating. */
  function DoneAmong(workers: seq<Worker>, n: nat): (k: nat)
    requires n <= |workers|
    ensures k <= n
  {
    if n == 0 then 0
    else DoneAmong(workers, n - 1) + if workers[n - 1].stage.Generating? then 0 else 1
  }

  lemma {:induction false} PushedUpdate(
    c: Wave, workers: seq<Worker>, t: nat, n: nat, w: nat, me: Worker)
    requires n <= |workers| == |c.plans| && w < |workers|
    requires workers[w].sent <= me.sent <= workers[w].sent + 1 && me.sent <= |c.plans[w].sends|
    ensures Pushed(c, workers[w := me], t, n) == Pushed(c, workers, t, n)
            + if w < n && me.sent > workers[w].sent && c.plans[w].sends[workers[w].sent] == t
              then 1 else 0
  {
    if n > 0 {
      PushedUpdate(c, workers, t, n - 1, w, me);
      if w == n - 1 && me.sent > workers[w].sent {
        var k := workers[w].sent;
        assert c.plans[w].sends[..k + 1][..k] == c.plans[w].sends[..k];
      }
    }
  }

  lemma {:induction false} DoneUpdate(workers: seq<Worker>, n: nat, w: nat, me: Worker)
    requires n <= |workers| && w < |workers|
    requires !workers[w].stage.Generating? ==> !me.stage.Generating?
    ensures DoneAmong(workers[w := me], n) == DoneAmong(workers, n)
            + if w < n && workers[w].stage.Generating? && !me.stage.Generating? then 1 else 0
  {
    if n > 0 {
      DoneUpdate(workers, n - 1, w, me);
    }
  }

  lemma {:induction false} AllDone(workers: seq<Worker>, n: nat, w: nat)
    requires w < n <= |workers| && DoneAmong(workers, n) == n
    ensures !workers[w].stage.Generating?
  {
    if w < n - 1 {
      AllDone(workers, n - 1, w);
    }
  }

  lemma {:induction false} NothingYet(c: Wave, workers: seq<Worker>, t: nat, n: nat)
    requires n <= |workers| == |c.plans|
    requires forall w | 0 <= w < |workers| :: workers[w].sent == 0 && workers[w].stage.Generating?
    ensures Pushed(c, workers, t, n) == 0 && DoneAmong(workers, n) == 0
  {
    if n > 0 {
      NothingYet(c, workers, t, n - 1);
    }
  }

  lemma {:induction false} AllSent(c: Wave, workers: seq<Worker>, t: nat, n: nat)
    requires n <= |workers| == |c.plans|
    requires forall w | 0 <= w < n :: workers[w].sent == |c.plans[w].sends|
    ensures Pushed(c, workers, t, n) == PlannedFor(c, t, n)
  {
    if n > 0 {
      AllSent(c, workers, t, n - 1);
      assert c.plans[n - 1].sends[..workers[n - 1].sent] == c.plans[n - 1].sends;
    }
  }

  // -------------------------------------------------------------------------- invariant

  function Held(me: Worker): nat {
    if me.holding then 1 else 0
  }

  /** The worker has pushed and issued all it had to. */
  predicate Complete(c: Wave, me: Worker, w: nat)
    requires w < |c.plans|
  {
    me.sent == |c.plans[w].sends| && me.issued == c.plans[w].frees
  }

  predicate WorkerOk(c: Wave, s: State, w: nat)
    requires Fits(c, s) && w < |c.plans|
  {
    var me := s.workers[w];
    && me.sent <= |c.plans[w].sends| && me.issued <= c.plans[w].frees
    && me.issued == me.taken + Held(me) + me.debt
    && (me.holding ==> me.stage.Generating? || me.stage.Settling?)
    && (me.stage.Settling? || me.stage.Testing? ==> Complete(c, me, w))
    && (me.stage.Testing? ==> me.debt > 0)
    && (!s.failed && !me.stage.Generating? ==> Complete(c, me, w))
    && (!s.failed && me.stage.Finished? ==> me.debt == 0)
  }

  /** Pushes to t equal objects taken plus stacked plus in hand. */
  predicate Conserved(c: Wave, s: State, t: nat)
    requires Fits(c, s) && t < |c.plans| == |c.start|
  {
    c.start[t] + Pushed(c, s.workers, t, |c.plans|)
    == s.stacks[t] + s.workers[t].taken + Held(s.workers[t])
  }

  ghost predicate Inv(c: Wave, s: State) {
    && Fits(c, s) && |c.start| == |c.plans|
    && (forall w | 0 <= w < |c.plans| :: WorkerOk(c, s, w))
    && (forall t | 0 <= t < |c.plans| :: Conserved(c, s, t))
    && s.done == DoneAmong(s.workers, |c.plans|)
  }

  lemma KeepOthers(c: Wave, s: State, s': State, w: nat, v: nat)
    requires Fits(c, s) && w < |c.plans| && v < |c.plans| && v != w && WorkerOk(c, s, v)
    requires StepOf(c, false, s, s', w)
    ensures Fits(c, s') && WorkerOk(c, s', v)
  {}

  lemma KeepOwn(c: Wave, s: State, s': State, w: nat)
    requires Fits(c, s) && w < |c.plans| && WorkerOk(c, s, w) && StepOf(c, false, s, s', w)
    ensures Fits(c, s') && WorkerOk(c, s', w)
  {}

  /** Every step changes one worker, and a push is counted where it lands. */
  lemma OneWorker(c: Wave, s: State, s': State, w: nat)
    requires Fits(c, s) && w < |c.plans| && WorkerOk(c, s, w) && StepOf(c, false, s, s', w)
    ensures Fits(c, s') && s'.workers == s.workers[w := s'.workers[w]]
    ensures var me, me' := s.workers[w], s'.workers[w];
      && me.sent <= me'.sent <= me.sent + 1 && me'.sent <= |c.plans[w].sends|
      && (!me.stage.Generating? ==> !me'.stage.Generating?)
      && s'.done == s.done + (if me.stage.Generating? && !me'.stage.Generating? then 1 else 0)
  {}

  lemma KeepConserved(c: Wave, s: State, s': State, w: nat, t: nat)
    requires Fits(c, s) && w < |c.plans| == |c.start| && t < |c.plans| && WorkerOk(c, s, w)
    requires StepOf(c, false, s, s', w) && Conserved(c, s, t)
    ensures Fits(c, s') && Conserved(c, s', t)
  {
    hide Pushed;
    OneWorker(c, s, s', w);
    PushedUpdate(c, s.workers, t, |c.plans|, w, s'.workers[w]);
  }

  lemma StepKeeps(c: Wave, s: State, s': State, w: nat)
    requires Inv(c, s) && w < |c.plans| && StepOf(c, false, s, s', w)
    ensures Inv(c, s')
  {
    assert WorkerOk(c, s, w);
    hide StepOf, WorkerOk, Conserved, Pushed, DoneAmong;
    OneWorker(c, s, s', w);
    DoneUpdate(s.workers, |c.plans|, w, s'.workers[w]);
    forall v | 0 <= v < |c.plans| ensures WorkerOk(c, s', v) {
      if v == w {
        KeepOwn(c, s, s', w);
      } else {
        KeepOthers(c, s, s', w, v);
      }
    }
    forall t | 0 <= t < |c.plans| ensures Conserved(c, s', t) {
      KeepConserved(c, s, s', w, t);
    }
  }

  lemma InitialInv(c: Wave)
    requires |c.start| == |c.plans|
    ensures Inv(c, Initial(c))
  {
    forall t | 0 <= t < |c.plans| ensures Conserved(c, Initial(c), t) {
      NothingYet(c, Initial(c).workers, t, |c.plans|);
    }
    NothingYet(c, Initial(c).workers, 0, |c.plans|);
  }

  /** The invariant holds in every state of every run, also when descriptors run out. */
  lemma {:induction false} RunInv(c: Wave, poolLasts: bool, run: seq<State>, i: nat)
    requires |c.start| == |c.plans| && IsRun(c, poolLasts, run) && i < |run|
    ensures Inv(c, run[i])
  {
    if i == 0 {
      InitialInv(c);
    } else {
      RunInv(c, poolLasts, run, i - 1);
      assert StepAt(c, poolLasts, run, i - 1);
      var w: nat :| w < |c.plans| && StepOf(c, poolLasts, run[i - 1], run[i], w);
      StepKeeps(c, run[i - 1], run[i], w);
    }
  }

  // ---------------------------------------------------------------- what the stacks hold

  /** The wave sends every worker enough objects for its remote frees. */
  predicate Covered(c: Wave) {
    |c.start| == |c.plans| && forall t | 0 <= t < |c.plans| :: CoveredAt(c, t)
  }

  predicate CoveredAt(c: Wave, t: nat)
    requires t < |c.plans| == |c.start|
  {
    c.start[t] + PlannedFor(c, t, |c.plans|) >= c.plans[t].frees
  }

  /** Once all have finished generating without a failure, each stack holds what is left of
      its share, and that covers the worker's debt. */
  lemma StackCoversDebt(c: Wave, s: State, t: nat)
    requires Inv(c, s) && !s.failed && s.done == |c.plans| && t < |c.plans|
    ensures s.stacks[t] + c.plans[t].frees
            == c.start[t] + PlannedFor(c, t, |c.plans|) + s.workers[t].debt
    ensures Covered(c) ==> s.stacks[t] >= s.workers[t].debt
  {
    forall w | 0 <= w < |c.plans| ensures s.workers[w].sent == |c.plans[w].sends| {
      AllDone(s.workers, |c.plans|, w);
      assert WorkerOk(c, s, w);
    }
    AllSent(c, s.workers, t, |c.plans|);
    assert Conserved(c, s, t) && WorkerOk(c, s, t);
    AllDone(s.workers, |c.plans|, t);
    assert Covered(c) ==> CoveredAt(c, t);
  }

  /** A wave that ends without a failure leaves on every stack what was sent and not freed:
      the start of the next wave. */
  lemma EndStacks(c: Wave, poolLasts: bool, run: seq<State>, t: nat)
    requires WellFormed(c) && IsRun(c, poolLasts, run) && t < |c.plans|
    requires var s := run[|run| - 1];
      !s.failed && |s.workers| == |c.plans|
      && forall w | 0 <= w < |c.plans| :: s.workers[w].stage.Finished?
    ensures |run[|run| - 1].stacks| == |c.plans|
    ensures run[|run| - 1].stacks[t] + c.plans[t].frees
            == c.start[t] + PlannedFor(c, t, |c.plans|)
  {
    var s := run[|run| - 1];
    RunInv(c, poolLasts, run, |run| - 1);
    EverybodyDone(s.workers, |c.plans|);
    StackCoversDebt(c, s, t);
    assert WorkerOk(c, s, t);
  }

  lemma {:induction false} EverybodyDone(workers: seq<Worker>, n: nat)
    requires n <= |workers| && forall w | 0 <= w < n :: !workers[w].stage.Generating?
    ensures DoneAmong(workers, n) == n
  {
    if n > 0 {
      EverybodyDone(workers, n - 1);
    }
  }

  // ------------------------------------------------------------------------- giving up

  /** In a run that has not failed, whoever is testing saw the stack empty before the last
      worker was done. */
  lemma {:induction false} SeenTooEarly(
    c: Wave, poolLasts: bool, run: seq<State>, i: nat, w: nat)
    requires WellFormed(c) && Covered(c) && IsRun(c, poolLasts, run) && i < |run|
    requires w < |c.plans| && Fits(c, run[i])
    requires !run[i].failed && run[i].workers[w].stage.Testing?
    ensures run[i].workers[w].stage.seen < |c.plans|
  {
    var s' := run[i];
    RunInv(c, poolLasts, run, i);
    assert i > 0;
    var s := run[i - 1];
    RunInv(c, poolLasts, run, i - 1);
    assert StepAt(c, poolLasts, run, i - 1);
    var v: nat :| v < |c.plans| && StepOf(c, poolLasts, s, s', v);
    if v == w && Look(c, s, s', w) {
      if s.done == |c.plans| {
        StackCoversDebt(c, s, w);
      }
      assert DoneAmong(s.workers, |c.plans|) <= |c.plans|;
    } else {
      SeenTooEarly(c, poolLasts, run, i - 1, w);
    }
  }

  /** The test that ends the run as failed although the objects are there. */
  predicate GivesUp(c: Wave, s: State, s': State, w: nat) {
    && Fits(c, s) && w < |c.plans| && Test(c, s, s', w) && s.done == |c.plans|
    && s.workers[w].debt > 0 && s.stacks[w] >= s.workers[w].debt
    && s.workers[w].stage.seen < |c.plans|
  }

  /** In a covered wave whose descriptors last, the first failure is always a worker that
      gives up on a stack that holds all it needs: it saw the stack empty before the last
      worker was done and read the done count afterwards. */
  lemma {:induction false} FailureIsStale(c: Wave, run: seq<State>, n: nat)
    returns (i: nat, w: nat)
    requires WellFormed(c) && Covered(c) && IsRun(c, true, run) && n < |run| && run[n].failed
    ensures i < n && !run[i].failed && GivesUp(c, run[i], run[i + 1], w)
  {
    assert n > 0;
    if run[n - 1].failed {
      i, w := FailureIsStale(c, run, n - 1);
    } else {
      i := n - 1;
      RunInv(c, true, run, i);
      assert StepAt(c, true, run, i);
      w :| w < |c.plans| && StepOf(c, true, run[i], run[n], w);
      assert Test(c, run[i], run[n], w) && WorkerOk(c, run[i], w);
      SeenTooEarly(c, true, run, i, w);
      StackCoversDebt(c, run[i], w);
    }
  }
}
