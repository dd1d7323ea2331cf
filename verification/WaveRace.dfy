/** When the look at an empty stack and the later test of the done count make a wave fail
    although every object it needs is there: exactly if some worker frees more objects of
    others than earlier waves left on its stack. */
module WaveRace {
  import W = SyntheticWorker
  import opened WaveProtocol

  /** Routes lead to other workers. */
  predicate SendsAway(c: Wave) {
    forall w, k | 0 <= w < |c.plans| && 0 <= k < |c.plans[w].sends| :: c.plans[w].sends[k] != w
  }

  /** Worker t can free all it must without waiting for this wave's objects. */
  predicate Supplied(c: Wave, t: nat)
    requires t < |c.plans| == |c.start|
  {
    c.plans[t].frees <= c.start[t]
  }

  ghost predicate NeverFails(c: Wave) {
    forall run: seq<State> | IsRun(c, true, run) :: !run[|run| - 1].failed
  }

  // ------------------------------------------------------------------- nothing to wait for

  ghost predicate NoDebts(s: State) {
    !s.failed && forall w | 0 <= w < |s.workers| :: s.workers[w].debt == 0
  }

  lemma StaysDebtFree(c: Wave, s: State, s': State, w: nat)
    requires Inv(c, s) && NoDebts(s) && w < |c.plans| && StepOf(c, true, s, s', w)
    requires Supplied(c, w)
    ensures NoDebts(s')
  {
    assert WorkerOk(c, s, w) && Conserved(c, s, w);
  }

  lemma {:induction false} DebtFree(c: Wave, run: seq<State>, i: nat)
    requires |c.start| == |c.plans| && forall t | 0 <= t < |c.plans| :: Supplied(c, t)
    requires IsRun(c, true, run) && i < |run|
    ensures NoDebts(run[i])
  {
    if i > 0 {
      DebtFree(c, run, i - 1);
      RunInv(c, true, run, i - 1);
      assert StepAt(c, true, run, i - 1);
      var w: nat :| w < |c.plans| && StepOf(c, true, run[i - 1], run[i], w);
      StaysDebtFree(c, run[i - 1], run[i], w);
    }
  }

  // ---------------------------------------------------------------------- a run that fails

  lemma Longer(c: Wave, run: seq<State>, s': State, w: nat) returns (longer: seq<State>)
    requires |c.start| == |c.plans| && IsRun(c, true, run) && w < |c.plans|
    requires Inv(c, run[|run| - 1]) && StepOf(c, true, run[|run| - 1], s', w)
    ensures IsRun(c, true, longer) && longer[|longer| - 1] == s' && Inv(c, s')
  {
    longer := run + [s'];
    var s := run[|run| - 1];
    assert Step(c, true, s, s');
    StepKeeps(c, s, s', w);
    forall i | 0 <= i < |longer| - 1 ensures StepAt(c, true, longer, i) {
      assert i < |run| - 1 ==> StepAt(c, true, run, i);
    }
  }

  /** Only w has moved. */
  predicate OnlyMoved(s: State, s': State, w: nat) {
    && |s.workers| == |s'.workers| && |s.stacks| == |s'.stacks|
    && forall v | 0 <= v < |s.workers| && v != w :: s'.workers[v] == s.workers[v]
  }

  function ToGenerate(c: Wave, s: State, w: nat): int
    requires Fits(c, s) && w < |c.plans|
  {
    var me := s.workers[w];
    |c.plans[w].sends| - me.sent + 2 * (c.plans[w].frees - me.issued) + Held(me)
  }

  /** A worker can always generate to the end, whatever the others have done. */
  lemma {:induction false} Generate(c: Wave, run: seq<State>, w: nat) returns (longer: seq<State>)
    requires WellFormed(c) && IsRun(c, true, run) && w < |c.plans|
    requires Inv(c, run[|run| - 1]) && !run[|run| - 1].failed
    requires run[|run| - 1].workers[w].stage.Generating?
    ensures IsRun(c, true, longer) && Inv(c, longer[|longer| - 1])
    ensures OnlyMoved(run[|run| - 1], longer[|longer| - 1], w) && !longer[|longer| - 1].failed
    ensures longer[|longer| - 1].workers[w].stage.Ended?
    ensures longer[|longer| - 1].done == run[|run| - 1].done + 1
    decreases ToGenerate(c, run[|run| - 1], w)
  {
    var s := run[|run| - 1];
    var me := s.workers[w];
    assert WorkerOk(c, s, w) && SendsOk(c, w);
    if !me.holding && Complete(c, me, w) {
      longer := Longer(c, run, With(s, w, me.(stage := Ended)).(done := s.done + 1), w);
    } else {
      var s' := NextCall(c, s, w);
      longer := Longer(c, run, s', w);
      longer := Generate(c, longer, w);
    }
  }

  lemma NextCall(c: Wave, s: State, w: nat) returns (s': State)
    requires Fits(c, s) && w < |c.plans| && WorkerOk(c, s, w) && SendsOk(c, w) && !s.failed
    requires s.workers[w].stage.Generating?
    requires s.workers[w].holding || !Complete(c, s.workers[w], w)
    ensures StepOf(c, true, s, s', w) && Fits(c, s') && OnlyMoved(s, s', w) && !s'.failed
    ensures s'.workers[w].stage.Generating? && s'.done == s.done
    ensures ToGenerate(c, s', w) < ToGenerate(c, s, w)
  {
    var me := s.workers[w];
    if me.holding {
      s' := With(s, w, me.(holding := false, taken := me.taken + 1));
      assert Free(c, s, s', w);
    } else if me.issued < c.plans[w].frees {
      if s.stacks[w] > 0 {
        s' := With(s, w, me.(issued := me.issued + 1, holding := true))
               .(stacks := s.stacks[w := s.stacks[w] - 1]);
        assert Take(c, s, s', w);
      } else {
        s' := With(s, w, me.(issued := me.issued + 1, debt := me.debt + 1));
        assert Owe(c, s, s', w);
      }
    } else {
      var t := c.plans[w].sends[me.sent];
      s' := With(s, w, me.(sent := me.sent + 1)).(stacks := s.stacks[t := s.stacks[t] + 1]);
      assert Publish(c, s, s', w);
    }
  }

  /** A worker that owes something can settle until its stack is empty. */
  lemma {:induction false} Empty(c: Wave, run: seq<State>, t: nat) returns (longer: seq<State>)
    requires WellFormed(c) && IsRun(c, true, run) && t < |c.plans|
    requires Inv(c, run[|run| - 1]) && !run[|run| - 1].failed
    requires var s := run[|run| - 1];
      s.workers[t].stage.Settling? && s.workers[t].debt > s.stacks[t]
    ensures IsRun(c, true, longer) && Inv(c, longer[|longer| - 1])
    ensures OnlyMoved(run[|run| - 1], longer[|longer| - 1], t) && !longer[|longer| - 1].failed
    ensures longer[|longer| - 1].done == run[|run| - 1].done
    ensures var s := longer[|longer| - 1];
      s.workers[t].stage.Settling? && !s.workers[t].holding && s.stacks[t] == 0
      && s.workers[t].debt > 0
    decreases 2 * run[|run| - 1].stacks[t] + Held(run[|run| - 1].workers[t])
  {
    var s := run[|run| - 1];
    var me := s.workers[t];
    longer := run;
    if me.holding {
      var s' := With(s, t, me.(holding := false, taken := me.taken + 1));
      assert Free(c, s, s', t);
      longer := Longer(c, run, s', t);
      longer := Empty(c, longer, t);
    } else if s.stacks[t] > 0 {
      var s' := With(s, t, me.(debt := me.debt - 1, holding := true))
                 .(stacks := s.stacks[t := s.stacks[t] - 1]);
      assert Drain(c, s, s', t);
      longer := Longer(c, run, s', t);
      longer := Empty(c, longer, t);
    }
  }

  /** The workers from n on but t are still generating, the others are not. */
  predicate Rest(s: State, t: nat, n: nat) {
    forall w | 0 <= w < |s.workers| :: s.workers[w].stage.Generating? <==> n <= w && w != t
  }

  /** All workers from n on but t generate to the end. */
  lemma {:induction false} GenerateRest(c: Wave, run: seq<State>, t: nat, n: nat)
    returns (longer: seq<State>)
    requires WellFormed(c) && IsRun(c, true, run) && t < |c.plans| && n <= |c.plans|
    requires Inv(c, run[|run| - 1]) && !run[|run| - 1].failed
    requires Rest(run[|run| - 1], t, n)
    ensures IsRun(c, true, longer) && Inv(c, longer[|longer| - 1])
    ensures Fits(c, longer[|longer| - 1])
    ensures !longer[|longer| - 1].failed && longer[|longer| - 1].done == |c.plans|
    ensures longer[|longer| - 1].workers[t] == run[|run| - 1].workers[t]
    decreases |c.plans| - n
  {
    longer := run;
    if n == |c.plans| {
      EverybodyDone(run[|run| - 1].workers, n);
    } else {
      if n != t {
        longer := Generate(c, run, n);
      }
      longer := GenerateRest(c, longer, t, n + 1);
    }
  }

  /** Nothing has been pushed to t while only t has run. */
  lemma {:induction false} NothingPushed(c: Wave, workers: seq<Worker>, t: nat, n: nat)
    requires WellFormed(c) && SendsAway(c) && n <= |workers| == |c.plans|
    requires forall w | 0 <= w < |workers| && w != t :: workers[w].sent == 0
    ensures Pushed(c, workers, t, n) == 0
  {
    if n > 0 {
      NothingPushed(c, workers, t, n - 1);
      if n - 1 == t && workers[t].sent <= |c.plans[t].sends| {
        NotAmong(c.plans[t].sends[..workers[t].sent], t);
      }
    }
  }

  lemma {:induction false} NotAmong(sends: seq<nat>, t: nat)
    requires forall k | 0 <= k < |sends| :: sends[k] != t
    ensures W.CountOf(sends, t) == 0
  {
    if sends != [] {
      NotAmong(sends[..|sends| - 1], t);
    }
  }

  /** A worker that must wait for this wave's objects can be made to give up on them. */
  lemma SomeRunFails(c: Wave, t: nat) returns (run: seq<State>)
    requires WellFormed(c) && Covered(c) && SendsAway(c) && t < |c.plans| && !Supplied(c, t)
    ensures IsRun(c, true, run) && run[|run| - 1].failed
  {
    hide Inv, Covered;
    run := [Initial(c)];
    InitialInv(c);
    run := Generate(c, run, t);
    run := Longer(c, run, With(run[|run| - 1], t, run[|run| - 1].workers[t].(stage := Settling)), t);
    OwesMoreThanStacked(c, run[|run| - 1], t);
    run := Empty(c, run, t);
    var s := run[|run| - 1];
    run := Longer(c, run, With(s, t, s.workers[t].(stage := Testing(s.done))), t);
    run := GenerateRest(c, run, t, 0);
    var s' := run[|run| - 1];
    run := Longer(c, run, With(s', t, s'.workers[t].(stage := Finished)).(failed := true), t);
  }

  lemma OwesMoreThanStacked(c: Wave, s: State, t: nat)
    requires WellFormed(c) && SendsAway(c) && t < |c.plans| && !Supplied(c, t)
    requires Inv(c, s) && !s.failed && s.workers[t].stage.Settling?
    requires forall w | 0 <= w < |c.plans| && w != t :: s.workers[w].sent == 0
    ensures s.workers[t].debt > s.stacks[t]
  {
    assert WorkerOk(c, s, t) && Conserved(c, s, t);
    NothingPushed(c, s.workers, t, |c.plans|);
  }

  /** A covered wave whose descriptors last never fails if and only if every worker finds
      its remote frees' objects on its stack from the start. */
  lemma NeverFailsExactly(c: Wave)
    requires WellFormed(c) && Covered(c) && SendsAway(c)
    ensures NeverFails(c) <==> forall t | 0 <= t < |c.plans| :: Supplied(c, t)
  {
    if forall t | 0 <= t < |c.plans| :: Supplied(c, t) {
      forall run: seq<State> | IsRun(c, true, run) ensures !run[|run| - 1].failed {
        DebtFree(c, run, |run| - 1);
      }
    } else {
      var t: nat :| t < |c.plans| && !Supplied(c, t);
      var run := SomeRunFails(c, t);
      assert IsRun(c, true, run) && run[|run| - 1].failed;
    }
  }

  /** Worker 0 sends one object to worker 1, which frees one. */
  function TwoWorkers(): Wave {
    Wave([Plan([1], 0), Plan([], 1)], [0, 0])
  }

  /** For example worker 1 can give up on the one object that lies on its stack. */
  lemma TwoWorkersRace() returns (run: seq<State>, i: nat, w: nat)
    ensures Covered(TwoWorkers()) && IsRun(TwoWorkers(), true, run) && i + 1 < |run|
    ensures GivesUp(TwoWorkers(), run[i], run[i + 1], w) && run[i].stacks[w] >= 1
  {
    var c := TwoWorkers();
    assert W.CountOf([1], 1) == W.CountOf([1][..0], 1) + 1;
    assert PlannedFor(c, 1, 1) == 1 && CoveredAt(c, 0) && CoveredAt(c, 1);
    assert SendsOk(c, 0) && SendsOk(c, 1);
    run := SomeRunFails(c, 1);
    i, w := FailureIsStale(c, run, |run| - 1);
  }
}
