/** What the epoch barrier guarantees as long as no worker is launched after the first
    announced epoch. The source launches workers in order of their start, so this is decided
    by the start times: no epoch boundary may lie between two of them. */
module EpochTheorems {
  import opened NativeFormat
  import C = EpochCompiler
  import opened EpochBarrier

  // ------------------------------------------------------------------------- the queues

  predicate InQueue(q: seq<nat>, k: nat, i: nat) {
    i < |q| && q[i] == k
  }

  lemma {:induction false} QueueShape(ops: seq<C.EpochOp>, tid: nat)
    ensures forall i | 0 <= i < |Queue(ops, tid)| ::
      Queue(ops, tid)[i] < |ops| && ops[Queue(ops, tid)[i]].tid == tid
    ensures forall i, j | 0 <= i < j < |Queue(ops, tid)| ::
      Queue(ops, tid)[i] < Queue(ops, tid)[j]
  {
    if ops != [] {
      QueueShape(ops[..|ops| - 1], tid);
    }
  }

  /** Every operation is in its thread's queue. */
  lemma {:induction false} Rank(ops: seq<C.EpochOp>, k: nat) returns (i: nat)
    requires k < |ops|
    ensures InQueue(Queue(ops, ops[k].tid), k, i)
  {
    var n := |ops| - 1;
    if k == n {
      i := |Queue(ops[..n], ops[k].tid)|;
    } else {
      i := Rank(ops[..n], k);
    }
  }

  // ------------------------------------------------------------------------ assumptions

  /** A compiled trace whose records are in time order, workers for all its threads, and
      epochs that cover it without overflow. */
  ghost predicate WellFormed(cfg: Config) {
    && C.Program(cfg.ops) && C.Timed(cfg.ops)
    && (forall k | 0 <= k < |cfg.ops| :: HasWorker(cfg, k))
    && (forall v, w | 0 <= v < w < |cfg.workers| :: InOrder(cfg, v, w))
    && (forall w | 0 <= w < |cfg.workers| :: cfg.workers[w].endTs <= U64_MAX)
    && cfg.epochs >= 1 && cfg.minTs + cfg.epochs * cfg.epochSize <= U64_MAX
    && forall k | 0 <= k < |cfg.ops| :: cfg.ops[k].ts < cfg.minTs + cfg.epochs * cfg.epochSize
  }

  /** Workers are different threads, sorted by start. */
  predicate InOrder(cfg: Config, v: nat, w: nat)
    requires v < |cfg.workers| && w < |cfg.workers|
  {
    && cfg.workers[v].tid != cfg.workers[w].tid
    && cfg.workers[v].startTs <= cfg.workers[w].startTs
  }

  predicate HasWorker(cfg: Config, k: nat)
    requires k < |cfg.ops|
  {
    exists w | 0 <= w < |cfg.workers| :: cfg.workers[w].tid == cfg.ops[k].tid
  }

  predicate StartsBefore(cfg: Config, w: nat, epoch: nat)
    requires w < |cfg.workers|
  {
    cfg.workers[w].startTs < EpochEnd(cfg, epoch)
  }

  /** No epoch boundary lies between the starts of the first n workers. */
  predicate TogetherUpTo(cfg: Config, n: nat)
    requires n <= |cfg.workers|
  {
    forall e, v, w | 0 <= e < cfg.epochs && 0 <= v < n && 0 <= w < n && StartsBefore(cfg, v, e) ::
      StartsBefore(cfg, w, e)
  }

  /** All workers start inside the same epoch. */
  predicate Together(cfg: Config) {
    TogetherUpTo(cfg, |cfg.workers|)
  }

  /** An epoch ends after the first worker's start and not after worker m's. */
  predicate Split(cfg: Config, m: nat)
    requires m < |cfg.workers|
  {
    exists e | 0 <= e < cfg.epochs :: StartsBefore(cfg, 0, e) && !StartsBefore(cfg, m, e)
  }

  /** The worker has executed operation k. */
  predicate ExecutedBy(cfg: Config, s: State, w: nat, k: nat)
    requires w < |cfg.workers| == |s.workers|
  {
    s.workers[w].pos <= |Q(cfg, w)| && k in Q(cfg, w)[..s.workers[w].pos]
  }

  /** Exactly its operations before `end`. */
  ghost predicate ExactlyBelow(cfg: Config, s: State, w: nat, end: nat)
    requires w < |cfg.workers| == |s.workers|
  {
    && s.workers[w].pos <= |Q(cfg, w)|
    && forall i | 0 <= i < |Q(cfg, w)| :: BelowAt(cfg, s, w, end, i)
  }

  predicate BelowAt(cfg: Config, s: State, w: nat, end: nat, i: nat)
    requires w < |cfg.workers| == |s.workers| && i < |Q(cfg, w)|
  {
    Q(cfg, w)[i] < |cfg.ops| && (i < s.workers[w].pos <==> cfg.ops[Q(cfg, w)[i]].ts < end)
  }

  /** Nothing at or after `end`. */
  ghost predicate NothingAfter(cfg: Config, s: State, w: nat, end: nat)
    requires w < |cfg.workers| == |s.workers|
  {
    && s.workers[w].pos <= |Q(cfg, w)|
    && forall i | 0 <= i < s.workers[w].pos :: AfterAt(cfg, w, end, i)
  }

  predicate AfterAt(cfg: Config, w: nat, end: nat, i: nat)
    requires w < |cfg.workers| && i < |Q(cfg, w)|
  {
    Q(cfg, w)[i] < |cfg.ops| && cfg.ops[Q(cfg, w)[i]].ts < end
  }

  /** The worker has arrived for the current epoch. */
  predicate Arrived(s: State, w: nat)
    requires w < |s.workers|
  {
    var me := s.workers[w];
    me.phase.Gone? || (me.phase.Checking? && me.seen == s.id)
  }

  /** Before the first epoch. */
  predicate Starting(cfg: Config, s: State, w: nat)
    requires w < |cfg.workers| == |s.workers|
  {
    s.workers[w] == Worker(if w < s.next then Checking else Unlaunched, 0, 0, false)
  }

  ghost predicate WorkerOk(cfg: Config, s: State, w: nat)
    requires w < |cfg.workers| == |s.workers|
  {
    var me := s.workers[w];
    && NothingAfter(cfg, s, w, s.end)
    && (me.joined ==> me.phase.Gone?)
    && (Arrived(s, w) ==> ExactlyBelow(cfg, s, w, s.end))
    && match me.phase
       case Unlaunched => false
       case Checking =>
         || (me.seen == s.id && !(me.pos == |Q(cfg, w)| && s.end >= cfg.workers[w].endTs))
         || (s.control.Waiting? && me.seen < s.id)
       case Running(e) => s.control.Waiting? && me.seen == s.id && e == s.end
       case Arriving(e, finishing) =>
         && s.control.Waiting? && me.seen == s.id && e == s.end
         && ExactlyBelow(cfg, s, w, s.end)
         && (finishing <==> me.pos == |Q(cfg, w)| && s.end >= cfg.workers[w].endTs)
       case Gone => me.pos == |Q(cfg, w)|
  }

  function Count(bs: seq<bool>): nat {
    if bs == [] then 0 else Count(bs[..|bs| - 1]) + if bs[|bs| - 1] then 1 else 0
  }

  lemma {:induction false} CountUpdate(bs: seq<bool>, i: nat, b: bool)
    requires i < |bs|
    ensures Count(bs[i := b]) == Count(bs) - (if bs[i] then 1 else 0) + (if b then 1 else 0)
  {
    var n := |bs| - 1;
    if i < n {
      assert bs[i := b][..n] == bs[..n][i := b];
      CountUpdate(bs[..n], i, b);
    } else {
      assert bs[i := b][..n] == bs[..n];
    }
  }

  lemma {:induction false} CountBelow(a: seq<bool>, b: seq<bool>)
    requires |a| == |b| && forall i | 0 <= i < |a| :: a[i] ==> b[i]
    ensures Count(a) <= Count(b)
    ensures Count(a) == Count(b) ==> forall i | 0 <= i < |a| :: a[i] == b[i]
  {
    if a != [] {
      CountBelow(a[..|a| - 1], b[..|b| - 1]);
      var n := |a| - 1;
      if Count(a) == Count(b) {
        forall i | 0 <= i < |a| ensures a[i] == b[i] {
          if i < n {
            assert a[..n][i] == a[i] && b[..n][i] == b[i];
          }
        }
      }
    }
  }

  /** Launched and not yet joined. */
  function Unjoined(workers: seq<Worker>): (bs: seq<bool>)
    ensures |bs| == |workers|
    ensures forall w | 0 <= w < |bs| ::
      bs[w] == (!workers[w].phase.Unlaunched? && !workers[w].joined)
  {
    seq(|workers|, w requires 0 <= w < |workers| =>
      !workers[w].phase.Unlaunched? && !workers[w].joined)
  }

  function ArrivedFlags(s: State): (bs: seq<bool>)
    ensures |bs| == |s.workers|
    ensures forall w | 0 <= w < |bs| :: bs[w] == (!s.workers[w].joined && Arrived(s, w))
  {
    seq(|s.workers|, w requires 0 <= w < |s.workers| => !s.workers[w].joined && Arrived(s, w))
  }

  predicate Unborn(s: State, w: nat)
    requires w < |s.workers|
  {
    s.workers[w] == Worker(Unlaunched, 0, 0, false)
  }

  /** Who has been launched, after the first announcement: a batch that started together,
      cut off by an epoch boundary from the next worker in line. */
  ghost predicate BatchOk(cfg: Config, s: State) {
    && s.next <= |cfg.workers| == |s.workers|
    && TogetherUpTo(cfg, s.next)
    && (s.next < |cfg.workers| ==>
          cfg.workers[s.next].startTs >= s.end && Split(cfg, s.next))
    && forall w | s.next <= w < |s.workers| :: Unborn(s, w)
  }

  /** The bookkeeping after the first epoch began. */
  ghost predicate Begun(cfg: Config, s: State) {
    && s.id >= 1 && BatchOk(cfg, s)
    && (forall w | 0 <= w < s.next :: WorkerOk(cfg, s, w))
    && s.active == Count(Unjoined(s.workers))
    && match s.control
       case Waiting =>
         && InEpoch(cfg, s)
         && s.target == s.active && s.active > 0 && s.arrived == Count(ArrivedFlags(s))
       case Joining(k) =>
         && InEpoch(cfg, s) && k <= s.next
         && (forall w | 0 <= w < s.next :: Arrived(s, w))
         && (forall w | 0 <= w < k :: s.workers[w].phase.Gone? ==> s.workers[w].joined)
       case Launching => Between(cfg, s)
       case Done => Between(cfg, s) && s.active == 0 && s.next == |cfg.workers|
  }

  /** The bookkeeping inside an announced epoch, except that the arrival count is off by d. */
  ghost predicate Inside(cfg: Config, s: State, d: int) {
    && s.control.Waiting? && s.id >= 1 && s.next <= |cfg.workers| == |s.workers|
    && s.end == EpochEnd(cfg, s.epoch)
    && (forall w | s.next <= w < |s.workers| :: Unborn(s, w))
    && (forall w | 0 <= w < s.next :: WorkerOk(cfg, s, w))
    && s.target == s.active == Count(Unjoined(s.workers)) && s.active > 0
    && s.arrived == Count(ArrivedFlags(s)) + d
  }

  predicate InEpoch(cfg: Config, s: State) {
    && s.end == EpochEnd(cfg, s.epoch) && s.epoch <= cfg.epochs
    && (s.epoch == cfg.epochs ==> s.next == |cfg.workers|)
  }

  /** Between epochs: all have arrived, and whoever finished has been joined. */
  ghost predicate Between(cfg: Config, s: State)
    requires s.next <= |s.workers|
  {
    && s.epoch <= cfg.epochs + 1 && s.end <= EpochEnd(cfg, s.epoch)
    && (s.epoch == cfg.epochs + 1 ==> s.active == 0 && s.next == |cfg.workers|)
    && forall w | 0 <= w < s.next :: Rested(s, w)
  }

  predicate Rested(s: State, w: nat)
    requires w < |s.workers|
  {
    Arrived(s, w) && (s.workers[w].phase.Gone? ==> s.workers[w].joined)
  }

  /** Before the first announcement: everybody launched so far starts in this epoch. */
  ghost predicate NotBegun(cfg: Config, s: State) {
    && s.id == 0 && s.end == 0 && s.gens == map[]
    && s.next <= |cfg.workers| == |s.workers| && s.active == s.next
    && (s.control.Launching? || (s.control.Done? && |s.workers| == 0))
    && s.epoch <= cfg.epochs
    && (forall e, w | 0 <= e < s.epoch && 0 <= w < |cfg.workers| :: !StartsBefore(cfg, w, e))
    && (forall w | 0 <= w < s.next :: s.epoch == cfg.epochs || StartsBefore(cfg, w, s.epoch))
    && forall w | 0 <= w < |s.workers| :: Starting(cfg, s, w)
  }

  // ------------------------------------------------------------------------ generations

  predicate HasExecuted(cfg: Config, s: State, k: nat)
    requires |cfg.workers| == |s.workers|
  {
    exists w | 0 <= w < |s.workers| :: ExecutedBy(cfg, s, w, k)
  }

  predicate PublishedBy(cfg: Config, s: State, slot: nat, gen: nat, k: nat)
    requires |cfg.workers| == |s.workers|
  {
    k < |cfg.ops| && HasExecuted(cfg, s, k) && C.Publishes(cfg.ops[k], slot, gen)
  }

  /** A slot's generation is reached exactly by the operations that publish up to it. */
  ghost predicate GensOk(cfg: Config, s: State)
    requires |cfg.workers| == |s.workers|
  {
    && (forall k | 0 <= k < |cfg.ops| && HasExecuted(cfg, s, k) ::
          cfg.ops[k].outGen <= Gen(s, cfg.ops[k].slot) || cfg.ops[k].outGen == 0)
    && forall slot, gen :: GenReached(cfg, s, slot, gen)
  }

  ghost predicate GenReached(cfg: Config, s: State, slot: nat, gen: nat)
    requires |cfg.workers| == |s.workers|
  {
    1 <= gen <= Gen(s, slot) ==> exists k :: PublishedBy(cfg, s, slot, gen, k)
  }

  ghost predicate Inv(cfg: Config, s: State) {
    && |s.workers| == |cfg.workers|
    && (NotBegun(cfg, s) || Begun(cfg, s))
    && GensOk(cfg, s)
  }

  // ----------------------------------------------------------------------- controller

  lemma EndsGrow(cfg: Config, epoch: nat)
    requires WellFormed(cfg)
    ensures EpochEnd(cfg, epoch) <= EpochEnd(cfg, epoch + 1) <= U64_MAX
    ensures epoch <= cfg.epochs ==> EpochEnd(cfg, epoch) <= U64_MAX
  {
    EndBound(cfg, epoch);
    EndBound(cfg, epoch + 1);
  }

  lemma EndBound(cfg: Config, epoch: nat)
    requires WellFormed(cfg)
    ensures EpochEnd(cfg, epoch) <= U64_MAX
    ensures epoch < cfg.epochs ==>
      EpochEnd(cfg, epoch) == cfg.minTs + epoch * cfg.epochSize + cfg.epochSize
  {
    if epoch < cfg.epochs {
      assert (epoch + 1) * cfg.epochSize <= cfg.epochs * cfg.epochSize;
    }
  }

  /** Positions and generations are untouched. */
  lemma GensSame(cfg: Config, s: State, s': State)
    requires |s.workers| == |cfg.workers| == |s'.workers| && GensOk(cfg, s)
    requires s'.gens == s.gens
    requires forall w | 0 <= w < |s.workers| :: s'.workers[w].pos == s.workers[w].pos
    ensures GensOk(cfg, s')
  {
    forall k ensures HasExecuted(cfg, s', k) <==> HasExecuted(cfg, s, k) {
      if w :| 0 <= w < |s.workers| && ExecutedBy(cfg, s, w, k) {
        assert ExecutedBy(cfg, s', w, k);
      }
      if w :| 0 <= w < |s.workers| && ExecutedBy(cfg, s', w, k) {
        assert ExecutedBy(cfg, s, w, k);
      }
    }
    forall slot: nat, gen: nat ensures GenReached(cfg, s', slot, gen) {
      assert GenReached(cfg, s, slot, gen);
      if 1 <= gen <= Gen(s', slot) {
        var k :| PublishedBy(cfg, s, slot, gen, k);
        assert PublishedBy(cfg, s', slot, gen, k);
      }
    }
  }

  /** Only what belongs to worker w, or nothing the workers depend on, changed. */
  lemma OtherWorkerOk(cfg: Config, s: State, s': State, v: nat)
    requires v < |cfg.workers| == |s.workers| == |s'.workers| && WorkerOk(cfg, s, v)
    requires s'.workers[v] == s.workers[v] && s'.id == s.id && s'.end == s.end
    requires s'.control == s.control || (!s'.control.Waiting? && Arrived(s, v))
    ensures WorkerOk(cfg, s', v) && (Arrived(s', v) <==> Arrived(s, v))
  {
    if Arrived(s, v) || s.workers[v].phase.Arriving? {
      forall i | 0 <= i < |Q(cfg, v)| ensures BelowAt(cfg, s', v, s.end, i) {
        assert BelowAt(cfg, s, v, s.end, i);
      }
    }
  }

  lemma EndMono(cfg: Config, d: nat, e: nat)
    requires d <= e < cfg.epochs
    ensures EpochEnd(cfg, d) <= EpochEnd(cfg, e)
  {
    assert (d + 1) * cfg.epochSize <= (e + 1) * cfg.epochSize;
  }

  /** The launch of a worker after the first announcement. */
  predicate LateLaunch(cfg: Config, s: State, s': State) {
    s.id >= 1 && Launch(cfg, s, s')
  }

  /** Workers that start together are launched together. */
  lemma AllLaunched(cfg: Config, s: State)
    requires Together(cfg) && Begun(cfg, s)
    ensures s.next == |cfg.workers|
  {}

  /** The workers launched before the first announcement start together. */
  lemma FirstBatch(cfg: Config, s: State)
    requires WellFormed(cfg) && NotBegun(cfg, s) && NoMoreLaunches(cfg, s) && s.active > 0
    ensures TogetherUpTo(cfg, s.next)
    ensures s.next < |cfg.workers| ==> Split(cfg, s.next)
  {
    forall e, v, w | 0 <= e < cfg.epochs && 0 <= v < s.next && 0 <= w < s.next
                     && StartsBefore(cfg, v, e)
      ensures StartsBefore(cfg, w, e)
    {
      assert e >= s.epoch;
      EndMono(cfg, s.epoch, e);
      assert StartsBefore(cfg, w, s.epoch);
    }
    if s.next < |cfg.workers| {
      assert StartsBefore(cfg, 0, s.epoch) && !StartsBefore(cfg, s.next, s.epoch);
    }
  }

  lemma KeepAnnounce(cfg: Config, s: State, s': State)
    requires WellFormed(cfg) && Inv(cfg, s) && Announce(cfg, s, s')
    ensures Inv(cfg, s')
  {
    GensSame(cfg, s, s');
    EndBound(cfg, s.epoch);
    if NotBegun(cfg, s) {
      FirstBatch(cfg, s);
    }
    forall w | s'.next <= w < |s'.workers| ensures Unborn(s', w) {
      assert NotBegun(cfg, s) ==> Starting(cfg, s, w);
      assert !NotBegun(cfg, s) ==> Unborn(s, w);
    }
    forall w | 0 <= w < s'.next
      ensures WorkerOk(cfg, s', w) && (!s'.workers[w].joined ==> !Arrived(s', w))
    {
      if NotBegun(cfg, s) {
        assert Starting(cfg, s, w);
      } else {
        assert Rested(s, w) && WorkerOk(cfg, s, w);
        forall i | 0 <= i < s.workers[w].pos ensures AfterAt(cfg, w, s'.end, i) {
          assert AfterAt(cfg, w, s.end, i);
        }
        if s.workers[w].phase.Gone? {
          GoneBelow(cfg, s, s', w);
        }
      }
    }
    forall w | 0 <= w < |s'.workers| && !s'.workers[w].joined ensures !Arrived(s', w) {
      assert w >= s'.next ==> Unborn(s', w);
    }
    NobodyArrived(s');
    if NotBegun(cfg, s) {
      forall w | 0 <= w < |s'.workers| ensures Unjoined(s'.workers)[w] == (w < s'.next) {
        assert Starting(cfg, s, w);
      }
      CountFirst(Unjoined(s'.workers), s'.next);
    }
  }

  /** A finished worker has nothing left for any later epoch. */
  lemma GoneBelow(cfg: Config, s: State, s': State, w: nat)
    requires w < |cfg.workers| == |s.workers| == |s'.workers| && s'.workers[w] == s.workers[w]
    requires s.workers[w].pos == |Q(cfg, w)| && NothingAfter(cfg, s, w, s.end)
    requires s.end <= s'.end
    ensures ExactlyBelow(cfg, s', w, s'.end)
  {
    forall i | 0 <= i < |Q(cfg, w)| ensures BelowAt(cfg, s', w, s'.end, i) {
      assert AfterAt(cfg, w, s.end, i);
    }
  }

  lemma NobodyArrived(s: State)
    requires forall w | 0 <= w < |s.workers| && !s.workers[w].joined :: !Arrived(s, w)
    ensures Count(ArrivedFlags(s)) == 0
  {
    CountNone(ArrivedFlags(s));
  }

  lemma {:induction false} CountNone(bs: seq<bool>)
    requires forall i | 0 <= i < |bs| :: !bs[i]
    ensures Count(bs) == 0
  {
    if bs != [] {
      CountNone(bs[..|bs| - 1]);
    }
  }

  lemma {:induction false} CountFirst(bs: seq<bool>, n: nat)
    requires n <= |bs| && forall i | 0 <= i < |bs| :: bs[i] == (i < n)
    ensures Count(bs) == n
  {
    if n < |bs| {
      CountFirst(bs[..|bs| - 1], n);
    } else if n > 0 {
      CountFirst(bs[..n - 1], n - 1);
    }
  }

  lemma KeepLaunch(cfg: Config, s: State, s': State)
    requires WellFormed(cfg) && Inv(cfg, s) && Launch(cfg, s, s') && s.id == 0
    ensures Inv(cfg, s')
  {
    GensSame(cfg, s, s');
    forall w | 0 <= w < |s'.workers| ensures Starting(cfg, s', w) {
      assert Starting(cfg, s, w);
    }
  }

  lemma KeepSkip(cfg: Config, s: State, s': State)
    requires WellFormed(cfg) && Inv(cfg, s) && Skip(cfg, s, s')
    ensures Inv(cfg, s')
  {
    GensSame(cfg, s, s');
    EndsGrow(cfg, s.epoch);
    if NotBegun(cfg, s) {
      SkippedStarts(cfg, s);
      forall w | 0 <= w < |s'.workers| ensures Starting(cfg, s', w) {
        assert Starting(cfg, s, w);
      }
    } else {
      forall w | 0 <= w < s'.next ensures WorkerOk(cfg, s', w) && Rested(s', w) {
        assert Rested(s, w);
        SameWorkerOk(cfg, s, s', w);
      }
      forall w | s'.next <= w < |s'.workers| ensures Unborn(s', w) {
        assert Unborn(s, w);
      }
    }
  }

  /** An epoch skipped before the first announcement ends before every start. */
  lemma SkippedStarts(cfg: Config, s: State)
    requires WellFormed(cfg) && NotBegun(cfg, s) && NoMoreLaunches(cfg, s) && s.active == 0
    ensures s.epoch < cfg.epochs ==>
      forall w | 0 <= w < |cfg.workers| :: !StartsBefore(cfg, w, s.epoch)
    ensures s.epoch == cfg.epochs ==> |cfg.workers| == 0
  {
    forall w | 0 <= w < |cfg.workers| && s.epoch < cfg.epochs
      ensures !StartsBefore(cfg, w, s.epoch)
    {
      assert w > 0 ==> InOrder(cfg, 0, w);
    }
  }

  /** The controller moved between epochs. */
  lemma SameWorkerOk(cfg: Config, s: State, s': State, w: nat)
    requires w < |cfg.workers| == |s.workers| && s'.workers == s.workers
    requires s'.id == s.id && s'.end == s.end && Arrived(s, w) && WorkerOk(cfg, s, w)
    requires !s.control.Waiting? && !s'.control.Waiting?
    ensures WorkerOk(cfg, s', w) && Arrived(s', w)
  {
    OtherWorkerOk(cfg, s, s', w);
  }

  /** The controller leaves an epoch only when every launched worker has arrived. */
  lemma LeavesWhenAllArrived(cfg: Config, s: State, w: nat)
    requires Inv(cfg, s) && s.control.Waiting? && s.arrived >= s.target && w < s.next
    ensures Arrived(s, w) && ExactlyBelow(cfg, s, w, s.end) && s.end == EpochEnd(cfg, s.epoch)
  {
    CountBelow(ArrivedFlags(s), Unjoined(s.workers));
    assert ArrivedFlags(s)[w] == Unjoined(s.workers)[w];
    assert WorkerOk(cfg, s, w);
  }

  lemma StaysUnborn(cfg: Config, s: State, s': State)
    requires BatchOk(cfg, s) && s'.next == s.next && |s'.workers| == |s.workers|
    requires forall w | s.next <= w < |s.workers| :: s'.workers[w] == s.workers[w]
    ensures forall w | s'.next <= w < |s'.workers| :: Unborn(s', w)
  {
    forall w | s'.next <= w < |s'.workers| ensures Unborn(s', w) {
      assert Unborn(s, w);
    }
  }

  lemma KeepLeave(cfg: Config, s: State, s': State)
    requires WellFormed(cfg) && Inv(cfg, s) && Leave(s, s')
    ensures Inv(cfg, s')
  {
    GensSame(cfg, s, s');
    StaysUnborn(cfg, s, s');
    forall w | 0 <= w < s'.next ensures WorkerOk(cfg, s', w) && Arrived(s', w) {
      LeavesWhenAllArrived(cfg, s, w);
      OtherWorkerOk(cfg, s, s', w);
      var me := s.workers[w];
      assert me.phase.Checking? ==> me.seen == s.id;
    }
  }

  /** Being joined changes nothing for a worker that has finished. */
  lemma JoinedOk(cfg: Config, s: State, s': State, w: nat)
    requires w < |cfg.workers| == |s.workers| && |s'.workers| == |s.workers|
    requires WorkerOk(cfg, s, w) && Arrived(s, w) && Join(s, s')
    ensures WorkerOk(cfg, s', w) && Arrived(s', w)
  {
    forall i | 0 <= i < |Q(cfg, w)| ensures BelowAt(cfg, s', w, s.end, i) {
      assert BelowAt(cfg, s, w, s.end, i);
    }
  }

  lemma KeepJoin(cfg: Config, s: State, s': State)
    requires WellFormed(cfg) && Inv(cfg, s) && Join(s, s')
    ensures Inv(cfg, s')
  {
    hide WorkerOk, GensOk, TogetherUpTo, Split, WellFormed;
    GensSame(cfg, s, s');
    var k := s.control.k;
    StaysUnborn(cfg, s, s');
    forall w | 0 <= w < s'.next ensures WorkerOk(cfg, s', w) && Arrived(s', w) {
      JoinedOk(cfg, s, s', w);
    }
    if s'.workers != s.workers {
      CountUpdate(Unjoined(s.workers), k, false);
      assert Unjoined(s'.workers) == Unjoined(s.workers)[k := false];
    }
  }

  lemma KeepEndJoin(cfg: Config, s: State, s': State)
    requires WellFormed(cfg) && Inv(cfg, s) && EndJoin(s, s')
    ensures Inv(cfg, s')
  {
    GensSame(cfg, s, s');
    EndsGrow(cfg, s.epoch);
    StaysUnborn(cfg, s, s');
    forall w | 0 <= w < s'.next ensures WorkerOk(cfg, s', w) && Rested(s', w) {
      assert Arrived(s, w) && WorkerOk(cfg, s, w);
      SameWorkerOk(cfg, s, s', w);
    }
    if s.epoch == cfg.epochs {
      forall w | 0 <= w < |s.workers| ensures s.workers[w].joined {
        DrainFinishes(cfg, s, w);
      }
      CountNone(Unjoined(s.workers));
    }
  }

  /** In the epoch without an end every worker that arrives has finished. */
  lemma DrainFinishes(cfg: Config, s: State, w: nat)
    requires WellFormed(cfg) && Inv(cfg, s) && s.control.Joining? && s.epoch == cfg.epochs
    requires w < s.next
    ensures s.workers[w].phase.Gone?
  {
    assert Arrived(s, w) && WorkerOk(cfg, s, w);
    var below := s.workers[w].pos < |Q(cfg, w)| ==> BelowAt(cfg, s, w, s.end, s.workers[w].pos);
  }

  // -------------------------------------------------------------------------- workers

  /** A worker can only act inside an epoch that has not been left. */
  lemma OnlyInEpoch(cfg: Config, s: State, s': State, w: nat)
    requires Inv(cfg, s) && w < |s.workers| && WorkerStep(cfg, s, s', w)
    ensures Begun(cfg, s) && Inside(cfg, s, 0)
  {
    var starting, rested, ok := Starting(cfg, s, w), Rested(s, w), WorkerOk(cfg, s, w);
    var unborn := Unborn(s, w);
  }

  lemma CanAct(cfg: Config, s: State, s': State, w: nat, d: int)
    requires Inside(cfg, s, d) && w < |s.workers| && WorkerStep(cfg, s, s', w)
    ensures w < s.next && !s.workers[w].joined && !Arrived(s, w)
  {
    var ok, unborn := WorkerOk(cfg, s, w), Unborn(s, w);
  }

  /** One worker moves on; the count of arrivals follows. */
  lemma KeepOne(cfg: Config, s: State, s': State, w: nat, d: int)
    requires WellFormed(cfg) && Inside(cfg, s, d) && w < s.next
    requires |s'.workers| == |s.workers| == |cfg.workers|
    requires !s.workers[w].joined && !s'.workers[w].joined
    requires !s'.workers[w].phase.Unlaunched?
    requires s' == s.(workers := s'.workers, arrived := s'.arrived, gens := s'.gens)
    requires s'.workers == s.workers[w := s'.workers[w]] && WorkerOk(cfg, s', w)
    requires !Arrived(s, w)
    requires s'.arrived == s.arrived + if Arrived(s', w) then 1 else 0
    ensures Inside(cfg, s', d)
  {
    assert WorkerOk(cfg, s, w);
    forall v | s'.next <= v < |s'.workers| ensures Unborn(s', v) {
      assert Unborn(s, v);
    }
    forall v | 0 <= v < s'.next ensures WorkerOk(cfg, s', v) {
      if v != w {
        OtherWorkerOk(cfg, s, s', v);
      }
    }
    assert Unjoined(s'.workers) == Unjoined(s.workers);
    CountUpdate(ArrivedFlags(s), w, Arrived(s', w));
    assert ArrivedFlags(s') == ArrivedFlags(s)[w := Arrived(s', w)];
  }

  lemma KeepSee(cfg: Config, s: State, s': State, w: nat, d: int)
    requires WellFormed(cfg) && Inside(cfg, s, d) && GensOk(cfg, s)
    requires w < |s.workers| && See(s, s', w)
    ensures Inside(cfg, s', d) && GensOk(cfg, s')
  {
    CanAct(cfg, s, s', w, d);
    GensSame(cfg, s, s');
    assert WorkerOk(cfg, s, w);
    forall i | 0 <= i < s.workers[w].pos ensures AfterAt(cfg, w, s.end, i) {}
    KeepOne(cfg, s, s', w, d);
  }

  /** Outside its own work a worker has executed exactly what lies before the end. */
  lemma NoWorkIsExact(cfg: Config, s: State, w: nat)
    requires WellFormed(cfg) && w < |cfg.workers| == |s.workers|
    requires NothingAfter(cfg, s, w, s.end) && !HasWork(cfg, s, w, s.end)
    ensures ExactlyBelow(cfg, s, w, s.end)
  {
    QueueShape(cfg.ops, cfg.workers[w].tid);
    var q, p := Q(cfg, w), s.workers[w].pos;
    forall i | 0 <= i < |q| ensures BelowAt(cfg, s, w, s.end, i) {
      if i < p {
        assert AfterAt(cfg, w, s.end, i);
      } else if p < i {
        assert q[p] < q[i];
      }
    }
  }

  lemma KeepStop(cfg: Config, s: State, s': State, w: nat, d: int)
    requires WellFormed(cfg) && Inside(cfg, s, d) && GensOk(cfg, s)
    requires w < |s.workers| && Stop(cfg, s, s', w)
    ensures Inside(cfg, s', d) && GensOk(cfg, s')
  {
    CanAct(cfg, s, s', w, d);
    GensSame(cfg, s, s');
    assert WorkerOk(cfg, s, w);
    NoWorkIsExact(cfg, s, w);
    forall i | 0 <= i < |Q(cfg, w)| ensures BelowAt(cfg, s', w, s.end, i) {
      assert BelowAt(cfg, s, w, s.end, i);
    }
    KeepOne(cfg, s, s', w, d);
  }

  lemma KeepArrive(cfg: Config, s: State, s': State, w: nat, d: int)
    requires WellFormed(cfg) && Inside(cfg, s, d) && GensOk(cfg, s)
    requires w < |s.workers| && Arrive(s, s', w)
    ensures Inside(cfg, s', d) && GensOk(cfg, s')
  {
    CanAct(cfg, s, s', w, d);
    GensSame(cfg, s, s');
    assert WorkerOk(cfg, s, w);
    forall i | 0 <= i < |Q(cfg, w)| ensures BelowAt(cfg, s', w, s.end, i) {
      assert BelowAt(cfg, s, w, s.end, i);
    }
    KeepOne(cfg, s, s', w, d);
  }

  lemma KeepExecute(cfg: Config, s: State, s': State, w: nat, d: int)
    requires WellFormed(cfg) && Inside(cfg, s, d) && GensOk(cfg, s)
    requires w < |s.workers| && Execute(cfg, s, s', w)
    ensures Inside(cfg, s', d) && GensOk(cfg, s')
  {
    CanAct(cfg, s, s', w, d);
    assert WorkerOk(cfg, s, w);
    forall i | 0 <= i < s'.workers[w].pos ensures AfterAt(cfg, w, s.end, i) {
      assert i < s.workers[w].pos ==> AfterAt(cfg, w, s.end, i);
    }
    KeepOne(cfg, s, s', w, d);
    ExecuteGens(cfg, s, s', w);
  }

  /** A worker's step stays inside the epoch and keeps whatever the count is off by. */
  lemma KeepInside(cfg: Config, s: State, s': State, w: nat, d: int)
    requires |s.workers| == |cfg.workers| && w < |s.workers|
    requires WellFormed(cfg) && Inside(cfg, s, d) && GensOk(cfg, s)
    requires WorkerStep(cfg, s, s', w)
    ensures Inside(cfg, s', d) && GensOk(cfg, s')
    ensures s' == s.(workers := s'.workers, arrived := s'.arrived, gens := s'.gens)
    ensures s'.workers == s.workers[w := s'.workers[w]]
  {
    hide Inside, GensOk, WellFormed;
    if See(s, s', w) {
      KeepSee(cfg, s, s', w, d);
    } else if Execute(cfg, s, s', w) {
      KeepExecute(cfg, s, s', w, d);
    } else if Stop(cfg, s, s', w) {
      KeepStop(cfg, s, s', w, d);
    } else {
      KeepArrive(cfg, s, s', w, d);
    }
  }

  lemma KeepWorker(cfg: Config, s: State, s': State, w: nat)
    requires WellFormed(cfg) && Inv(cfg, s) && w < |s.workers| && WorkerStep(cfg, s, s', w)
    ensures Inv(cfg, s')
  {
    hide WorkerOk, WorkerStep, GensOk, WellFormed, TogetherUpTo, Split;
    OnlyInEpoch(cfg, s, s', w);
    KeepInside(cfg, s, s', w, 0);
  }

  /** After the step exactly one more operation has been executed. */
  lemma ExecutedGrows(cfg: Config, s: State, s': State, w: nat, k: nat)
    requires |cfg.workers| == |s.workers| && w < |s.workers| && Execute(cfg, s, s', w)
    requires s.workers[w].pos <= |Q(cfg, w)|
    ensures HasExecuted(cfg, s', k)
            <==> HasExecuted(cfg, s, k) || k == Q(cfg, w)[s.workers[w].pos]
  {
    var q, p := Q(cfg, w), s.workers[w].pos;
    assert q[..p + 1] == q[..p] + [q[p]];
    if v :| 0 <= v < |s.workers| && ExecutedBy(cfg, s, v, k) {
      assert ExecutedBy(cfg, s', v, k);
    }
    if k == q[p] {
      assert ExecutedBy(cfg, s', w, k);
    }
    if v :| 0 <= v < |s.workers| && ExecutedBy(cfg, s', v, k) {
      assert v != w || k != q[p] ==> ExecutedBy(cfg, s, v, k);
    }
  }

  /** An operation no thread has executed yet: queues are disjoint and go up. */
  lemma NextIsNew(cfg: Config, s: State, w: nat)
    requires WellFormed(cfg) && w < |cfg.workers| == |s.workers|
    requires s.workers[w].pos < |Q(cfg, w)|
    ensures !HasExecuted(cfg, s, Q(cfg, w)[s.workers[w].pos])
  {
    var k := Q(cfg, w)[s.workers[w].pos];
    QueueShape(cfg.ops, cfg.workers[w].tid);
    forall v | 0 <= v < |s.workers| ensures !ExecutedBy(cfg, s, v, k) {
      assert v < w ==> InOrder(cfg, v, w);
      assert w < v ==> InOrder(cfg, w, v);
      QueueShape(cfg.ops, cfg.workers[v].tid);
    }
  }

  /** Later operations publish later generations of a slot. */
  lemma PublishLater(cfg: Config, j: nat, k: nat)
    requires WellFormed(cfg) && j < k < |cfg.ops| && cfg.ops[j].slot == cfg.ops[k].slot
    requires cfg.ops[j].outGen > 0 && cfg.ops[k].outGen > 0
    ensures cfg.ops[j].outGen < cfg.ops[k].outGen
  {
    assert C.Linked(cfg.ops, j) && C.Linked(cfg.ops, k) && C.Ordered(cfg.ops, j, k);
  }

  /** A publishing operation raises its slot by exactly one. */
  lemma PublishesNext(cfg: Config, s: State, s': State, w: nat)
    requires WellFormed(cfg) && |cfg.workers| == |s.workers| && w < |s.workers|
    requires GensOk(cfg, s) && Execute(cfg, s, s', w)
    ensures var o := cfg.ops[Q(cfg, w)[s.workers[w].pos]];
      o.outGen > 0 ==> Gen(s, o.slot) == o.waitGen && o.outGen == o.waitGen + 1
  {
    var m := Q(cfg, w)[s.workers[w].pos];
    var o := cfg.ops[m];
    NextIsNew(cfg, s, w);
    assert C.Linked(cfg.ops, m);
    if o.outGen > 0 && o.outGen <= Gen(s, o.slot) {
      assert GenReached(cfg, s, o.slot, o.outGen);
      var k :| PublishedBy(cfg, s, o.slot, o.outGen, k);
      if k < m {
        PublishLater(cfg, k, m);
      } else if m < k {
        PublishLater(cfg, m, k);
      }
    }
  }

  lemma ExecuteGens(cfg: Config, s: State, s': State, w: nat)
    requires WellFormed(cfg) && |cfg.workers| == |s.workers| && w < |s.workers|
    requires GensOk(cfg, s) && Execute(cfg, s, s', w)
    requires s.workers[w].pos <= |Q(cfg, w)|
    ensures GensOk(cfg, s')
  {
    var m := Q(cfg, w)[s.workers[w].pos];
    var o := cfg.ops[m];
    PublishesNext(cfg, s, s', w);
    forall k | 0 <= k < |cfg.ops| && HasExecuted(cfg, s', k)
      ensures cfg.ops[k].outGen <= Gen(s', cfg.ops[k].slot) || cfg.ops[k].outGen == 0
    {
      ExecutedGrows(cfg, s, s', w, k);
    }
    forall slot: nat, gen: nat ensures GenReached(cfg, s', slot, gen) {
      if 1 <= gen <= Gen(s', slot) {
        if gen <= Gen(s, slot) {
          assert GenReached(cfg, s, slot, gen);
          var k :| PublishedBy(cfg, s, slot, gen, k);
          ExecutedGrows(cfg, s, s', w, k);
          assert PublishedBy(cfg, s', slot, gen, k);
        } else {
          ExecutedGrows(cfg, s, s', w, m);
          assert PublishedBy(cfg, s', slot, gen, m);
        }
      }
    }
  }

  lemma StepKeeps(cfg: Config, s: State, s': State)
    requires WellFormed(cfg) && Inv(cfg, s) && Step(cfg, s, s') && !LateLaunch(cfg, s, s')
    ensures Inv(cfg, s')
  {
    hide Inv, WellFormed, Launch, Skip, Announce, Leave, Join, EndJoin, WorkerStep;
    if ControlStep(cfg, s, s') {
      if Launch(cfg, s, s') {
        KeepLaunch(cfg, s, s');
      } else if Skip(cfg, s, s') {
        KeepSkip(cfg, s, s');
      } else if Announce(cfg, s, s') {
        KeepAnnounce(cfg, s, s');
      } else if Leave(s, s') {
        KeepLeave(cfg, s, s');
      } else if Join(s, s') {
        KeepJoin(cfg, s, s');
      } else {
        KeepEndJoin(cfg, s, s');
      }
    } else {
      var w: nat :| w < |s.workers| && WorkerStep(cfg, s, s', w);
      KeepWorker(cfg, s, s', w);
    }
  }

  lemma InitialInv(cfg: Config)
    ensures Inv(cfg, Initial(cfg))
  {
    var s := Initial(cfg);
    forall w | 0 <= w < |s.workers| ensures Starting(cfg, s, w) {}
    forall k ensures !HasExecuted(cfg, s, k) {}
  }

  lemma {:induction false} RunInv(cfg: Config, run: seq<State>, i: nat)
    requires WellFormed(cfg) && Together(cfg) && IsRun(cfg, run) && i < |run|
    ensures Inv(cfg, run[i])
  {
    hide Inv, Step, WellFormed, Together;
    if i == 0 {
      InitialInv(cfg);
    } else {
      RunInv(cfg, run, i - 1);
      assert StepAt(cfg, run, i - 1);
      NeverLate(cfg, run[i - 1], run[i]);
      StepKeeps(cfg, run[i - 1], run[i]);
    }
  }

  lemma NeverLate(cfg: Config, s: State, s': State)
    requires Together(cfg) && Inv(cfg, s)
    ensures !LateLaunch(cfg, s, s')
  {
    if Begun(cfg, s) {
      AllLaunched(cfg, s);
    }
  }

  /** The controller leaves an epoch only when every worker has executed exactly its
      operations before the epoch's end. */
  lemma EpochsAreExact(cfg: Config, run: seq<State>, i: nat, w: nat)
    requires WellFormed(cfg) && Together(cfg) && IsRun(cfg, run) && i + 1 < |run|
    requires Leave(run[i], run[i + 1]) && w < |cfg.workers| == |run[i].workers|
    ensures ExactlyBelow(cfg, run[i], w, EpochEnd(cfg, run[i].epoch))
  {
    RunInv(cfg, run, i);
    AllLaunched(cfg, run[i]);
    LeavesWhenAllArrived(cfg, run[i], w);
  }

  /** What an operation waits for is published by an operation of the same epoch or an
      earlier one. */
  lemma WaitsStayInEpoch(cfg: Config, k: nat, end: nat) returns (j: nat)
    requires WellFormed(cfg) && k < |cfg.ops| && cfg.ops[k].ts < end && cfg.ops[k].waitGen > 0
    ensures j < k && C.Publishes(cfg.ops[j], cfg.ops[k].slot, cfg.ops[k].waitGen)
    ensures cfg.ops[j].ts < end
  {
    assert C.Linked(cfg.ops, k);
    j :| 0 <= j < k && C.Hands(cfg.ops, j, k);
  }
}
