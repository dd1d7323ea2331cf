/** The hook's own memory behind the protocol: an array of shards, each pointer in the shard
    its hash selects. Every method is one part of a hooked call, under at most one shard's
    lock, and is proved to be a step of the protocol whose table is the union of the shards.
    Whenever no lock is held every shard's counters are the sums over its own cells. */
module HookTable {
  import opened Wrappers
  import opened SizeClasses
  import opened LiveHistogram
  import opened LiveTable
  import P = HookProtocol

  // ------------------------------------------------------------------ a table in shards

  /** live_shard_index */
  function Index(hash: nat -> nat, count: nat, p: nat): (i: nat)
    requires count > 0
    ensures i < count
  {
    hash(p) % count
  }

  predicate UnionAt(hash: nat -> nat, tables: seq<map<nat, nat>>, m: map<nat, nat>, p: nat)
    requires |tables| > 0
  {
    var c := tables[Index(hash, |tables|, p)];
    (p in m <==> p in c) && (p in c ==> m[p] == c[p])
  }

  /** m is the union of the tables, each pointer looked up where its hash says. */
  ghost predicate Union(hash: nat -> nat, tables: seq<map<nat, nat>>, m: map<nat, nat>) {
    |tables| > 0 && forall p :: UnionAt(hash, tables, m, p)
  }

  function With(m: map<nat, nat>, p: nat, x: nat): map<nat, nat> {
    m[p := x]
  }

  lemma UnionInsert(
    hash: nat -> nat, tables: seq<map<nat, nat>>, m: map<nat, nat>, p: nat, x: nat)
    requires Union(hash, tables, m)
    ensures var k := Index(hash, |tables|, p);
      Union(hash, tables[k := With(tables[k], p, x)], m[p := x])
  {
    var k := Index(hash, |tables|, p);
    var tables', m' := tables[k := With(tables[k], p, x)], m[p := x];
    forall q ensures UnionAt(hash, tables', m', q) {
      assert UnionAt(hash, tables, m, q);
    }
  }

  lemma UnionRemove(hash: nat -> nat, tables: seq<map<nat, nat>>, m: map<nat, nat>, p: nat)
    requires Union(hash, tables, m)
    ensures var k := Index(hash, |tables|, p);
      Union(hash, tables[k := tables[k] - {p}], m - {p})
  {
    var k := Index(hash, |tables|, p);
    var tables', m' := tables[k := tables[k] - {p}], m - {p};
    forall q ensures UnionAt(hash, tables', m', q) {
      assert UnionAt(hash, tables, m, q);
    }
  }

  /** Every pointer is in the table its hash selects. */
  ghost predicate Placed(hash: nat -> nat, tables: seq<map<nat, nat>>) {
    && |tables| > 0
    && forall i, p | 0 <= i < |tables| && p in tables[i] :: Index(hash, |tables|, p) == i
  }

  function Sizes(tables: seq<map<nat, nat>>): nat {
    if tables == [] then 0 else Sizes(tables[..|tables| - 1]) + |tables[|tables| - 1]|
  }

  lemma {:induction false} SizesRemove(tables: seq<map<nat, nat>>, k: nat, p: nat)
    requires k < |tables| && p in tables[k]
    ensures Sizes(tables[k := tables[k] - {p}]) == Sizes(tables) - 1
  {
    var n := |tables| - 1;
    if k < n {
      SizesRemove(tables[..n], k, p);
      assert tables[k := tables[k] - {p}][..n] == tables[..n][k := tables[k] - {p}];
    } else {
      OneFewer(tables[k], p);
      assert tables[k := tables[k] - {p}][..n] == tables[..n];
    }
  }

  lemma {:induction false} NoEntries(tables: seq<map<nat, nat>>)
    requires forall i | 0 <= i < |tables| :: tables[i] == map[]
    ensures Sizes(tables) == 0
  {
    if tables != [] {
      NoEntries(tables[..|tables| - 1]);
    }
  }

  /** The union has as many entries as the tables together. */
  lemma {:induction false} UnionSize(
    hash: nat -> nat, tables: seq<map<nat, nat>>, m: map<nat, nat>)
    requires Union(hash, tables, m) && Placed(hash, tables)
    ensures |m| == Sizes(tables)
    decreases |m|
  {
    if m == map[] {
      forall i | 0 <= i < |tables| ensures tables[i] == map[] {
        forall p ensures p !in tables[i] {
          assert UnionAt(hash, tables, m, p);
        }
      }
      NoEntries(tables);
    } else {
      var p :| p in m;
      var k := Index(hash, |tables|, p);
      assert UnionAt(hash, tables, m, p);
      UnionRemove(hash, tables, m, p);
      SizesRemove(tables, k, p);
      OneFewer(m, p);
      UnionSize(hash, tables[k := tables[k] - {p}], m - {p});
    }
  }

  lemma {:induction false} ConcatOnes(cells: seq<Cells>, tables: seq<map<nat, nat>>)
    requires |cells| == |tables|
    requires forall i | 0 <= i < |cells| :: SumOf(ONE, cells[i]) == |tables[i]|
    ensures SumOf(ONE, Concat(cells)) == Sizes(tables)
  {
    if cells != [] {
      var n := |cells| - 1;
      ConcatOnes(cells[..n], tables[..n]);
      SumConcat(ONE, Concat(cells[..n]), cells[n]);
    }
  }

  class Hook {
    const shards: seq<Shard>
    const hash: nat -> nat
    const sampled: nat -> bool
    ghost const arrays: set<array<Slot>>
    ghost const histograms: set<array<Bucket>>
    ghost var state: P.State

    ghost predicate Apart(i: nat, j: nat)
      requires i < j < |shards|
    {
      && shards[i] != shards[j] && shards[i].slots != shards[j].slots
      && shards[i].histogram != shards[j].histogram
    }

    /** The frame: the shards and their arrays, all different. */
    ghost predicate Framed() {
      && |shards| > 0
      && (forall i | 0 <= i < |shards| ::
            shards[i].slots in arrays && shards[i].histogram in histograms)
      && forall i, j | 0 <= i < j < |shards| :: Apart(i, j)
    }

    ghost predicate ShardOk(i: nat)
      requires i < |shards|
      reads shards[i], shards[i].slots, shards[i].histogram
    {
      && shards[i].Valid()
      && forall p | p in shards[i].contents :: Index(hash, |shards|, p) == i && sampled(p)
    }

    ghost predicate ShardsOk()
      reads shards, arrays, histograms
    {
      Framed() && forall i | 0 <= i < |shards| :: ShardOk(i)
    }

    ghost function Tables(): (ts: seq<map<nat, nat>>)
      reads shards
      ensures |ts| == |shards| && forall i | 0 <= i < |shards| :: ts[i] == shards[i].contents
    {
      seq(|shards|, i requires 0 <= i < |shards| reads shards => shards[i].contents)
    }

    /** What holds whenever all locks are free. */
    ghost predicate Valid()
      reads this, shards, arrays, histograms
    {
      ShardsOk() && Union(hash, Tables(), state.table) && P.Inv(state)
    }

    constructor (
      hash: nat -> nat, sampled: nat -> bool, count: nat, size: nat, ready: bool,
      ghost initial: P.State)
      requires count > 0 && size > 0 && P.Initial(initial)
      ensures Valid() && state == initial && fresh(shards) && fresh(arrays) && fresh(histograms)
      ensures |shards| == count
    {
      hide Shard.Valid;
      var built: seq<Shard> := [];
      ghost var slotArrays: set<array<Slot>> := {};
      ghost var bucketArrays: set<array<Bucket>> := {};
      while |built| < count
        invariant |built| <= count && fresh(built) && fresh(slotArrays) && fresh(bucketArrays)
        invariant forall i | 0 <= i < |built| ::
          built[i].slots in slotArrays && built[i].histogram in bucketArrays
        invariant forall i | 0 <= i < |built| ::
          built[i].Valid() && built[i].contents == map[]
        invariant forall i, j | 0 <= i < j < |built| ::
          && built[i] != built[j] && built[i].slots != built[j].slots
          && built[i].histogram != built[j].histogram
      {
        var shard := new Shard(hash, size, ready);
        built := built + [shard];
        slotArrays := slotArrays + {shard.slots};
        bucketArrays := bucketArrays + {shard.histogram};
      }
      this.shards := built;
      this.hash, this.sampled := hash, sampled;
      arrays, histograms := slotArrays, bucketArrays;
      state := initial;
      new;
      assert forall p :: UnionAt(this.hash, Tables(), state.table, p);
    }

    // ------------------------------------------------------------------ critical sections

    /** track_live_allocation of a sampled pointer, in its own shard. */
    method Track(p: nat, requested: nat, rounding: Rounding) returns (ok: bool)
      requires ShardsOk() && sampled(p)
      requires p !in shards[Index(hash, |shards|, p)].contents
      requires RoundedAllocationSize(requested) == Some(rounding)
      modifies shards, arrays, histograms
      ensures ShardsOk()
      ensures var k := Index(hash, |shards|, p);
        Tables() == if ok then old(Tables())[k := With(old(Tables())[k], p, requested)]
                    else old(Tables())
    {
      hide RoundedAllocationSize, Shard.Valid;
      var k := Index(hash, |shards|, p);
      assert ShardOk(k);
      assert shards[k].Valid();
      ok := shards[k].Track(p, requested, rounding);
      assert ShardOk(k);
      forall i | 0 <= i < |shards| && i != k
        ensures ShardOk(i) && shards[i].contents == old(shards[i].contents)
      {
        assert old(ShardOk(i)) && if i < k then Apart(i, k) else Apart(k, i);
        assert unchanged(shards[i]) && unchanged(shards[i].slots);
      }
    }

    /** The locked part of record_free_allocation for a sampled pointer. */
    method FreeIn(p: nat)
      requires ShardsOk() && P.Trackable(p)
      modifies shards, arrays, histograms
      ensures ShardsOk()
      ensures var k := Index(hash, |shards|, p);
        Tables() == old(Tables())[k := old(Tables())[k] - {p}]
    {
      hide Shard.Valid;
      var k := Index(hash, |shards|, p);
      assert ShardOk(k);
      shards[k].RecordFree(p);
      assert ShardOk(k);
      forall i | 0 <= i < |shards| && i != k
        ensures ShardOk(i) && shards[i].contents == old(shards[i].contents)
      {
        assert old(ShardOk(i)) && if i < k then Apart(i, k) else Apart(k, i);
        assert unchanged(shards[i]) && unchanged(shards[i].slots);
      }
    }

    /** The locked part of detach_live_allocation for a sampled pointer. */
    method DetachFrom(p: nat) returns (tracked: Option<nat>)
      requires ShardsOk() && P.Trackable(p)
      modifies shards, arrays, histograms
      ensures ShardsOk()
      ensures var k := Index(hash, |shards|, p);
        && Tables() == old(Tables())[k := old(Tables())[k] - {p}]
        && tracked == (if p in old(Tables())[k] then Some(old(Tables())[k][p]) else None)
        && (tracked.Some? ==> RoundedAllocationSize(tracked.value).Some?)
    {
      hide Shard.Valid, RoundedAllocationSize;
      var k := Index(hash, |shards|, p);
      assert ShardOk(k);
      tracked := shards[k].Detach(p);
      assert ShardOk(k);
      forall i | 0 <= i < |shards| && i != k
        ensures ShardOk(i) && shards[i].contents == old(shards[i].contents)
      {
        assert old(ShardOk(i)) && if i < k then Apart(i, k) else Apart(k, i);
        assert unchanged(shards[i]) && unchanged(shards[i].slots);
      }
    }

    // ---------------------------------------------------------------- parts of the calls

    /** Steps of the real allocator between the critical sections. */
    ghost method AllocatorStep(s': P.State, t: nat)
      requires Valid() && t < |state.controls|
      requires (exists p, requested :: P.Allocate(state, s', t, p, requested))
               || P.Release(state, s', t) || (exists q :: P.Reallocate(state, s', t, q))
      modifies this
      ensures Valid() && state == s'
    {
      assert P.StepOf(state, s', t);
      P.StepKeeps(state, s');
      assert s'.table == state.table;
      state := s';
    }

    /** record_successful_allocation: nothing happens while the hook is not recording, for an
        address that is not sampled, or for a size that cannot be rounded. */
    method RecordSuccessfulAllocation(t: nat, p: nat, requested: nat, recording: bool)
      returns (ok: bool)
      requires Valid() && t < |state.controls| && state.controls[t] == P.Fresh(p, requested)
      modifies this, shards, arrays, histograms
      ensures Valid() && P.Record(old(state), state, t, ok)
      ensures ok ==> recording && sampled(p) && RoundedAllocationSize(requested).Some?
    {
      hide ShardsOk, Union, P.Inv, RoundedAllocationSize;
      ok := false;
      NotInShard(t, p);
      var rounding := RoundedAllocationSize(requested);
      if recording && rounding.Some? && sampled(p) {
        ok := Track(p, requested, rounding.value);
        UnionInsert(hash, old(Tables()), state.table, p, requested);
      }
      ghost var s := state;
      state := P.At(s, t, P.Idle).(
        table := if ok then s.table[p := requested] else s.table,
        live := s.live[p := requested],
        inserted := if ok then s.inserted + {p} else s.inserted - {p});
      assert P.Record(s, state, t, ok);
      Follow(s, state, t);
    }

    lemma NotInShard(t: nat, p: nat)
      requires Valid() && t < |state.controls|
      requires P.Transit(state.controls[t]) == Some(p)
      ensures p !in Tables()[Index(hash, |shards|, p)]
    {
      assert P.TransitOk(state, t) && UnionAt(hash, Tables(), state.table, p);
    }

    /** An address that is not sampled has no entry. */
    lemma NoEntry(p: nat)
      requires Valid() && !sampled(p)
      ensures p !in state.table && state.table - {p} == state.table
    {
      assert ShardOk(Index(hash, |shards|, p)) && UnionAt(hash, Tables(), state.table, p);
    }

    lemma Held(p: nat)
      requires Valid() && p in state.live
      ensures P.Trackable(p)
      ensures UnionAt(hash, Tables(), state.table, p)
    {}

    /** record_free_allocation. A recorded free keeps everything in step; one that is not
        recorded does so if and only if the address has no entry. */
    method RecordFreeAllocation(t: nat, p: nat, recording: bool)
      requires Valid() && t < |state.controls| && state.controls[t].Idle? && p in state.live
      modifies this, shards, arrays, histograms
      ensures recording ==> Valid() && P.RecordFree(old(state), state, t, p)
      ensures !recording ==>
        P.SkipFree(old(state), state, t, p) && (Valid() <==> p !in old(state.table))
    {
      hide ShardsOk, Union, P.Inv;
      Held(p);
      ghost var s := state;
      if recording {
        if sampled(p) {
          FreeIn(p);
          UnionRemove(hash, old(Tables()), s.table, p);
        } else {
          NoEntry(p);
        }
        state := P.At(s, t, P.Releasing(p)).(live := s.live - {p}, table := s.table - {p});
        assert P.RecordFree(s, state, t, p);
        Follow(s, state, t);
      } else {
        state := P.At(s, t, P.Releasing(p)).(live := s.live - {p});
        P.SkipIsHarmless(s, state, t, p, 0);
      }
    }

    /** detach_live_allocation, with the same condition. */
    method DetachLiveAllocation(t: nat, p: nat, size: nat, recording: bool)
      returns (tracked: Option<nat>)
      requires Valid() && t < |state.controls| && state.controls[t].Idle? && p in state.live
      modifies this, shards, arrays, histograms
      ensures recording ==> Valid() && P.Detach(old(state), state, t, p, size)
      ensures !recording ==>
        P.SkipDetach(old(state), state, t, p, size) && (Valid() <==> p !in old(state.table))
      ensures state.controls[t] == P.Detached(p, size, tracked, old(state.live[p]))
    {
      hide ShardsOk, Union, P.Inv, RoundedAllocationSize;
      Held(p);
      ghost var s := state;
      tracked := None;
      if recording {
        if sampled(p) {
          tracked := DetachFrom(p);
          UnionRemove(hash, old(Tables()), s.table, p);
        } else {
          NoEntry(p);
        }
        state := P.At(s, t, P.Detached(p, size, tracked, s.live[p]))
                  .(live := s.live - {p}, table := s.table - {p});
        assert P.Detach(s, state, t, p, size);
        Follow(s, state, t);
      } else {
        state := P.At(s, t, P.Detached(p, size, None, s.live[p])).(live := s.live - {p});
        P.SkipIsHarmless(s, state, t, p, size);
      }
    }

    /** restore_detached_allocation after a realloc that failed. */
    method RestoreDetachedAllocation(t: nat, p: nat, tracked: Option<nat>) returns (ok: bool)
      requires Valid() && t < |state.controls| && state.controls[t].Restoring?
      requires state.controls[t].p == p && state.controls[t].tracked == tracked
      modifies this, shards, arrays, histograms
      ensures Valid() && P.Restore(old(state), state, t, ok)
      ensures ok ==> tracked.Some?
    {
      hide ShardsOk, Union, P.Inv, RoundedAllocationSize;
      ok := false;
      NotInShard(t, p);
      if tracked.Some? && sampled(p) {
        var rounding := RoundedAllocationSize(tracked.value);
        if rounding.Some? {
          ok := Track(p, tracked.value, rounding.value);
          UnionInsert(hash, old(Tables()), state.table, p, tracked.value);
        }
      }
      ghost var s := state;
      state := P.At(s, t, P.Idle).(
        table := if ok then s.table[p := tracked.value] else s.table,
        live := s.live[p := s.controls[t].asked],
        inserted := if ok then s.inserted + {p} else s.inserted - {p});
      assert P.Restore(s, state, t, ok);
      Follow(s, state, t);
    }

    /** load_live_statistics over the shards: before scaling, the snapshot counts exactly the
        entries of the table, each at the shard that holds it. */
    method Snapshot(rate: nat) returns (snapshot: Reading, ghost total: Reading)
      requires Valid() && rate > 0
      ensures Scaled(total, rate, snapshot) && total.allocations == |state.table|
      ensures exists cells :: CellsAre(cells) && Reads(Concat(cells), total)
    {
      hide Shard.Valid, Reads, Scaled, P.Inv, RoundedAllocationSize;
      var readings: seq<Reading> := [];
      ghost var cells: seq<Cells> := [];
      for i := 0 to |shards|
        invariant |readings| == |cells| == i
        invariant forall j | 0 <= j < i :: Reads(cells[j], readings[j])
        invariant forall j | 0 <= j < i ::
          cells[j] == CellsOf(shards[j].slots[..])
          && readings[j].allocations == |shards[j].contents|
      {
        assert ShardOk(i);
        var reading := shards[i].Read();
        readings := readings + [reading];
        cells := cells + [CellsOf(shards[i].slots[..])];
      }
      snapshot, total := LoadLiveStatistics(readings, rate, cells);
      assert CellsAre(cells);
      CountEntries(cells, readings, total);
    }

    ghost predicate CellsAre(cells: seq<Cells>)
      reads shards, arrays
      requires Framed()
    {
      |cells| == |shards| && forall i | 0 <= i < |cells| :: cells[i] == CellsOf(shards[i].slots[..])
    }

    lemma CountEntries(cells: seq<Cells>, readings: seq<Reading>, total: Reading)
      requires Valid() && |cells| == |readings| == |shards|
      requires forall i | 0 <= i < |cells| :: Reads(cells[i], readings[i])
      requires forall i | 0 <= i < |cells| :: readings[i].allocations == |shards[i].contents|
      requires Reads(Concat(cells), total)
      ensures total.allocations == |state.table|
    {
      forall i, p | 0 <= i < |shards| && p in Tables()[i] ensures Index(hash, |shards|, p) == i {
        assert ShardOk(i);
      }
      UnionSize(hash, Tables(), state.table);
      forall i | 0 <= i < |cells| ensures SumOf(ONE, cells[i]) == |Tables()[i]| {
        assert Reads(cells[i], readings[i]);
      }
      ConcatOnes(cells, Tables());
    }

    static lemma Follow(s: P.State, s': P.State, t: nat)
      requires P.Inv(s) && t < |s.controls| && P.StepOf(s, s', t)
      ensures P.Inv(s')
    {
      P.StepKeeps(s, s');
    }
  }
}
