/** One shard of the live-allocation table of malloc_hole_hook.c: a tombstone hash table with
    a bounded number of probes and the counters kept beside it, all changed under the
    shard's lock. Each method is one critical section. The table is proved to be a partial
    map and every counter the sum over that map. */
module LiveTable {
  import opened Wrappers
  import opened SizeClasses
  import opened LiveHistogram

  const EMPTY: nat := 0
  const TOMBSTONE: nat := 1
  const MAX_PROBES: nat := 128

  datatype Slot = Slot(pointer: nat, requested: nat)

  datatype Bucket = Bucket(count: nat, requested: nat, pageHole: nat)

  // ---------------------------------------------------------------------- probe order

  function Place(n: nat, home: nat, probe: nat): (i: nat)
    requires home < n && probe < n
    ensures i < n
  {
    if home + probe < n then home + probe else home + probe - n
  }

  function Distance(n: nat, home: nat, i: nat): (probe: nat)
    requires home < n && i < n
    ensures probe < n && Place(n, home, probe) == i
  {
    if i >= home then i - home else i + n - home
  }

  function Probes(n: nat): nat {
    if n < MAX_PROBES then n else MAX_PROBES
  }

  /** `(hash >> 8) & mask`: any function of the pointer below the number of slots. */
  function Home(hash: nat -> nat, n: nat, p: nat): (h: nat)
    requires n > 0
    ensures h < n
  {
    if hash(p) < n then hash(p) else n - 1
  }

  predicate Occupied(slot: Slot) {
    slot.pointer != EMPTY && slot.pointer != TOMBSTONE
  }

  /** No empty slot lies before probe number k of pointer p. */
  ghost predicate Unbroken(hash: nat -> nat, slots: seq<Slot>, p: nat, k: nat)
    requires |slots| > 0 && k <= |slots|
  {
    forall j | 0 <= j < k :: slots[Place(|slots|, Home(hash, |slots|, p), j)].pointer != EMPTY
  }

  /** An occupied slot is reached by its pointer's probes. */
  ghost predicate Reached(hash: nat -> nat, slots: seq<Slot>, i: nat)
    requires i < |slots|
  {
    var k := Distance(|slots|, Home(hash, |slots|, slots[i].pointer), i);
    k < Probes(|slots|) && Unbroken(hash, slots, slots[i].pointer, k)
  }

  predicate Maps(slots: seq<Slot>, m: map<nat, nat>, i: nat)
    requires i < |slots|
  {
    Occupied(slots[i]) ==> slots[i].pointer in m && m[slots[i].pointer] == slots[i].requested
  }

  predicate Differ(slots: seq<Slot>, i: nat, j: nat)
    requires i < j < |slots|
  {
    Occupied(slots[i]) ==> slots[i].pointer != slots[j].pointer
  }

  predicate Holds(slots: seq<Slot>, p: nat) {
    exists i | 0 <= i < |slots| :: slots[i].pointer == p
  }

  /** The occupied slots are exactly the pairs of m, each pointer once. */
  ghost predicate Represents(hash: nat -> nat, slots: seq<Slot>, m: map<nat, nat>) {
    && |slots| > 0
    && (forall i | 0 <= i < |slots| :: Maps(slots, m, i))
    && (forall i | 0 <= i < |slots| && Occupied(slots[i]) :: Reached(hash, slots, i))
    && (forall p | p in m :: p > TOMBSTONE && Holds(slots, p))
    && (forall i, j | 0 <= i < j < |slots| :: Differ(slots, i, j))
  }

  lemma InsertRepresents(
    hash: nat -> nat, slots: seq<Slot>, m: map<nat, nat>, p: nat, requested: nat, k: nat)
    requires Represents(hash, slots, m) && p > TOMBSTONE && p !in m
    requires k < Probes(|slots|) && Unbroken(hash, slots, p, k)
    requires !Occupied(slots[Place(|slots|, Home(hash, |slots|, p), k)])
    ensures var i := Place(|slots|, Home(hash, |slots|, p), k);
      Represents(hash, slots[i := Slot(p, requested)], m[p := requested])
  {
    var i := Place(|slots|, Home(hash, |slots|, p), k);
    var slots', m' := slots[i := Slot(p, requested)], m[p := requested];
    forall j | 0 <= j < |slots| ensures Maps(slots', m', j) {
      assert Maps(slots, m, j);
    }
    forall j | 0 <= j < |slots| && Occupied(slots'[j]) ensures Reached(hash, slots', j) {
      if j != i {
        assert Reached(hash, slots, j);
      }
    }
    forall q | q in m' ensures q > TOMBSTONE && Holds(slots', q) {
      if q == p {
        assert slots'[i].pointer == p;
      } else {
        assert Holds(slots, q);
        var j :| 0 <= j < |slots| && slots[j].pointer == q;
        assert slots'[j].pointer == q;
      }
    }
    forall j, l | 0 <= j < l < |slots| ensures Differ(slots', j, l) {
      assert Differ(slots, j, l) && Maps(slots, m, j) && Maps(slots, m, l);
    }
  }

  lemma RemoveRepresents(hash: nat -> nat, slots: seq<Slot>, m: map<nat, nat>, i: nat)
    requires Represents(hash, slots, m) && i < |slots| && Occupied(slots[i])
    ensures slots[i].pointer in m && m[slots[i].pointer] == slots[i].requested
    ensures Represents(hash, slots[i := slots[i].(pointer := TOMBSTONE)],
                       m - {slots[i].pointer})
  {
    var p := slots[i].pointer;
    var slots', m' := slots[i := slots[i].(pointer := TOMBSTONE)], m - {p};
    assert Maps(slots, m, i);
    forall j | 0 <= j < |slots| ensures Maps(slots', m', j) {
      assert Maps(slots, m, j);
      assert j < i ==> Differ(slots, j, i);
      assert i < j ==> Differ(slots, i, j);
    }
    forall j | 0 <= j < |slots| && Occupied(slots'[j]) ensures Reached(hash, slots', j) {
      assert Reached(hash, slots, j);
    }
    forall q | q in m' ensures q > TOMBSTONE && Holds(slots', q) {
      assert Holds(slots, q);
      var j :| 0 <= j < |slots| && slots[j].pointer == q;
      assert slots'[j].pointer == q;
    }
    forall j, l | 0 <= j < l < |slots| ensures Differ(slots', j, l) {
      assert Differ(slots, j, l);
    }
  }

  /** A search that meets an empty slot, or runs out of probes, has missed nothing. */
  lemma Absent(hash: nat -> nat, slots: seq<Slot>, m: map<nat, nat>, p: nat, k: nat)
    requires Represents(hash, slots, m) && k <= Probes(|slots|)
    requires forall j | 0 <= j < k ::
      slots[Place(|slots|, Home(hash, |slots|, p), j)].pointer != p
    requires k < Probes(|slots|) ==>
      slots[Place(|slots|, Home(hash, |slots|, p), k)].pointer == EMPTY
    ensures p !in m
  {
    if p in m {
      var d := FoundWithin(hash, slots, m, p);
    }
  }

  /** The probes of address 1 reach a tombstone before an empty slot. */
  ghost predicate MeetsTombstone(hash: nat -> nat, slots: seq<Slot>)
    requires |slots| > 0
  {
    exists k | 0 <= k < Probes(|slots|) ::
      && slots[Place(|slots|, Home(hash, |slots|, TOMBSTONE), k)].pointer == TOMBSTONE
      && Unbroken(hash, slots, TOMBSTONE, k)
  }

  lemma TombstoneAbsent(hash: nat -> nat, slots: seq<Slot>, m: map<nat, nat>)
    requires Represents(hash, slots, m)
    ensures TOMBSTONE !in m && m - {TOMBSTONE} == m
  {
    assert TOMBSTONE !in m;
  }

  /** A removal that ends without a match has nothing to remove. */
  lemma NotMet(hash: nat -> nat, slots: seq<Slot>, m: map<nat, nat>, p: nat, k: nat)
    requires Represents(hash, slots, m) && k <= Probes(|slots|)
    requires forall j | 0 <= j < k ::
      slots[Place(|slots|, Home(hash, |slots|, p), j)].pointer != p
    requires k < Probes(|slots|) ==>
      slots[Place(|slots|, Home(hash, |slots|, p), k)].pointer == EMPTY
    ensures p !in m && m - {p} == m
    ensures p == TOMBSTONE ==> !MeetsTombstone(hash, slots)
  {
    Absent(hash, slots, m, p, k);
    assert m - {p} == m;
  }

  /** A live pointer is met by its own probes before any empty slot. */
  lemma FoundWithin(hash: nat -> nat, slots: seq<Slot>, m: map<nat, nat>, p: nat)
    returns (d: nat)
    requires Represents(hash, slots, m) && p in m
    ensures d < Probes(|slots|) && Unbroken(hash, slots, p, d)
    ensures slots[Place(|slots|, Home(hash, |slots|, p), d)].pointer == p
  {
    assert Holds(slots, p);
    var i :| 0 <= i < |slots| && slots[i].pointer == p;
    assert Reached(hash, slots, i);
    d := Distance(|slots|, Home(hash, |slots|, p), i);
  }

  // ------------------------------------------------------------------------- counters

  function CellOf(slot: Slot): Option<nat> {
    if Occupied(slot) then Some(slot.requested) else None
  }

  function CellsOf(slots: seq<Slot>): (cells: Cells)
    ensures |cells| == |slots|
    ensures forall i | 0 <= i < |slots| :: cells[i] == CellOf(slots[i])
  {
    seq(|slots|, i requires 0 <= i < |slots| => CellOf(slots[i]))
  }

  lemma CellsUpdate(slots: seq<Slot>, i: nat, slot: Slot)
    requires i < |slots|
    ensures CellsOf(slots[i := slot]) == CellsOf(slots)[i := CellOf(slot)]
  {}

  ghost predicate BucketOk(cells: Cells, b: nat, bucket: Bucket) {
    && bucket.count == SumOf(Only(b, ONE), cells)
    && bucket.requested == SumOf(Only(b, SIZE), cells)
    && bucket.pageHole == if b < LARGE_START then 0 else SumOf(Only(b, HOLE), cells)
  }

  /** Every counter is the sum over the live cells. */
  ghost predicate Counts(
    cells: Cells, allocations: nat, requested: nat, hole: nat, histogram: seq<Bucket>)
  {
    && allocations == SumOf(ONE, cells) && requested == SumOf(SIZE, cells)
    && hole == SumOf(HOLE, cells)
    && |histogram| == BUCKETS
    && forall b | 0 <= b < BUCKETS :: BucketOk(cells, b, histogram[b])
  }

  /** A request's share joins or leaves a counter. */
  function Signed(adding: bool, x: int): int {
    if adding then x else -x
  }

  predicate BucketMoves(before: Bucket, after: Bucket, b: nat, request: nat, adding: bool) {
    && after.count == before.count + Signed(adding, 1)
    && after.requested == before.requested + Signed(adding, request)
    && after.pageHole
       == before.pageHole + if b < LARGE_START then 0 else Signed(adding, HookHole(request))
  }

  lemma {:induction false} SumNonnegative(f: nat -> int, cells: Cells)
    requires Tracked(cells)
    requires forall r: nat | RoundedAllocationSize(r).Some? :: f(r) >= 0
    ensures SumOf(f, cells) >= 0
  {
    if cells != [] {
      SumNonnegative(f, cells[..|cells| - 1]);
    }
  }

  lemma HookHoleNonnegative(request: nat)
    requires RoundedAllocationSize(request).Some?
    ensures HookHole(request) >= 0
  {
    if Value(request) <= SMALL_LIMIT {
      RoundsToLeastClass(request);
    }
  }

  /** No counter is below the share of a live request. */
  lemma NoUnderflow(cells: Cells, f: nat -> int, i: nat)
    requires Tracked(cells) && i < |cells| && cells[i].Some?
    requires forall r: nat | RoundedAllocationSize(r).Some? :: f(r) >= 0
    ensures f(cells[i].value) <= SumOf(f, cells)
  {
    SumUpdate(f, cells, i, None);
    SumNonnegative(f, cells[i := None]);
  }

  /** Cell i changes between empty and one request. */
  predicate CellMoves(cells: Cells, i: nat, cell: Option<nat>, request: nat, adding: bool)
    requires i < |cells|
  {
    if adding then cells[i] == None && cell == Some(request)
    else cells[i] == Some(request) && cell == None
  }

  lemma SumMoves(
    f: nat -> int, cells: Cells, i: nat, cell: Option<nat>, request: nat, adding: bool)
    requires i < |cells| && CellMoves(cells, i, cell, request, adding)
    ensures SumOf(f, cells[i := cell]) == SumOf(f, cells) + Signed(adding, f(request))
  {
    SumUpdate(f, cells, i, cell);
  }

  lemma BucketUpdate(
    cells: Cells, i: nat, cell: Option<nat>, adding: bool, request: nat, b: nat,
    before: Bucket, after: Bucket)
    requires i < |cells| && CellMoves(cells, i, cell, request, adding) && b < BUCKETS
    requires BucketOk(cells, b, before)
    requires if b == BucketOf(request) then BucketMoves(before, after, b, request, adding)
             else after == before
    ensures BucketOk(cells[i := cell], b, after)
  {
    hide BucketOf, SumOf, HookHole;
    SumMoves(Only(b, ONE), cells, i, cell, request, adding);
    SumMoves(Only(b, SIZE), cells, i, cell, request, adding);
    SumMoves(Only(b, HOLE), cells, i, cell, request, adding);
  }

  lemma CountsUpdate(
    cells: Cells, i: nat, cell: Option<nat>, adding: bool, request: nat,
    allocations: nat, requested: nat, hole: nat, histogram: seq<Bucket>,
    allocations': nat, requested': nat, hole': nat, histogram': seq<Bucket>)
    requires i < |cells| && CellMoves(cells, i, cell, request, adding)
    requires Counts(cells, allocations, requested, hole, histogram)
    requires allocations' == allocations + Signed(adding, 1)
    requires requested' == requested + Signed(adding, request)
    requires hole' == hole + Signed(adding, HookHole(request)) && |histogram'| == BUCKETS
    requires forall b | 0 <= b < BUCKETS ::
      if b == BucketOf(request)
      then BucketMoves(histogram[b], histogram'[b], b, request, adding)
      else histogram'[b] == histogram[b]
    ensures Counts(cells[i := cell], allocations', requested', hole', histogram')
  {
    hide BucketOf, SumOf, HookHole, BucketOk, BucketMoves;
    SumMoves(ONE, cells, i, cell, request, adding);
    SumMoves(SIZE, cells, i, cell, request, adding);
    SumMoves(HOLE, cells, i, cell, request, adding);
    forall b | 0 <= b < BUCKETS ensures BucketOk(cells[i := cell], b, histogram'[b]) {
      assert BucketOk(cells, b, histogram[b]);
      BucketUpdate(cells, i, cell, adding, request, b, histogram[b], histogram'[b]);
    }
  }

  /** The histogram after one request's share moved. */
  ghost predicate HistogramMoves(
    before: seq<Bucket>, after: seq<Bucket>, request: nat, adding: bool)
  {
    && |before| == |after| == BUCKETS
    && forall b | 0 <= b < BUCKETS ::
         if b == BucketOf(request) then BucketMoves(before[b], after[b], b, request, adding)
         else after[b] == before[b]
  }

  lemma IndexIsBucket(request: nat, index: nat)
    requires LowerBound(Value(request), index)
    ensures index == BucketOf(request)
  {
    BucketBracket(request);
    LowerBoundUnique(Value(request), index, BucketOf(request));
  }

  /** Insertion may fail; it never touches another pointer. */
  predicate Inserted(
    before: map<nat, nat>, after: map<nat, nat>, p: nat, requested: nat, ok: bool)
  {
    after == if ok then before[p := requested] else before
  }

  /** Only roundable sizes are ever written; a tombstone keeps the size it had. */
  predicate Roundable(slots: seq<Slot>) {
    forall i | 0 <= i < |slots| && slots[i].pointer != EMPTY ::
      RoundedAllocationSize(slots[i].requested).Some?
  }

  lemma RoundableTracked(slots: seq<Slot>)
    requires Roundable(slots)
    ensures Tracked(CellsOf(slots))
  {}

  /** Subtraction of unsigned 64-bit counters. */
  function Sub64(a: nat, b: nat): (r: nat)
    ensures b <= a ==> r == a - b
    ensures a <= SIZE_MAX && 0 < b <= SIZE_MAX ==> r != a
  {
    if b <= a then a - b else (a - b) % (SIZE_MAX + 1)
  }

  function LessOne(bucket: Bucket, b: nat, request: nat, hole: nat): Bucket {
    Bucket(Sub64(bucket.count, 1), Sub64(bucket.requested, request),
           if b >= LARGE_START then Sub64(bucket.pageHole, hole) else bucket.pageHole)
  }

  /** Where the shares are present nothing wraps. */
  lemma NothingWraps(before: seq<Bucket>, request: nat, hole: nat)
    requires |before| == BUCKETS && hole == HookHole(request)
    requires var bucket := before[BucketOf(request)];
      && 1 <= bucket.count && request <= bucket.requested
      && (LARGE_START <= BucketOf(request) ==> hole <= bucket.pageHole)
    ensures var b := BucketOf(request);
      HistogramMoves(before, before[b := LessOne(before[b], b, request, hole)], request, false)
  {
    hide BucketOf, HookHole;
  }

  /** A live request's share is in every counter it would be taken from. */
  lemma SharesPresent(cells: Cells, i: nat, allocations: nat, requested: nat, hole: nat,
                      histogram: seq<Bucket>)
    requires Tracked(cells) && i < |cells| && cells[i].Some?
    requires Counts(cells, allocations, requested, hole, histogram)
    ensures var request := cells[i].value;
      && 1 <= allocations && request <= requested && 0 <= HookHole(request) <= hole
      && var bucket := histogram[BucketOf(request)];
         && 1 <= bucket.count && request <= bucket.requested
         && (LARGE_START <= BucketOf(request) ==> HookHole(request) <= bucket.pageHole)
  {
    hide BucketOf, HookHole, SumOf, RoundedAllocationSize;
    var request := cells[i].value;
    var b := BucketOf(request);
    forall r: nat | RoundedAllocationSize(r).Some? ensures HookHole(r) >= 0 {
      HookHoleNonnegative(r);
    }
    NoUnderflow(cells, ONE, i);
    NoUnderflow(cells, SIZE, i);
    NoUnderflow(cells, HOLE, i);
    NoUnderflow(cells, Only(b, ONE), i);
    NoUnderflow(cells, Only(b, SIZE), i);
    NoUnderflow(cells, Only(b, HOLE), i);
    assert BucketOk(cells, b, histogram[b]);
  }

  class Shard {
    const hash: nat -> nat
    const ready: bool
    const slots: array<Slot>
    const histogram: array<Bucket>
    var allocations: nat
    var requestedBytes: nat
    var holeBytes: nat
    var freeEvents: nat
    var untrackedFrees: nat
    var trackingFailures: nat
    ghost var contents: map<nat, nat>

    ghost predicate TableOk()
      reads this`contents, slots
    {
      && Represents(hash, slots[..], contents) && Roundable(slots[..])
      && (!ready ==> contents == map[])
    }

    /** What holds whenever the shard's lock is free. */
    ghost predicate Valid()
      reads this, slots, histogram
    {
      && TableOk()
      && Counts(CellsOf(slots[..]), allocations, requestedBytes, holeBytes, histogram[..])
      && allocations == |contents|
    }

    constructor (hash: nat -> nat, size: nat, ready: bool)
      requires size > 0
      ensures Valid() && contents == map[] && fresh(slots) && fresh(histogram)
      ensures slots.Length == size && this.ready == ready && this.hash == hash
    {
      this.hash := hash;
      this.ready := ready;
      slots := new Slot[size](_ => Slot(EMPTY, 0));
      histogram := new Bucket[BUCKETS](_ => Bucket(0, 0, 0));
      allocations, requestedBytes, holeBytes := 0, 0, 0;
      freeEvents, untrackedFrees, trackingFailures := 0, 0, 0;
      contents := map[];
      new;
      EmptyCells(slots[..]);
    }

    /** live_table_insert_locked */
    method Insert(p: nat, requested: nat) returns (ok: bool, ghost at: nat)
      requires TableOk() && p !in contents && RoundedAllocationSize(requested).Some?
      modifies this`contents, slots
      ensures TableOk() && Inserted(old(contents), contents, p, requested, ok)
      ensures !ok ==> slots[..] == old(slots[..])
      ensures ok ==>
        && at < slots.Length && !Occupied(old(slots[at]))
        && slots[..] == old(slots[..])[at := Slot(p, requested)]
      ensures !ok <==>
        || !ready || p <= TOMBSTONE
        || forall k | 0 <= k < Probes(slots.Length) ::
             Occupied(old(slots[Place(slots.Length, Home(hash, slots.Length, p), k)]))
    {
      if !ready || p == 0 {
        return false, 0;
      }
      if p <= TOMBSTONE {
        return false, 0;
      }
      var n := slots.Length;
      var index := Home(hash, n, p);
      for probe := 0 to Probes(n)
        invariant slots[..] == old(slots[..]) && contents == old(contents)
        invariant forall k | 0 <= k < probe :: Occupied(slots[Place(n, index, k)])
      {
        var i := Place(n, index, probe);
        if !Occupied(slots[i]) {
          ghost var was := slots[..];
          InsertRepresents(hash, was, contents, p, requested, probe);
          slots[i] := Slot(p, requested);
          contents := contents[p := requested];
          assert slots[..] == was[i := Slot(p, requested)];
          return true, i;
        }
      }
      return false, 0;
    }

    /** Turns a slot that is not empty into a tombstone. */
    method Bury(i: nat) returns (size: nat)
      requires TableOk() && i < slots.Length && slots[i].pointer != EMPTY
      modifies this`contents, slots
      ensures TableOk() && size == old(slots[i].requested)
      ensures contents == old(contents) - {old(slots[i].pointer)}
      ensures slots[..] == old(slots[..])[i := Slot(TOMBSTONE, size)]
      ensures if old(slots[i].pointer) == TOMBSTONE then
                slots[..] == old(slots[..]) && contents == old(contents)
              else
                && old(slots[i].pointer) in old(contents)
                && size == old(contents)[old(slots[i].pointer)]
    {
      hide Represents, RoundedAllocationSize;
      ghost var was := slots[..];
      size := slots[i].requested;
      if slots[i].pointer == TOMBSTONE {
        TombstoneAbsent(hash, was, contents);
        assert was[i := Slot(TOMBSTONE, size)] == was;
      } else {
        RemoveRepresents(hash, was, contents, i);
      }
      contents := contents - {slots[i].pointer};
      slots[i] := slots[i].(pointer := TOMBSTONE);
      assert slots[..] == was[i := Slot(TOMBSTONE, size)];
    }

    /** live_table_remove_locked. Address 1 is no object's, but it matches a tombstone: then
        the size of a removed object is reported and nothing changes. */
    method Remove(p: nat) returns (removed: Option<nat>, ghost at: nat)
      requires TableOk()
      modifies this`contents, slots
      ensures TableOk() && contents == old(contents) - {p}
      ensures p != TOMBSTONE ==>
        removed == if p in old(contents) then Some(old(contents)[p]) else None
      ensures p == TOMBSTONE ==>
        && slots[..] == old(slots[..]) && contents == old(contents)
        && (removed.Some? <==> ready && MeetsTombstone(hash, old(slots[..])))
      ensures removed.None? ==> slots[..] == old(slots[..])
      ensures removed.Some? ==>
        && at < slots.Length && old(slots[at]) == Slot(p, removed.value) && p != EMPTY
        && slots[..] == old(slots[..])[at := Slot(TOMBSTONE, removed.value)]
    {
      if !ready || p == 0 {
        assert contents == contents - {p};
        return None, 0;
      }
      var n := slots.Length;
      var index := Home(hash, n, p);
      for probe := 0 to Probes(n)
        invariant slots[..] == old(slots[..]) && contents == old(contents)
        invariant forall k | 0 <= k < probe :: slots[Place(n, index, k)].pointer != p
        invariant Unbroken(hash, slots[..], p, probe)
      {
        var i := Place(n, index, probe);
        if slots[i].pointer == EMPTY {
          NotMet(hash, slots[..], contents, p, probe);
          return None, 0;
        }
        if slots[i].pointer == p {
          assert p == TOMBSTONE ==> MeetsTombstone(hash, slots[..]);
          var size := Bury(i);
          removed, at := Some(size), i;
          return;
        }
      }
      NotMet(hash, slots[..], contents, p, Probes(n));
      return None, 0;
    }

    /** add_live_counters_locked */
    method AddCounters(requested: nat, rounding: Rounding)
      requires RoundedAllocationSize(requested) == Some(rounding)
      requires histogram.Length == BUCKETS
      modifies this`allocations, this`requestedBytes, this`holeBytes, histogram
      ensures allocations == old(allocations) + 1
      ensures requestedBytes == old(requestedBytes) + requested
      ensures holeBytes == old(holeBytes) + HookHole(requested)
      ensures HistogramMoves(old(histogram[..]), histogram[..], requested, true)
    {
      HookHoleNonnegative(requested);
      hide RoundedAllocationSize, BucketOf;
      var hole: nat := rounding.size - requested;
      var b := LiveHistogramBucketIndex(requested, rounding.bucket);
      IndexIsBucket(requested, b);
      allocations := allocations + 1;
      requestedBytes := requestedBytes + requested;
      holeBytes := holeBytes + hole;
      var bucket := histogram[b];
      histogram[b] := Bucket(bucket.count + 1, bucket.requested + requested,
                             bucket.pageHole + if b >= LARGE_START then hole else 0);
    }

    /** subtract_live_counters_locked, with the wrap-around of the counters. */
    method SubtractCounters(requested: nat, rounding: Rounding)
      requires RoundedAllocationSize(requested) == Some(rounding)
      requires histogram.Length == BUCKETS
      modifies this`allocations, this`requestedBytes, this`holeBytes, histogram
      ensures HookHole(requested) >= 0
      ensures allocations == Sub64(old(allocations), 1)
      ensures requestedBytes == Sub64(old(requestedBytes), requested)
      ensures holeBytes == Sub64(old(holeBytes), HookHole(requested))
      ensures var b := BucketOf(requested);
        histogram[..] == old(histogram[..])[
          b := LessOne(old(histogram[b]), b, requested, HookHole(requested))]
    {
      HookHoleNonnegative(requested);
      hide RoundedAllocationSize, BucketOf;
      var hole: nat := rounding.size - requested;
      var b := LiveHistogramBucketIndex(requested, rounding.bucket);
      IndexIsBucket(requested, b);
      allocations := Sub64(allocations, 1);
      requestedBytes := Sub64(requestedBytes, requested);
      holeBytes := Sub64(holeBytes, hole);
      histogram[b] := LessOne(histogram[b], b, requested, hole);
    }

    /** track_live_allocation for a sampled pointer. */
    method Track(p: nat, requested: nat, rounding: Rounding) returns (ok: bool)
      requires Valid() && p !in contents
      requires RoundedAllocationSize(requested) == Some(rounding)
      modifies this`contents, this`allocations, this`requestedBytes, this`holeBytes
      modifies this`trackingFailures, slots, histogram
      ensures Valid() && Inserted(old(contents), contents, p, requested, ok)
      ensures trackingFailures == old(trackingFailures) + if ok then 0 else 1
    {
      hide Represents, Roundable, RoundedAllocationSize, Occupied, Counts, HistogramMoves;
      ghost var was := slots[..];
      HasBuckets(CellsOf(was), allocations, requestedBytes, holeBytes, histogram[..]);
      ghost var at;
      ok, at := Insert(p, requested);
      if ok {
        AddCounters(requested, rounding);
        TrackCounts(was, at, p, requested, old(allocations), old(requestedBytes),
                    old(holeBytes), old(histogram[..]), allocations, requestedBytes,
                    holeBytes, histogram[..]);
      } else {
        trackingFailures := trackingFailures + 1;
      }
    }

    /** Takes p out of the table and its share out of the counters, if it is there: the
        common part of record_free_allocation and detach_live_allocation. The rounding
        cannot fail, because only roundable requests are ever inserted. Address 1 matches a
        tombstone; then the share of a removed object is taken a second time, and the
        counters are no longer the sums over the table. */
    method TakeOut(p: nat) returns (removed: Option<nat>)
      requires Valid()
      modifies this`contents, this`allocations, this`requestedBytes, this`holeBytes
      modifies slots, histogram
      ensures TableOk() && contents == old(contents) - {p}
      ensures p != TOMBSTONE ==>
        removed == if p in old(contents) then Some(old(contents)[p]) else None
      ensures p == TOMBSTONE ==> (removed.Some? <==> old(MistakesTombstone()))
      ensures Valid() <==> !(p == TOMBSTONE && removed.Some?)
      ensures removed.Some? ==> RoundedAllocationSize(removed.value).Some?
      ensures removed.Some? ==>
        && allocations == Sub64(old(allocations), 1)
        && requestedBytes == Sub64(old(requestedBytes), removed.value)
    {
      hide Represents, Roundable, RoundedAllocationSize, Occupied, Counts, MeetsTombstone;
      ghost var was := slots[..];
      HasBuckets(CellsOf(was), allocations, requestedBytes, holeBytes, histogram[..]);
      ghost var at;
      removed, at := Remove(p);
      if removed.Some? {
        SizeIsRoundable(was, at);
        ReleaseShare(was, at, p, removed.value);
        if p == TOMBSTONE {
          assert slots[..] == was;
        } else {
          OneFewer(old(contents), p);
        }
      }
    }

    /** The share of a slot that has become a tombstone leaves the counters. */
    method ReleaseShare(ghost was: seq<Slot>, ghost at: nat, ghost p: nat, size: nat)
      requires Roundable(was) && at < |was| && was[at] == Slot(p, size) && p != EMPTY
      requires RoundedAllocationSize(size).Some? && histogram.Length == BUCKETS
      requires Counts(CellsOf(was), allocations, requestedBytes, holeBytes, histogram[..])
      modifies this`allocations, this`requestedBytes, this`holeBytes, histogram
      ensures allocations == Sub64(old(allocations), 1)
      ensures requestedBytes == Sub64(old(requestedBytes), size)
      ensures p != TOMBSTONE ==>
        && allocations == old(allocations) - 1
        && Counts(CellsOf(was[at := Slot(TOMBSTONE, size)]), allocations, requestedBytes,
                  holeBytes, histogram[..])
      ensures p == TOMBSTONE ==>
        !Counts(CellsOf(was), allocations, requestedBytes, holeBytes, histogram[..])
    {
      hide Roundable, RoundedAllocationSize, LessOne, HookHole, BucketOf, SumOf, CellsOf;
      ghost var before := histogram[..];
      ghost var cells := CellsOf(was);
      HasBuckets(cells, allocations, requestedBytes, holeBytes, before);
      hide Counts;
      var rounding := RoundedAllocationSize(size);
      SubtractCounters(size, rounding.value);
      if p == TOMBSTONE {
        Miscounts(cells, old(allocations), allocations, requestedBytes, holeBytes,
                  histogram[..]);
      } else {
        AfterRelease(was, at, p, size, old(allocations), old(requestedBytes), old(holeBytes),
                     before, allocations, requestedBytes, holeBytes, histogram[..]);
      }
    }

    /** Looking for address 1 in this table ends at a tombstone. */
    ghost predicate MistakesTombstone()
      requires TableOk()
      reads this`contents, slots
    {
      ready && MeetsTombstone(hash, slots[..])
    }

    /** record_free_allocation; exact for every address but 1. */
    method RecordFree(p: nat)
      requires Valid()
      modifies this, slots, histogram
      ensures TableOk() && contents == old(contents) - {p}
      ensures Valid() <==> !(p == TOMBSTONE && old(MistakesTombstone()))
      ensures freeEvents == old(freeEvents) + 1
      ensures untrackedFrees == old(untrackedFrees) +
        if (if p == TOMBSTONE then old(MistakesTombstone()) else p in old(contents)) then 0 else 1
      ensures trackingFailures == old(trackingFailures)
    {
      hide TableOk, Counts, MeetsTombstone;
      freeEvents := freeEvents + 1;
      var removed := TakeOut(p);
      if removed.None? {
        untrackedFrees := untrackedFrees + 1;
      }
    }

    /** detach_live_allocation; exact for every address but 1. */
    method Detach(p: nat) returns (tracked: Option<nat>)
      requires Valid()
      modifies this, slots, histogram
      ensures TableOk() && contents == old(contents) - {p}
      ensures Valid() <==> !(p == TOMBSTONE && old(MistakesTombstone()))
      ensures p != TOMBSTONE ==>
        tracked == if p in old(contents) then Some(old(contents)[p]) else None
      ensures p == TOMBSTONE ==> (tracked.Some? <==> old(MistakesTombstone()))
      ensures tracked.Some? ==> RoundedAllocationSize(tracked.value).Some?
      ensures freeEvents == old(freeEvents) && untrackedFrees == old(untrackedFrees)
      ensures trackingFailures == old(trackingFailures)
    {
      hide TableOk, Counts, MeetsTombstone;
      tracked := TakeOut(p);
    }

    /** record_release_event */
    method RecordRelease(tracked: Option<nat>)
      requires Valid()
      modifies this`freeEvents, this`untrackedFrees
      ensures Valid() && freeEvents == old(freeEvents) + 1
      ensures untrackedFrees == old(untrackedFrees) + if tracked.Some? then 0 else 1
    {
      hide TableOk, Counts;
      freeEvents := freeEvents + 1;
      if tracked.None? {
        untrackedFrees := untrackedFrees + 1;
      }
    }

    /** restore_detached_allocation */
    method Restore(p: nat, tracked: Option<nat>) returns (ok: bool)
      requires Valid() && p !in contents
      requires tracked.Some? ==> RoundedAllocationSize(tracked.value).Some?
      modifies this, slots, histogram
      ensures Valid()
      ensures tracked.Some? ==> Inserted(old(contents), contents, p, tracked.value, ok)
      ensures tracked.None? ==> !ok && contents == old(contents)
    {
      hide TableOk, Counts;
      if tracked.None? {
        return false;
      }
      ok := Track(p, tracked.value, RoundedAllocationSize(tracked.value).value);
    }

    /** The part of load_live_statistics that holds this shard's lock. */
    method Read() returns (r: Reading)
      requires Valid()
      ensures Reads(CellsOf(slots[..]), r) && r.allocations == |contents|
      ensures r.freeEvents == freeEvents && r.untrackedFrees == untrackedFrees
      ensures r.trackingFailures == trackingFailures
    {
      r := Reading(freeEvents, untrackedFrees, trackingFailures, allocations, requestedBytes,
                   holeBytes, histogram[..]);
    }
  }

  lemma HasBuckets(
    cells: Cells, allocations: nat, requested: nat, hole: nat, histogram: seq<Bucket>)
    requires Counts(cells, allocations, requested, hole, histogram)
    ensures |histogram| == BUCKETS && allocations == SumOf(ONE, cells)
  {}

  lemma TrackCounts(
    slots: seq<Slot>, at: nat, p: nat, request: nat,
    allocations: nat, requested: nat, hole: nat, histogram: seq<Bucket>,
    allocations': nat, requested': nat, hole': nat, histogram': seq<Bucket>)
    requires at < |slots| && !Occupied(slots[at]) && p > TOMBSTONE
    requires Counts(CellsOf(slots), allocations, requested, hole, histogram)
    requires allocations' == allocations + 1 && requested' == requested + request
    requires hole' == hole + HookHole(request)
    requires HistogramMoves(histogram, histogram', request, true)
    ensures Counts(
      CellsOf(slots[at := Slot(p, request)]), allocations', requested', hole', histogram')
  {
    CellsUpdate(slots, at, Slot(p, request));
    CountsUpdate(CellsOf(slots), at, Some(request), true, request,
                 allocations, requested, hole, histogram,
                 allocations', requested', hole', histogram');
  }

  lemma SizeIsRoundable(slots: seq<Slot>, at: nat)
    requires Roundable(slots) && at < |slots| && slots[at].pointer != EMPTY
    ensures RoundedAllocationSize(slots[at].requested).Some?
  {}

  lemma OneFewer(contents: map<nat, nat>, p: nat)
    requires p in contents
    ensures |contents - {p}| == |contents| - 1
  {
    assert (contents - {p}).Keys == contents.Keys - {p};
  }

  /** Taking one off the number of cells leaves a number that is not theirs. */
  lemma Miscounts(
    cells: Cells, was: nat, allocations: nat, requested: nat, hole: nat, histogram: seq<Bucket>)
    requires was == SumOf(ONE, cells) && allocations == Sub64(was, 1)
    ensures !Counts(cells, allocations, requested, hole, histogram)
  {}

  lemma AfterRelease(
    slots: seq<Slot>, at: nat, p: nat, request: nat,
    allocations: nat, requested: nat, hole: nat, histogram: seq<Bucket>,
    allocations': nat, requested': nat, hole': nat, histogram': seq<Bucket>)
    requires at < |slots| && slots[at] == Slot(p, request) && p > TOMBSTONE && Roundable(slots)
    requires Counts(CellsOf(slots), allocations, requested, hole, histogram)
    requires HookHole(request) >= 0 && allocations' == Sub64(allocations, 1)
    requires requested' == Sub64(requested, request)
    requires hole' == Sub64(hole, HookHole(request))
    requires |histogram| == BUCKETS
    requires var b := BucketOf(request);
      histogram' == histogram[b := LessOne(histogram[b], b, request, HookHole(request))]
    ensures allocations' == allocations - 1
    ensures Counts(
      CellsOf(slots[at := Slot(TOMBSTONE, request)]), allocations', requested', hole',
      histogram')
  {
    hide BucketOf, HookHole, HistogramMoves, LessOne;
    var cells := CellsOf(slots);
    RoundableTracked(slots);
    assert cells[at] == Some(request);
    SharesPresent(cells, at, allocations, requested, hole, histogram);
    NothingWraps(histogram, request, HookHole(request));
    CellsUpdate(slots, at, Slot(TOMBSTONE, request));
    MovesFit(histogram, histogram', request, false);
    CountsUpdate(cells, at, None, false, request, allocations, requested, hole, histogram,
                 allocations', requested', hole', histogram');
  }

  lemma MovesFit(before: seq<Bucket>, after: seq<Bucket>, request: nat, adding: bool)
    requires HistogramMoves(before, after, request, adding)
    ensures |before| == |after| == BUCKETS
    ensures forall b | 0 <= b < BUCKETS ::
      if b == BucketOf(request) then BucketMoves(before[b], after[b], b, request, adding)
      else after[b] == before[b]
  {}

  lemma EmptyCells(slots: seq<Slot>)
    requires |slots| > 0 && forall i | 0 <= i < |slots| :: slots[i] == Slot(EMPTY, 0)
    ensures forall f :: SumOf(f, CellsOf(slots)) == 0
  {
    forall f ensures SumOf(f, CellsOf(slots)) == 0 {
      SumEmpty(f, CellsOf(slots));
    }
  }

  lemma {:induction false} SumEmpty(f: nat -> int, cells: Cells)
    requires forall i | 0 <= i < |cells| :: cells[i] == None
    ensures SumOf(f, cells) == 0
  {
    if cells != [] {
      SumEmpty(f, cells[..|cells| - 1]);
    }
  }

  // ------------------------------------------------------------------------- snapshots

  function Concat(tables: seq<Cells>): Cells {
    if tables == [] then [] else Concat(tables[..|tables| - 1]) + tables[|tables| - 1]
  }

  lemma {:induction false} SumConcat(f: nat -> int, a: Cells, b: Cells)
    ensures SumOf(f, a + b) == SumOf(f, a) + SumOf(f, b)
  {
    if b == [] {
      assert a + b == a;
    } else {
      var n := |b| - 1;
      SumConcat(f, a, b[..n]);
      assert (a + b)[..|a| + n] == a + b[..n];
    }
  }

  ghost predicate HistogramOk(cells: Cells, histogram: seq<Bucket>) {
    |histogram| == BUCKETS && forall b | 0 <= b < BUCKETS :: BucketOk(cells, b, histogram[b])
  }

  predicate AddsUp(before: Bucket, share: Bucket, after: Bucket) {
    && after.count == before.count + share.count
    && after.requested == before.requested + share.requested
    && after.pageHole == before.pageHole + share.pageHole
  }

  lemma BucketsAdd(a: Cells, b: Cells, k: nat, x: Bucket, y: Bucket, z: Bucket)
    requires BucketOk(a, k, x) && BucketOk(b, k, y) && AddsUp(x, y, z)
    ensures BucketOk(a + b, k, z)
  {
    SumConcat(Only(k, ONE), a, b);
    SumConcat(Only(k, SIZE), a, b);
    SumConcat(Only(k, HOLE), a, b);
  }

  method AddHistogram(total: seq<Bucket>, shard: seq<Bucket>, ghost a: Cells, ghost b: Cells)
    returns (sum: seq<Bucket>)
    requires HistogramOk(a, total) && HistogramOk(b, shard)
    ensures HistogramOk(a + b, sum)
  {
    hide BucketOk;
    sum := [];
    for i := 0 to BUCKETS
      invariant |sum| == i
      invariant forall k | 0 <= k < i :: BucketOk(a + b, k, sum[k])
    {
      assert BucketOk(a, i, total[i]) && BucketOk(b, i, shard[i]);
      var bucket := Bucket(total[i].count + shard[i].count,
                           total[i].requested + shard[i].requested,
                           total[i].pageHole + shard[i].pageHole);
      BucketsAdd(a, b, i, total[i], shard[i], bucket);
      sum := sum + [bucket];
    }
  }

  /** What is read of one shard under its lock, and what a snapshot holds. */
  datatype Reading = Reading(
    freeEvents: nat, untrackedFrees: nat, trackingFailures: nat,
    allocations: nat, requested: nat, hole: nat, histogram: seq<Bucket>)

  ghost predicate Reads(cells: Cells, r: Reading) {
    Counts(cells, r.allocations, r.requested, r.hole, r.histogram)
  }

  function Total(f: Reading -> nat, readings: seq<Reading>): nat {
    if readings == [] then 0
    else Total(f, readings[..|readings| - 1]) + f(readings[|readings| - 1])
  }

  const FREES: Reading -> nat := (r: Reading) => r.freeEvents
  const UNTRACKED: Reading -> nat := (r: Reading) => r.untrackedFrees
  const FAILURES: Reading -> nat := (r: Reading) => r.trackingFailures

  /** The three event counters are the sums over the shards. */
  predicate EventsAddUp(readings: seq<Reading>, total: Reading) {
    && total.freeEvents == Total(FREES, readings)
    && total.untrackedFrees == Total(UNTRACKED, readings)
    && total.trackingFailures == Total(FAILURES, readings)
  }

  /** scale_live_counter: every sampled event stands for `rate` events, up to the largest
      64-bit number. */
  function ScaleLiveCounter(value: nat, rate: nat): (r: nat)
    requires rate > 0
    ensures rate > 1 && value <= SIZE_MAX ==>
      r == if value * rate <= SIZE_MAX then value * rate else SIZE_MAX
    ensures rate == 1 ==> r == value
  {
    Quotient(SIZE_MAX, value, rate);
    if rate == 1 then value
    else if value > SIZE_MAX / rate then SIZE_MAX
    else value * rate
  }

  lemma ProductMono(a: nat, b: nat, rate: nat)
    requires a <= b
    ensures a * rate <= b * rate
  {
    assert b * rate == a * rate + (b - a) * rate;
  }

  lemma Quotient(limit: nat, value: nat, rate: nat)
    requires rate > 0
    ensures value > limit / rate <==> value * rate > limit
  {
    var q := limit / rate;
    assert q * rate <= limit < q * rate + rate == (q + 1) * rate;
    if value > q {
      ProductMono(q + 1, value, rate);
    } else {
      ProductMono(value, q, rate);
    }
  }

  function ScaleBucket(bucket: Bucket, rate: nat): Bucket
    requires rate > 0
  {
    Bucket(ScaleLiveCounter(bucket.count, rate), ScaleLiveCounter(bucket.requested, rate),
           ScaleLiveCounter(bucket.pageHole, rate))
  }

  /** The scalar counters of a snapshot after scaling. */
  predicate ScalarsScaled(total: Reading, rate: nat, snapshot: Reading)
    requires rate > 0
  {
    && snapshot.freeEvents == ScaleLiveCounter(total.freeEvents, rate)
    && snapshot.untrackedFrees == ScaleLiveCounter(total.untrackedFrees, rate)
    && snapshot.trackingFailures == ScaleLiveCounter(total.trackingFailures, rate)
    && snapshot.allocations == ScaleLiveCounter(total.allocations, rate)
    && snapshot.requested == ScaleLiveCounter(total.requested, rate)
    && snapshot.hole == ScaleLiveCounter(total.hole, rate)
  }

  predicate Scaled(total: Reading, rate: nat, snapshot: Reading)
    requires rate > 0
  {
    && ScalarsScaled(total, rate, snapshot) && |snapshot.histogram| == |total.histogram|
    && forall b | 0 <= b < |total.histogram| ::
         snapshot.histogram[b] == ScaleBucket(total.histogram[b], rate)
  }

  method AddReading(total: Reading, shard: Reading, ghost a: Cells, ghost b: Cells)
    returns (sum: Reading)
    requires Reads(a, total) && Reads(b, shard)
    ensures Reads(a + b, sum)
    ensures sum.freeEvents == total.freeEvents + shard.freeEvents
    ensures sum.untrackedFrees == total.untrackedFrees + shard.untrackedFrees
    ensures sum.trackingFailures == total.trackingFailures + shard.trackingFailures
  {
    hide BucketOk, SumOf;
    var histogram := AddHistogram(total.histogram, shard.histogram, a, b);
    SumConcat(ONE, a, b);
    SumConcat(SIZE, a, b);
    SumConcat(HOLE, a, b);
    sum := Reading(
      total.freeEvents + shard.freeEvents, total.untrackedFrees + shard.untrackedFrees,
      total.trackingFailures + shard.trackingFailures,
      total.allocations + shard.allocations, total.requested + shard.requested,
      total.hole + shard.hole, histogram);
  }

  method ScaleSnapshot(total: Reading, rate: nat) returns (snapshot: Reading)
    requires rate > 0
    ensures Scaled(total, rate, snapshot)
  {
    hide ScaleLiveCounter;
    var histogram := [];
    for b := 0 to |total.histogram|
      invariant |histogram| == b
      invariant forall k | 0 <= k < b :: histogram[k] == ScaleBucket(total.histogram[k], rate)
    {
      histogram := histogram + [ScaleBucket(total.histogram[b], rate)];
    }
    snapshot := Reading(
      ScaleLiveCounter(total.freeEvents, rate), ScaleLiveCounter(total.untrackedFrees, rate),
      ScaleLiveCounter(total.trackingFailures, rate), ScaleLiveCounter(total.allocations, rate),
      ScaleLiveCounter(total.requested, rate), ScaleLiveCounter(total.hole, rate), histogram);
  }

  /** load_live_statistics: every shard is read under its own lock, so the totals describe
      all live requests of all shards, each at its own moment. They are then scaled by the
      sample rate, and a rate of 1 leaves them exact. */
  method LoadLiveStatistics(readings: seq<Reading>, rate: nat, ghost tables: seq<Cells>)
    returns (snapshot: Reading, ghost total: Reading)
    requires |readings| == |tables| && rate > 0
    requires forall s | 0 <= s < |readings| :: Reads(tables[s], readings[s])
    ensures EventsAddUp(readings, total) && Reads(Concat(tables), total)
    ensures Scaled(total, rate, snapshot)
    ensures rate == 1 ==> snapshot == total
    ensures rate == 1 ==> |snapshot.histogram| == BUCKETS
                          && Describes(RowOf(snapshot.histogram), Concat(tables))
  {
    hide Reads, Total, Describes;
    var sum := Reading(0, 0, 0, 0, 0, 0, seq(BUCKETS, _ => Bucket(0, 0, 0)));
    NothingYet(sum);
    for s := 0 to |readings|
      invariant Reads(Concat(tables[..s]), sum) && EventsAddUp(readings[..s], sum)
    {
      var was := sum;
      sum := AddReading(sum, readings[s], Concat(tables[..s]), tables[s]);
      assert tables[..s + 1][..s] == tables[..s];
      OneMoreReading(readings, s, was, sum);
    }
    assert tables[..|tables|] == tables && readings[..|readings|] == readings;
    total := sum;
    snapshot := ScaleSnapshot(sum, rate);
    ReadsDescribes(Concat(tables), sum);
    if rate == 1 {
      assert snapshot.histogram == sum.histogram;
    }
  }

  lemma OneMoreReading(readings: seq<Reading>, n: nat, before: Reading, after: Reading)
    requires n < |readings| && EventsAddUp(readings[..n], before)
    requires after.freeEvents == before.freeEvents + readings[n].freeEvents
    requires after.untrackedFrees == before.untrackedFrees + readings[n].untrackedFrees
    requires after.trackingFailures == before.trackingFailures + readings[n].trackingFailures
    ensures EventsAddUp(readings[..n + 1], after)
  {
    assert readings[..n + 1][..n] == readings[..n];
  }

  lemma ReadsDescribes(cells: Cells, r: Reading)
    requires Reads(cells, r)
    ensures |r.histogram| == BUCKETS && Describes(RowOf(r.histogram), cells)
  {
    RowDescribes(r.histogram, cells);
  }

  lemma NothingYet(total: Reading)
    requires total == Reading(0, 0, 0, 0, 0, 0, seq(BUCKETS, _ => Bucket(0, 0, 0)))
    ensures Reads([], total) && EventsAddUp([], total)
  {}

  function RowOf(histogram: seq<Bucket>): Row
    requires |histogram| == BUCKETS
  {
    Row(seq(BUCKETS, b requires 0 <= b < BUCKETS => histogram[b].count),
        seq(BUCKETS, b requires 0 <= b < BUCKETS => histogram[b].requested),
        seq(BUCKETS - LARGE_START,
            b requires 0 <= b < BUCKETS - LARGE_START => histogram[b + LARGE_START].pageHole))
  }

  /** The columns written for a histogram are the sums the offline tool expects. */
  lemma RowDescribes(histogram: seq<Bucket>, cells: Cells)
    requires HistogramOk(cells, histogram)
    ensures Describes(RowOf(histogram), cells)
  {
    forall b | 0 <= b < BUCKETS
      ensures RowOf(histogram).counts[b] == SumOf(Only(b, ONE), cells)
      ensures RowOf(histogram).requested[b] == SumOf(Only(b, SIZE), cells)
      ensures b >= LARGE_START ==>
        RowOf(histogram).pageHoles[b - LARGE_START] == SumOf(Only(b, HOLE), cells)
    {
      assert BucketOk(cells, b, histogram[b]);
    }
  }
}
