/** The live-object map of replay_main.c: open addressing with linear probing, doubling at
    seven tenths, and deletion that reinserts the rest of the cluster. Proved to be a
    finite map for every hash function and every sequence of operations. */
module ObjectMap {
  import opened Wrappers

  datatype Entry = Entry(slot: nat, gen: nat, owner: nat, size: nat, lastTs: nat)

  const MIN_CAPACITY: nat := 1024

  predicate PowerOfTwo(n: nat) {
    n == 1 || (n >= 2 && n % 2 == 0 && PowerOfTwo(n / 2))
  }

  // --------------------------------------------------------------- probe geometry

  function Next(cap: nat, i: nat): nat
    requires i < cap
  {
    if i + 1 == cap then 0 else i + 1
  }

  /** The place of cell x when the circle is cut open right after cell e. */
  function Rot(cap: nat, e: nat, x: nat): (r: nat)
    requires e < cap && x < cap
    ensures r < cap && (r == cap - 1 <==> x == e)
  {
    if x > e then x - e - 1 else x + cap - e - 1
  }

  /** `mix64(a) & mask`: any function of the capacity and the key that stays below the
      capacity, as the mask of a power of two does. */
  function Home(hash: (nat, nat) -> nat, cap: nat, a: nat): (h: nat)
    requires cap > 0
    ensures h < cap
  {
    if hash(cap, a) < cap then hash(cap, a) else cap - 1
  }

  /** Cell x lies on the probe path of key a before cell i, in the circle cut after e. */
  predicate Before(hash: (nat, nat) -> nat, cap: nat, e: nat, a: nat, x: nat, i: nat)
    requires e < cap && x < cap && i < cap
  {
    Rot(cap, e, Home(hash, cap, a)) <= Rot(cap, e, x) < Rot(cap, e, i)
  }

  predicate Reaches(hash: (nat, nat) -> nat, cap: nat, e: nat, a: nat, i: nat)
    requires e < cap && i < cap
  {
    Rot(cap, e, Home(hash, cap, a)) <= Rot(cap, e, i)
  }

  lemma NextRot(cap: nat, e: nat, i: nat)
    requires e < cap && i < cap && i != e
    ensures Rot(cap, e, Next(cap, i)) == Rot(cap, e, i) + 1
  {}

  lemma ReachesCut(hash: (nat, nat) -> nat, cap: nat, e: nat, a: nat)
    requires e < cap
    ensures Reaches(hash, cap, e, a, e)
  {}

  /** Every key sits at or after its home; the cells between are full, except that keys at
      or beyond place r may still look back over gaps before r. */
  ghost predicate Gapped(hash: (nat, nat) -> nat, keys: seq<nat>, e: nat, r: nat)
    requires e < |keys|
  {
    forall i | 0 <= i < |keys| && keys[i] != 0 :: CellOk(hash, keys, e, r, i)
  }

  ghost predicate CellOk(hash: (nat, nat) -> nat, keys: seq<nat>, e: nat, r: nat, i: nat)
    requires e < |keys| && i < |keys|
  {
    && Reaches(hash, |keys|, e, keys[i], i)
    && forall x | 0 <= x < |keys| && Before(hash, |keys|, e, keys[i], x, i) ::
         keys[x] != 0 || Rot(|keys|, e, x) < r <= Rot(|keys|, e, i)
  }

  /** Every key is found by probing from its home. */
  ghost predicate Paths(hash: (nat, nat) -> nat, keys: seq<nat>, e: nat)
    requires e < |keys|
  {
    Gapped(hash, keys, e, 0)
  }

  /** The circle may be cut open at any empty cell. */
  lemma Recut(hash: (nat, nat) -> nat, keys: seq<nat>, e: nat, e': nat)
    requires e < |keys| && e' < |keys| && keys[e'] == 0 && Paths(hash, keys, e)
    ensures Paths(hash, keys, e')
  {
    forall i | 0 <= i < |keys| && keys[i] != 0 ensures CellOk(hash, keys, e', 0, i) {
      assert CellOk(hash, keys, e, 0, i);
      assert !Before(hash, |keys|, e, keys[i], e', i);
      forall x | 0 <= x < |keys| && Before(hash, |keys|, e', keys[i], x, i)
        ensures keys[x] != 0
      {
        assert Before(hash, |keys|, e, keys[i], x, i);
      }
    }
  }

  /** Where linear probing for key a stops. */
  ghost predicate Landing(hash: (nat, nat) -> nat, keys: seq<nat>, e: nat, a: nat, h: nat)
    requires e < |keys| && h < |keys|
  {
    && Reaches(hash, |keys|, e, a, h)
    && (keys[h] == 0 || keys[h] == a)
    && forall x | 0 <= x < |keys| && Before(hash, |keys|, e, a, x, h) ::
         keys[x] != 0 && keys[x] != a
  }

  /** No gap lies on the path to key a, if it is there at all. */
  ghost predicate Findable(hash: (nat, nat) -> nat, keys: seq<nat>, e: nat, a: nat)
    requires e < |keys|
  {
    forall i | 0 <= i < |keys| && keys[i] == a :: CellOk(hash, keys, e, 0, i)
  }

  /** Probing cannot miss a key whose own path has no gap. */
  lemma LandsOnKey(hash: (nat, nat) -> nat, keys: seq<nat>, e: nat, a: nat, h: nat, i: nat)
    requires e < |keys| && h < |keys| && i < |keys| && a != 0
    requires Landing(hash, keys, e, a, h) && keys[i] == a && CellOk(hash, keys, e, 0, i)
    ensures keys[h] == a
  {
    if Rot(|keys|, e, h) < Rot(|keys|, e, i) {
      assert Before(hash, |keys|, e, a, h, i);
    }
  }

  lemma PutKeepsGapped(hash: (nat, nat) -> nat, keys: seq<nat>, e: nat, r: nat, a: nat, h: nat)
    requires e < |keys| && h < |keys| && a != 0
    requires Gapped(hash, keys, e, r) && Landing(hash, keys, e, a, h)
    ensures Gapped(hash, keys[h := a], e, r)
  {
    var keys' := keys[h := a];
    forall i | 0 <= i < |keys'| && keys'[i] != 0 ensures CellOk(hash, keys', e, r, i) {
      if i != h {
        assert CellOk(hash, keys, e, r, i);
      }
    }
  }

  lemma RemoveOpensGap(hash: (nat, nat) -> nat, keys: seq<nat>, e: nat, r: nat, h: nat)
    requires e < |keys| && h < |keys| && r <= Rot(|keys|, e, h)
    requires Gapped(hash, keys, e, r)
    requires r == 0 || r == Rot(|keys|, e, h)
    ensures Gapped(hash, keys[h := 0], e, Rot(|keys|, e, h) + 1)
  {
    var keys' := keys[h := 0];
    forall i | 0 <= i < |keys'| && keys'[i] != 0
      ensures CellOk(hash, keys', e, Rot(|keys|, e, h) + 1, i)
    {
      assert CellOk(hash, keys, e, r, i);
    }
  }

  lemma ReinsertKeeps(hash: (nat, nat) -> nat, keys: seq<nat>, e: nat, j: nat, h: nat)
    requires e < |keys| && j < |keys| && h < |keys| && keys[j] != 0 && keys[e] == 0
    requires Gapped(hash, keys, e, Rot(|keys|, e, j))
    requires Landing(hash, keys[j := 0], e, keys[j], h)
    requires Rot(|keys|, e, h) <= Rot(|keys|, e, j)
    ensures keys[j := 0][h := keys[j]][e] == 0
    ensures Gapped(hash, keys[j := 0][h := keys[j]], e, Rot(|keys|, e, j) + 1)
  {
    RemoveOpensGap(hash, keys, e, Rot(|keys|, e, j), j);
    PutKeepsGapped(hash, keys[j := 0], e, Rot(|keys|, e, j) + 1, keys[j], h);
  }

  lemma ReinsertReady(hash: (nat, nat) -> nat, keys: seq<nat>, e: nat, j: nat)
    requires e < |keys| && j < |keys| && keys[j] != 0
    requires Gapped(hash, keys, e, Rot(|keys|, e, j))
    requires keys[j] !in keys[j := 0]
    ensures Reaches(hash, |keys|, e, keys[j], j)
    ensures Findable(hash, keys[j := 0], e, keys[j])
  {
    assert CellOk(hash, keys, e, Rot(|keys|, e, j), j);
  }

  lemma GapCloses(hash: (nat, nat) -> nat, keys: seq<nat>, e: nat, j: nat)
    requires e < |keys| && j < |keys| && keys[j] == 0
    requires Gapped(hash, keys, e, Rot(|keys|, e, j))
    ensures Paths(hash, keys, e)
  {
    forall i | 0 <= i < |keys| && keys[i] != 0 ensures CellOk(hash, keys, e, 0, i) {
      assert CellOk(hash, keys, e, Rot(|keys|, e, j), i);
      var onPath := Before(hash, |keys|, e, keys[i], j, i);
    }
  }

  // ------------------------------------------------------------------ map content

  predicate Differ(keys: seq<nat>, i: nat, j: nat)
    requires i < j < |keys|
  {
    keys[i] != 0 ==> keys[i] != keys[j]
  }

  predicate Stored(keys: seq<nat>, entries: seq<Entry>, m: map<nat, Entry>, i: nat)
    requires i < |keys| == |entries|
  {
    keys[i] != 0 ==> keys[i] in m && m[keys[i]] == entries[i]
  }

  /** The full cells are exactly the pairs of m, each key once. */
  ghost predicate Represents(keys: seq<nat>, entries: seq<Entry>, m: map<nat, Entry>) {
    && |keys| == |entries|
    && (forall i | 0 <= i < |keys| :: Stored(keys, entries, m, i))
    && (forall a | a in m :: a != 0 && a in keys)
    && (forall i, j | 0 <= i < j < |keys| :: Differ(keys, i, j))
  }

  lemma PutRepresents(
    keys: seq<nat>, entries: seq<Entry>, m: map<nat, Entry>, h: nat, a: nat, x: Entry)
    requires Represents(keys, entries, m) && h < |keys| && a != 0
    requires keys[h] == a || (keys[h] == 0 && a !in keys)
    ensures Represents(keys[h := a], entries[h := x], m[a := x])
    ensures a in m <==> keys[h] == a
  {
    var keys', entries', m' := keys[h := a], entries[h := x], m[a := x];
    forall i | 0 <= i < |keys| ensures Stored(keys', entries', m', i) {
      assert Stored(keys, entries, m, i);
      assert i < h ==> Differ(keys, i, h);
      assert h < i ==> Differ(keys, h, i);
    }
    forall i, j | 0 <= i < j < |keys| ensures Differ(keys', i, j) {
      assert Differ(keys, i, j);
    }
    forall b | b in m' ensures b in keys' {
      if b == a {
        assert keys'[h] == a;
      } else {
        var i :| 0 <= i < |keys| && keys[i] == b;
        assert keys'[i] == b;
      }
    }
    assert Stored(keys, entries, m, h);
  }

  lemma RemoveRepresents(
    keys: seq<nat>, entries: seq<Entry>, m: map<nat, Entry>, h: nat)
    requires Represents(keys, entries, m) && h < |keys| && keys[h] != 0
    ensures Represents(keys[h := 0], entries, m - {keys[h]})
    ensures keys[h] !in keys[h := 0]
    ensures keys[h] in m && m[keys[h]] == entries[h]
  {
    var keys' := keys[h := 0];
    var m' := m - {keys[h]};
    assert Stored(keys, entries, m, h);
    forall i | 0 <= i < |keys| ensures keys'[i] != keys[h] {
      if i < h {
        assert Differ(keys, i, h);
      } else if h < i {
        assert Differ(keys, h, i);
      }
    }
    forall i | 0 <= i < |keys| ensures Stored(keys', entries, m', i) {
      assert Stored(keys, entries, m, i);
    }
    forall i, j | 0 <= i < j < |keys| ensures Differ(keys', i, j) {
      assert Differ(keys, i, j);
    }
    forall b | b in m' ensures b in keys' {
      var i :| 0 <= i < |keys| && keys[i] == b;
      assert keys'[i] == b;
    }
  }

  function KeySet(keys: seq<nat>): set<nat> {
    set i | 0 <= i < |keys| :: keys[i]
  }

  lemma {:induction false} FullTable(keys: seq<nat>)
    requires forall i, j | 0 <= i < j < |keys| :: Differ(keys, i, j)
    requires 0 !in keys
    ensures |KeySet(keys)| == |keys|
  {
    if keys == [] {
      assert KeySet(keys) == {};
    } else {
      var n := |keys| - 1;
      var init := keys[..n];
      forall i, j | 0 <= i < j < n ensures Differ(init, i, j) {
        assert Differ(keys, i, j);
      }
      FullTable(init);
      forall i | 0 <= i < n ensures keys[i] != keys[n] {
        assert Differ(keys, i, n);
      }
      assert KeySet(keys) == KeySet(init) + {keys[n]};
    }
  }

  /** A map with fewer pairs than cells leaves an empty cell for probing to stop at. */
  lemma EmptyCell(keys: seq<nat>, entries: seq<Entry>, m: map<nat, Entry>) returns (e: nat)
    requires Represents(keys, entries, m) && |m| < |keys|
    ensures e < |keys| && keys[e] == 0
  {
    if 0 !in keys {
      FullTable(keys);
      forall a | a in KeySet(keys) ensures a in m.Keys {
        var i :| 0 <= i < |keys| && keys[i] == a;
        assert Stored(keys, entries, m, i);
      }
      SubsetSize(KeySet(keys), m.Keys);
      assert false;
    }
    e :| 0 <= e < |keys| && keys[e] == 0;
  }

  lemma {:induction false} SubsetSize(a: set<nat>, b: set<nat>)
    requires a <= b
    ensures |a| <= |b|
  {
    if a != {} {
      var x :| x in a;
      SubsetSize(a - {x}, b - {x});
    }
  }

  lemma Absent(hash: (nat, nat) -> nat, keys: seq<nat>, e: nat, a: nat, h: nat)
    requires e < |keys| && h < |keys| && a != 0 && keys[h] == 0
    requires Paths(hash, keys, e) && Landing(hash, keys, e, a, h)
    ensures a !in keys
  {
    if a in keys {
      var i :| 0 <= i < |keys| && keys[i] == a;
      LandsOnKey(hash, keys, e, a, h, i);
    }
  }

  /** A finite map from addresses to entries. */
  class Table {
    const hash: (nat, nat) -> nat
    var keys: array<nat>
    var entries: array<Entry>
    var count: nat
    ghost var contents: map<nat, Entry>
    ghost var cut: nat

    /** What holds even while a cluster is being reinserted. */
    ghost predicate Core()
      reads this, keys, entries
    {
      && keys.Length == entries.Length && cut < keys.Length
      && Represents(keys[..], entries[..], contents)
      && count == |contents|
    }

    ghost predicate Sound()
      reads this, keys, entries
    {
      Core() && Paths(hash, keys[..], cut)
    }

    /** A map between operations: less than seven tenths full. */
    ghost predicate Valid()
      reads this, keys, entries
    {
      Sound() && PowerOfTwo(keys.Length) && keys.Length >= MIN_CAPACITY
      && count * 10 < keys.Length * 7
    }

    constructor Alloc(hash: (nat, nat) -> nat, cap: nat)
      requires PowerOfTwo(cap)
      ensures Valid() && fresh(keys) && fresh(entries) && contents == map[] && this.hash == hash
      ensures keys.Length == if cap < MIN_CAPACITY then MIN_CAPACITY else cap
    {
      var n := if cap < MIN_CAPACITY then MIN_CAPACITY else cap;
      this.hash := hash;
      keys := new nat[n](_ => 0);
      entries := new Entry[n](_ => Entry(0, 0, 0, 0, 0));
      count := 0;
      contents := map[];
      cut := 0;
      new;
      MinimumIsPower();
    }

    /** The probing loop of omap_put_raw and omap_take; `e` cuts the circle and `z` is an
        empty cell at or after a's home. */
    method Probe(a: nat, ghost e: nat, ghost z: nat) returns (h: nat)
      requires e < keys.Length && z < keys.Length
      requires keys[z] == 0 && Reaches(hash, keys.Length, e, a, z)
      ensures h < keys.Length && Landing(hash, keys[..], e, a, h)
      ensures keys[h] == 0 || keys[h] == a
      ensures Rot(keys.Length, e, h) <= Rot(keys.Length, e, z)
    {
      h := Home(hash, keys.Length, a);
      while keys[h] != 0 && keys[h] != a
        invariant h < keys.Length && Reaches(hash, keys.Length, e, a, h)
        invariant Rot(keys.Length, e, h) <= Rot(keys.Length, e, z)
        invariant forall x | 0 <= x < keys.Length && Before(hash, keys.Length, e, a, x, h) ::
          keys[x] != 0 && keys[x] != a
        decreases Rot(keys.Length, e, z) - Rot(keys.Length, e, h)
      {
        h := Next(keys.Length, h);
      }
    }

    /** omap_put_raw, also in the middle of a reinsertion. */
    method PutRaw(a: nat, x: Entry, ghost e: nat, ghost z: nat) returns (ghost h: nat)
      requires Core() && a != 0
      requires e < keys.Length && z < keys.Length
      requires keys[z] == 0 && Reaches(hash, keys.Length, e, a, z)
      requires Findable(hash, keys[..], e, a)
      modifies this`count, this`contents, keys, entries
      ensures Core() && contents == old(contents)[a := x]
      ensures h < keys.Length && Rot(keys.Length, e, h) <= Rot(keys.Length, e, z)
      ensures Landing(hash, old(keys[..]), e, a, h)
      ensures keys[..] == old(keys[..])[h := a]
    {
      var i := Probe(a, e, z);
      ghost var was := keys[..];
      if a in was {
        ghost var j :| 0 <= j < |was| && was[j] == a;
        LandsOnKey(hash, was, e, a, i, j);
      }
      PutRepresents(was, entries[..], contents, i, a, x);
      if keys[i] == 0 {
        count := count + 1;
      }
      keys[i] := a;
      entries[i] := x;
      contents := contents[a := x];
      assert keys[..] == was[i := a];
      assert entries[..] == old(entries[..])[i := x];
      h := i;
    }

    /** omap_put_raw on a map with room. */
    method Store(a: nat, x: Entry)
      requires Sound() && a != 0 && count < keys.Length
      modifies this`count, this`contents, this`cut, keys, entries
      ensures Sound() && contents == old(contents)[a := x]
    {
      ghost var e := EmptyCell(keys[..], entries[..], contents);
      Recut(hash, keys[..], cut, e);
      cut := e;
      ghost var h := PutRaw(a, x, e, e);
      PutKeepsGapped(hash, old(keys[..]), e, 0, a, h);
    }

    /** omap_resize */
    method Resize(cap: nat)
      requires Valid() && PowerOfTwo(cap) && cap >= keys.Length
      modifies this
      ensures Sound() && contents == old(contents) && count == old(count)
      ensures keys.Length == cap && fresh(keys) && fresh(entries)
    {
      hide Represents, Gapped, Prefix, PowerOfTwo, Home;
      var table := new Table.Alloc(hash, cap);
      PrefixNone(keys[..], entries[..], contents);
      var i := 0;
      while i < keys.Length
        invariant 0 <= i <= keys.Length && Valid() && unchanged(this)
        invariant fresh(table) && fresh(table.keys) && fresh(table.entries)
        invariant table.Sound() && table.keys.Length == cap && table.hash == hash
        invariant Prefix(keys[..], entries[..], contents, table.contents, i)
      {
        PrefixGrows(keys[..], entries[..], contents, table.contents, i);
        if keys[i] != 0 {
          table.Store(keys[i], entries[i]);
        }
        i := i + 1;
      }
      PrefixAll(keys[..], entries[..], contents, table.contents);
      keys := table.keys;
      entries := table.entries;
      count := table.count;
      cut := table.cut;
    }

    /** omap_put: an address that is already live is silently overwritten. */
    method Put(a: nat, x: Entry)
      requires Valid() && a != 0
      modifies this, keys, entries
      ensures Valid() && contents == old(contents)[a := x]
      ensures fresh(keys) || keys == old(keys)
      ensures fresh(entries) || entries == old(entries)
    {
      if (count + 1) * 10 >= keys.Length * 7 {
        DoublePower(keys.Length);
        Resize(keys.Length * 2);
      }
      Store(a, x);
    }

    /** Empties a full cell. */
    method Clear(j: nat)
      requires Core() && j < keys.Length && keys[j] != 0
      modifies this`count, this`contents, keys
      ensures Core() && contents == old(contents) - {old(keys[j])}
      ensures keys[..] == old(keys[..])[j := 0] && old(keys[j]) !in keys[..]
      ensures old(keys[j]) in old(contents) && old(contents)[old(keys[j])] == entries[j]
    {
      ghost var a := keys[j];
      RemoveRepresents(keys[..], entries[..], contents, j);
      keys[j] := 0;
      assert contents.Keys - {a} == (contents - {a}).Keys;
      contents := contents - {a};
      count := count - 1;
      assert keys[..] == old(keys[..])[j := 0];
    }

    /** One turn of the reinsertion loop of omap_take. */
    method Reinsert(j: nat)
      requires Core() && j < keys.Length && keys[j] != 0 && keys[cut] == 0
      requires Gapped(hash, keys[..], cut, Rot(keys.Length, cut, j))
      modifies this`count, this`contents, keys, entries
      ensures Core() && contents == old(contents) && keys[cut] == 0
      ensures Gapped(hash, keys[..], cut, Rot(keys.Length, cut, j) + 1)
    {
      hide Represents, Gapped, Reaches, Findable, Landing, Rot;
      ghost var was := keys[..];
      var a, x := keys[j], entries[j];
      Clear(j);
      ReinsertReady(hash, was, cut, j);
      ghost var h := PutRaw(a, x, cut, j);
      ReinsertKeeps(hash, was, cut, j, h);
      assert keys[..] == was[j := 0][h := a];
      assert contents == old(contents);
    }

    /** omap_take */
    method Take(a: nat) returns (r: Option<Entry>)
      requires Valid()
      modifies this`count, this`contents, this`cut, keys, entries
      ensures Valid() && contents == old(contents) - {a}
      ensures r == if a in old(contents) then Some(old(contents)[a]) else None
    {
      hide Represents, Gapped, Reaches, Landing, Rot;
      ghost var e := EmptyCell(keys[..], entries[..], contents);
      Recut(hash, keys[..], cut, e);
      cut := e;
      ReachesCut(hash, keys.Length, e, a);
      var h := Probe(a, e, e);
      if keys[h] == 0 {
        Missing(hash, keys[..], entries[..], contents, e, a, h);
        return None;
      }
      r := Some(entries[h]);
      RemoveOpensGap(hash, keys[..], e, 0, h);
      Clear(h);
      ghost var rest := contents;
      NextRot(keys.Length, e, h);
      var j: nat := Next(keys.Length, h);
      while keys[j] != 0
        invariant j < keys.Length && Core() && contents == rest && cut == e && keys[e] == 0
        invariant Gapped(hash, keys[..], e, Rot(keys.Length, e, j))
        decreases keys.Length - Rot(keys.Length, e, j)
      {
        Reinsert(j);
        NextRot(keys.Length, e, j);
        j := Next(keys.Length, j);
      }
      GapCloses(hash, keys[..], e, j);
    }
  }

  /** The table under construction in omap_resize holds the cells before i. */
  ghost predicate Prefix(
    keys: seq<nat>, entries: seq<Entry>, m: map<nat, Entry>, part: map<nat, Entry>, i: nat)
    requires i <= |keys|
  {
    && (forall a | a in part :: a in m && part[a] == m[a])
    && forall a :: a in part <==> a != 0 && a in keys[..i]
  }

  lemma PrefixNone(keys: seq<nat>, entries: seq<Entry>, m: map<nat, Entry>)
    ensures Prefix(keys, entries, m, map[], 0)
  {}

  lemma PrefixGrows(
    keys: seq<nat>, entries: seq<Entry>, m: map<nat, Entry>, part: map<nat, Entry>, i: nat)
    requires Represents(keys, entries, m) && i < |keys| && Prefix(keys, entries, m, part, i)
    ensures |part| <= |m|
    ensures Prefix(keys, entries, m,
                   if keys[i] == 0 then part else part[keys[i] := entries[i]], i + 1)
  {
    SubsetSize(part.Keys, m.Keys);
    assert Stored(keys, entries, m, i);
    assert keys[..i + 1] == keys[..i] + [keys[i]];
  }

  lemma PrefixAll(
    keys: seq<nat>, entries: seq<Entry>, m: map<nat, Entry>, part: map<nat, Entry>)
    requires Represents(keys, entries, m) && Prefix(keys, entries, m, part, |keys|)
    ensures part == m
  {
    assert keys[..|keys|] == keys;
    assert part.Keys == m.Keys;
  }

  lemma Missing(
    hash: (nat, nat) -> nat, keys: seq<nat>, entries: seq<Entry>, m: map<nat, Entry>,
    e: nat, a: nat, h: nat)
    requires Represents(keys, entries, m) && e < |keys| && h < |keys| && keys[h] == 0
    requires Paths(hash, keys, e) && Landing(hash, keys, e, a, h)
    ensures a !in m && m - {a} == m
  {
    if a in m {
      Absent(hash, keys, e, a, h);
    }
  }

  lemma DoublePower(n: nat)
    requires PowerOfTwo(n)
    ensures PowerOfTwo(n * 2)
  {
    assert n * 2 / 2 == n && n * 2 % 2 == 0;
  }

  lemma MinimumIsPower()
    ensures PowerOfTwo(MIN_CAPACITY)
  {
    assert PowerOfTwo(32) by { assert PowerOfTwo(8); }
    assert PowerOfTwo(256);
  }
}
