/** The thread map of malloc_free_hook.c: an open-addressing table with deletion marks, used
    under its lock to name the thread that a pthread_create, join or detach is about. It is a
    partial map for every hash function, but it wears out: a mark is never turned back into
    an empty cell, and without an empty cell no new thread can be put. */
module ThreadMap {
  import opened LiveTable

  datatype CellState = Empty | Used | Deleted

  datatype Cell = Cell(state: CellState, key: nat, instance: nat)

  /** No empty cell lies before probe number k of a key. */
  ghost predicate Passable(hash: nat -> nat, cells: seq<Cell>, key: nat, k: nat)
    requires |cells| > 0 && k <= |cells|
  {
    forall j | 0 <= j < k :: !cells[Place(|cells|, Home(hash, |cells|, key), j)].state.Empty?
  }

  ghost predicate Met(hash: nat -> nat, cells: seq<Cell>, i: nat)
    requires i < |cells|
  {
    Passable(hash, cells, cells[i].key, Distance(|cells|, Home(hash, |cells|, cells[i].key), i))
  }

  predicate Binds(cells: seq<Cell>, m: map<nat, nat>, i: nat)
    requires i < |cells|
  {
    cells[i].state.Used? ==> cells[i].key in m && m[cells[i].key] == cells[i].instance
  }

  predicate Apart(cells: seq<Cell>, i: nat, j: nat)
    requires i < j < |cells|
  {
    cells[i].state.Used? && cells[j].state.Used? ==> cells[i].key != cells[j].key
  }

  predicate InUse(cells: seq<Cell>, key: nat) {
    exists i | 0 <= i < |cells| :: cells[i].state.Used? && cells[i].key == key
  }

  /** The used cells are exactly the pairs of m. */
  ghost predicate Shows(hash: nat -> nat, cells: seq<Cell>, m: map<nat, nat>) {
    && |cells| > 0
    && (forall i | 0 <= i < |cells| :: Binds(cells, m, i))
    && (forall i | 0 <= i < |cells| && cells[i].state.Used? :: Met(hash, cells, i))
    && (forall key | key in m :: InUse(cells, key))
    && (forall i, j | 0 <= i < j < |cells| :: Apart(cells, i, j))
  }

  /** The key's probe number k is a used cell of another thread or a deleted one. */
  predicate Passes(hash: nat -> nat, cells: seq<Cell>, key: nat, k: nat)
    requires k < |cells|
  {
    var cell := cells[Place(|cells|, Home(hash, |cells|, key), k)];
    !cell.state.Empty? && !(cell.state.Used? && cell.key == key)
  }

  /** A search that meets an empty cell, or runs round the table, has missed nothing. */
  lemma Missed(hash: nat -> nat, cells: seq<Cell>, m: map<nat, nat>, key: nat, k: nat)
    requires Shows(hash, cells, m) && k <= |cells|
    requires forall j | 0 <= j < k :: Passes(hash, cells, key, j)
    requires k < |cells| ==> cells[Place(|cells|, Home(hash, |cells|, key), k)].state.Empty?
    ensures key !in m
  {
    if key in m {
      assert InUse(cells, key);
      var i :| 0 <= i < |cells| && cells[i].state.Used? && cells[i].key == key;
      var d := Distance(|cells|, Home(hash, |cells|, key), i);
      assert Met(hash, cells, i);
      var passed := d < k && Passes(hash, cells, key, d);
    }
  }

  /** A search round the whole table has seen every cell. */
  lemma SeenAll(hash: nat -> nat, cells: seq<Cell>, key: nat)
    requires |cells| > 0 && forall j | 0 <= j < |cells| :: Passes(hash, cells, key, j)
    ensures forall i | 0 <= i < |cells| :: !cells[i].state.Empty?
  {
    forall i | 0 <= i < |cells| ensures !cells[i].state.Empty? {
      assert Passes(hash, cells, key, Distance(|cells|, Home(hash, |cells|, key), i));
    }
  }

  lemma WriteShows(
    hash: nat -> nat, cells: seq<Cell>, m: map<nat, nat>, key: nat, instance: nat, k: nat)
    requires Shows(hash, cells, m) && k < |cells| && Passable(hash, cells, key, k)
    requires var cell := cells[Place(|cells|, Home(hash, |cells|, key), k)];
      if cell.state.Used? then cell.key == key else key !in m
    ensures Shows(hash, cells[Place(|cells|, Home(hash, |cells|, key), k)
                                := Cell(Used, key, instance)], m[key := instance])
  {
    var at := Place(|cells|, Home(hash, |cells|, key), k);
    var after, m' := cells[at := Cell(Used, key, instance)], m[key := instance];
    forall i | 0 <= i < |after| ensures Binds(after, m', i) {
      assert Binds(cells, m, i);
      assert i < at ==> Apart(cells, i, at);
      assert at < i ==> Apart(cells, at, i);
    }
    forall i | 0 <= i < |after| && after[i].state.Used? ensures Met(hash, after, i) {
      assert i != at ==> Met(hash, cells, i);
    }
    forall x | x in m' ensures InUse(after, x) {
      if x == key {
        assert after[at].key == key;
      } else {
        assert InUse(cells, x);
        var i :| 0 <= i < |cells| && cells[i].state.Used? && cells[i].key == x;
        assert after[i] == cells[i];
      }
    }
    forall i, j | 0 <= i < j < |after| ensures Apart(after, i, j) {
      assert Apart(cells, i, j) && Binds(cells, m, i) && Binds(cells, m, j);
    }
  }

  lemma DeleteShows(hash: nat -> nat, cells: seq<Cell>, m: map<nat, nat>, at: nat)
    requires Shows(hash, cells, m) && at < |cells| && cells[at].state.Used?
    ensures cells[at].key in m
    ensures Shows(hash, cells[at := Cell(Deleted, cells[at].key, 0)], m - {cells[at].key})
  {
    var after, m' := cells[at := Cell(Deleted, cells[at].key, 0)], m - {cells[at].key};
    assert Binds(cells, m, at);
    forall i | 0 <= i < |after| ensures Binds(after, m', i) {
      assert Binds(cells, m, i);
      assert i < at ==> Apart(cells, i, at);
      assert at < i ==> Apart(cells, at, i);
    }
    forall i | 0 <= i < |after| && after[i].state.Used? ensures Met(hash, after, i) {
      assert Met(hash, cells, i);
    }
    forall x | x in m' ensures InUse(after, x) {
      assert InUse(cells, x);
      var i :| 0 <= i < |cells| && cells[i].state.Used? && cells[i].key == x;
      assert after[i] == cells[i];
    }
    forall i, j | 0 <= i < j < |after| ensures Apart(after, i, j) {
      assert Apart(cells, i, j);
    }
  }

  predicate AnyEmpty(cells: seq<Cell>) {
    exists i | 0 <= i < |cells| :: cells[i].state.Empty?
  }

  /** The first cell on the key's path that is not in use. */
  ghost predicate FirstFree(hash: nat -> nat, cells: seq<Cell>, key: nat, at: nat) {
    exists k | 0 <= k < |cells| :: FreeAfter(hash, cells, key, at, k)
  }

  predicate FreeAfter(hash: nat -> nat, cells: seq<Cell>, key: nat, at: nat, k: nat)
    requires k < |cells|
  {
    var home := Home(hash, |cells|, key);
    && at == Place(|cells|, home, k) && !cells[at].state.Used?
    && forall j | 0 <= j < k :: cells[Place(|cells|, home, j)].state.Used?
  }

  class Map {
    const hash: nat -> nat
    const cells: array<Cell>
    ghost var contents: map<nat, nat>

    ghost predicate Valid()
      reads this, cells
    {
      Shows(hash, cells[..], contents)
    }

    constructor (hash: nat -> nat, capacity: nat)
      requires capacity > 0
      ensures Valid() && contents == map[] && fresh(cells) && this.hash == hash
      ensures cells.Length == capacity
      ensures forall i | 0 <= i < capacity :: cells[i].state.Empty?
    {
      this.hash := hash;
      cells := new Cell[capacity](_ => Cell(Empty, 0, 0));
      contents := map[];
    }

    /** thread_map_put: refuses a new thread exactly when no cell is empty, even if deleted
        cells are free; otherwise the first cell on its path that is not in use is taken. */
    method Put(thread: nat, instance: nat) returns (inserted: bool, ghost at: nat)
      requires Valid()
      modifies this`contents, cells
      ensures Valid()
      ensures !inserted <==> thread !in old(contents) && !AnyEmpty(old(cells[..]))
      ensures contents == if inserted then old(contents)[thread := instance] else old(contents)
      ensures !inserted ==> cells[..] == old(cells[..])
      ensures inserted ==>
        at < cells.Length && cells[..] == old(cells[..])[at := Cell(Used, thread, instance)]
      ensures inserted && thread !in old(contents) ==>
        FirstFree(hash, old(cells[..]), thread, at)
    {
      hide Shows;
      var n := cells.Length;
      NotNothing();
      var home := Home(hash, n, thread);
      var firstDeleted: int := -1;
      ghost var place := 0;
      for probe := 0 to n
        invariant cells[..] == old(cells[..]) && contents == old(contents)
        invariant forall j | 0 <= j < probe :: Passes(hash, cells[..], thread, j)
        invariant firstDeleted == -1 ==>
          forall j | 0 <= j < probe :: cells[Place(n, home, j)].state.Used?
        invariant firstDeleted != -1 ==>
          && 0 <= firstDeleted < n && place < probe
          && FreeAfter(hash, cells[..], thread, firstDeleted, place)
      {
        var index := Place(n, home, probe);
        if cells[index].state.Used? && cells[index].key == thread {
          PathIsPassable(hash, cells[..], thread, probe);
          PresentHere(hash, cells[..], contents, index);
          WriteShows(hash, cells[..], contents, thread, instance, probe);
          Write(index, thread, instance);
          return true, index;
        }
        if cells[index].state.Deleted? && firstDeleted == -1 {
          firstDeleted, place := index, probe;
        }
        if cells[index].state.Empty? {
          Missed(hash, cells[..], contents, thread, probe);
          assert cells[..][index].state.Empty?;
          if firstDeleted == -1 {
            firstDeleted, place := index, probe;
          }
          ghost var was := cells[..];
          assert FreeAfter(hash, was, thread, firstDeleted, place);
          PathIsPassable(hash, was, thread, place);
          WriteShows(hash, was, contents, thread, instance, place);
          Write(firstDeleted, thread, instance);
          return true, firstDeleted;
        }
      }
      Missed(hash, cells[..], contents, thread, n);
      SeenAll(hash, cells[..], thread);
      return false, 0;
    }

    lemma NotNothing()
      requires Valid()
      ensures cells.Length > 0
    {}

    method Write(index: nat, thread: nat, instance: nat)
      requires index < cells.Length
      modifies this`contents, cells
      ensures contents == old(contents)[thread := instance]
      ensures cells[..] == old(cells[..])[index := Cell(Used, thread, instance)]
    {
      cells[index] := Cell(Used, thread, instance);
      contents := contents[thread := instance];
    }

    /** thread_map_get: the thread's instance, or 0. */
    method Get(thread: nat) returns (instance: nat)
      requires Valid()
      ensures instance == if thread in contents then contents[thread] else 0
    {
      hide Shows;
      NotNothing();
      var n := cells.Length;
      var home := Home(hash, n, thread);
      for probe := 0 to n
        invariant forall j | 0 <= j < probe :: Passes(hash, cells[..], thread, j)
      {
        var index := Place(n, home, probe);
        if cells[index].state.Empty? {
          Missed(hash, cells[..], contents, thread, probe);
          return 0;
        }
        if cells[index].state.Used? && cells[index].key == thread {
          PresentHere(hash, cells[..], contents, index);
          return cells[index].instance;
        }
      }
      Missed(hash, cells[..], contents, thread, n);
      return 0;
    }

    /** thread_map_remove */
    method Remove(thread: nat)
      requires Valid()
      modifies this`contents, cells
      ensures Valid() && contents == old(contents) - {thread}
      ensures forall i | 0 <= i < cells.Length ::
        if old(cells[i].state.Used? && cells[i].key == thread)
        then cells[i].state.Deleted? else cells[i] == old(cells[i])
    {
      NotNothing();
      var n := cells.Length;
      var home := Home(hash, n, thread);
      for probe := 0 to n
        invariant cells[..] == old(cells[..]) && contents == old(contents)
        invariant forall j | 0 <= j < probe :: Passes(hash, cells[..], thread, j)
      {
        var index := Place(n, home, probe);
        if cells[index].state.Empty? {
          Missed(hash, cells[..], contents, thread, probe);
          NothingToRemove(hash, cells[..], contents, thread);
          return;
        }
        if cells[index].state.Used? && cells[index].key == thread {
          ghost var was := cells[..];
          OnlyHere(hash, was, contents, index);
          DeleteShows(hash, was, contents, index);
          cells[index] := Cell(Deleted, cells[index].key, 0);
          contents := contents - {thread};
          assert cells[..] == was[index := Cell(Deleted, thread, 0)];
          return;
        }
      }
      Missed(hash, cells[..], contents, thread, n);
      NothingToRemove(hash, cells[..], contents, thread);
    }
  }

  lemma PathIsPassable(hash: nat -> nat, cells: seq<Cell>, key: nat, k: nat)
    requires 0 < |cells| && k <= |cells|
    requires forall j | 0 <= j < k :: Passes(hash, cells, key, j)
    ensures Passable(hash, cells, key, k)
  {
    forall j | 0 <= j < k
      ensures !cells[Place(|cells|, Home(hash, |cells|, key), j)].state.Empty?
    {
      assert Passes(hash, cells, key, j);
    }
  }

  lemma PresentHere(hash: nat -> nat, cells: seq<Cell>, m: map<nat, nat>, i: nat)
    requires Shows(hash, cells, m) && i < |cells| && cells[i].state.Used?
    ensures cells[i].key in m && m[cells[i].key] == cells[i].instance
  {
    assert Binds(cells, m, i);
  }

  lemma OnlyHere(hash: nat -> nat, cells: seq<Cell>, m: map<nat, nat>, at: nat)
    requires Shows(hash, cells, m) && at < |cells| && cells[at].state.Used?
    ensures forall i | 0 <= i < |cells| && i != at ::
      !(cells[i].state.Used? && cells[i].key == cells[at].key)
  {
    forall i | 0 <= i < |cells| && i != at
      ensures !(cells[i].state.Used? && cells[i].key == cells[at].key)
    {
      assert i < at ==> Apart(cells, i, at);
      assert at < i ==> Apart(cells, at, i);
    }
  }

  lemma NothingToRemove(hash: nat -> nat, cells: seq<Cell>, m: map<nat, nat>, key: nat)
    requires Shows(hash, cells, m) && key !in m
    ensures m - {key} == m
    ensures forall i | 0 <= i < |cells| :: !(cells[i].state.Used? && cells[i].key == key)
  {
    forall i | 0 <= i < |cells| ensures !(cells[i].state.Used? && cells[i].key == key) {
      assert Binds(cells, m, i);
    }
    assert m - {key} == m;
  }

  lemma FreeAtHome(hash: nat -> nat, cells: seq<Cell>, key: nat, at: nat)
    requires |cells| > 0 && FirstFree(hash, cells, key, at)
    requires !cells[Home(hash, |cells|, key)].state.Used?
    ensures at == Home(hash, |cells|, key)
  {
    var home := Home(hash, |cells|, key);
    assert Place(|cells|, home, 0) == home;
    var k :| 0 <= k < |cells| && FreeAfter(hash, cells, key, at, k);
  }

  function Identity(thread: nat): nat {
    thread
  }

  /** After as many short-lived threads as there are cells the map is empty and takes no
      thread any more. */
  method WornOut(capacity: nat) returns (m: Map, inserted: bool)
    requires capacity > 0
    ensures m.Valid() && m.contents == map[] && m.cells.Length == capacity && !inserted
    ensures !AnyEmpty(m.cells[..])
  {
    m := new Map(Identity, capacity);
    for i := 0 to capacity
      invariant fresh(m) && fresh(m.cells) && m.cells.Length == capacity
      invariant m.Valid() && m.contents == map[] && m.hash == Identity
      invariant forall j | 0 <= j < i :: m.cells[j].state.Deleted?
      invariant forall j | i <= j < capacity :: m.cells[j].state.Empty?
    {
      ghost var was := m.cells[..];
      assert was[i].state.Empty?;
      ghost var at;
      inserted, at := m.Put(i, 1);
      FreeAtHome(m.hash, was, i, at);
      m.Remove(i);
    }
    ghost var at;
    inserted, at := m.Put(capacity, 1);
  }
}
