/** The shared memory of synthetic_mstress_runtime.c, changed in place: the link, owner and
    pointer of every descriptor and the record of every worker. Every method is one access of
    stack_pop, stack_push, take_descriptor, local_remove, recycle_object or an allocator call
    and is proved to be a step of DescriptorProtocol that keeps descriptor ownership. */
module DescriptorMemory {
  import opened Wrappers
  import opened DescriptorProtocol
  import opened DescriptorOwnership

  class Memory {
    const ranges: seq<Range>
    const next: array<nat>
    const owner: array<nat>
    const pointer: array<nat>
    const workers: array<Worker>
    /** The allocator's objects. */
    var heap: set<nat>
    var failed: bool
    ghost var ledger: Ledger

    ghost function View(): State
      reads this, next, owner, pointer, workers
    {
      State(next[..], owner[..], pointer[..], heap, failed, workers[..])
    }

    ghost predicate Valid()
      reads this, next, owner, pointer, workers
    {
      && next != owner && next != pointer && owner != pointer
      && Tiling(ranges) && workers.Length == |ranges|
      && Inv(ranges, View(), ledger)
    }

    /** initialize_workers */
    constructor (ranges: seq<Range>)
      requires Tiling(ranges)
      ensures Valid() && View() == Initial(ranges) && this.ranges == ranges
      ensures fresh(next) && fresh(owner) && fresh(pointer) && fresh(workers)
    {
      this.ranges := ranges;
      next := new nat[Total(ranges)](_ => 0);
      owner := new nat[Total(ranges)](_ => 0);
      pointer := new nat[Total(ranges)](_ => 0);
      workers := new Worker[|ranges|](_ => Worker(Idle, 0, 0, [], Head(0, 0), Head(0, 0)));
      heap := {};
      failed := false;
      new;
      assert View() == Initial(ranges);
      ledger := InitialInv(ranges);
    }

    /** The step was one of the protocol's; ownership follows. */
    ghost method Account(before: State, w: nat)
      requires next != owner && next != pointer && owner != pointer
      requires Tiling(ranges) && workers.Length == |ranges| && w < |ranges|
      requires Inv(ranges, before, ledger) && |before.workers| == |ranges|
      requires StepOf(ranges, before, View(), w)
      modifies this`ledger
      ensures Valid()
    {
      assert Step(ranges, before, View());
      ledger := StepKeeps(ranges, before, View(), ledger);
    }

    /** take_descriptor, first branch. */
    method TakePrivateFirst(w: nat) returns (d: nat)
      requires Valid() && w < workers.Length && workers[w].control.Idle?
      requires 0 < workers[w].localFree <= next.Length
      modifies this`ledger, workers
      ensures Valid() && TakePrivate(old(View()), View(), w)
      ensures workers[w].control == Took(d)
    {
      ghost var before := View();
      d := workers[w].localFree - 1;
      workers[w] := workers[w].(localFree := next[d], control := Took(d));
      assert TakePrivate(before, View(), w);
      Account(before, w);
    }

    /** stack_pop: the load of the head. */
    method LoadHead(w: nat, kind: Kind)
      requires Valid() && w < workers.Length && workers[w].control.Idle?
      requires kind.Recycled? ==> workers[w].localFree == 0
      modifies this`ledger, workers
      ensures Valid() && PopLoad(old(View()), View(), w, kind)
    {
      ghost var before := View();
      var head := if kind.Recycled? then workers[w].recycled else workers[w].inbound;
      workers[w] := workers[w].(control := PopLoaded(kind, head));
      assert PopLoad(before, View(), w, kind);
      Account(before, w);
    }

    /** stack_pop finds the stack empty; take_descriptor then issues a fresh descriptor, or
        fails when the worker's range is used up. */
    method FindEmpty(w: nat)
      requires Valid() && w < workers.Length && workers[w].control.PopLoaded?
      requires workers[w].control.seen.plusOne == 0
      modifies this`ledger, this`failed, workers
      ensures Valid() && PopEmpty(ranges, old(View()), View(), w)
    {
      ghost var before := View();
      var me := workers[w];
      if me.control.kind.Inbound? {
        workers[w] := me.(control := Idle);
      } else if me.issued < ranges[w].capacity {
        workers[w] := me.(issued := me.issued + 1, control := Took(ranges[w].first + me.issued));
      } else {
        workers[w] := me.(control := Idle);
        failed := true;
      }
      assert PopEmpty(ranges, before, View(), w);
      Account(before, w);
    }

    /** stack_pop reads the link of the top descriptor. */
    method ReadLink(w: nat)
      requires Valid() && w < workers.Length && workers[w].control.PopLoaded?
      requires 0 < workers[w].control.seen.plusOne <= next.Length
      modifies this`ledger, workers
      ensures Valid() && PopReadLink(old(View()), View(), w)
    {
      ghost var before := View();
      var c := workers[w].control;
      workers[w] := workers[w].(control := PopRead(c.kind, c.seen, next[c.seen.plusOne - 1]));
      assert PopReadLink(before, View(), w);
      Account(before, w);
    }

    /** stack_pop's weak compare-and-swap; it may fail although the head is unchanged. */
    method TryPop(w: nat, spurious: bool) returns (popped: bool)
      requires Valid() && w < workers.Length && workers[w].control.PopRead?
      requires workers[w].control.seen.plusOne > 0
      modifies this`ledger, workers
      ensures Valid()
      ensures popped ==> PopSwap(old(View()), View(), w)
      ensures !popped ==> PopRetry(old(View()), View(), w)
    {
      ghost var before := View();
      var me := workers[w];
      var c := me.control;
      var head := if c.kind.Recycled? then me.recycled else me.inbound;
      popped := head == c.seen && !spurious;
      if popped {
        var d := c.seen.plusOne - 1;
        var replacement := Head((head.tag + 1) % TAGS, c.below);
        var taken := if c.kind.Recycled? then Took(d) else Freeing(d);
        workers[w] := if c.kind.Recycled? then me.(recycled := replacement, control := taken)
                      else me.(inbound := replacement, control := taken);
        assert PopSwap(before, View(), w);
      } else {
        workers[w] := me.(control := PopLoaded(c.kind, head));
        assert PopRetry(before, View(), w);
      }
      Account(before, w);
    }

    /** run_alloc_call on a taken descriptor: kept in the local array or sent off. */
    method StoreAllocation(w: nat, raw: nat, target: Option<nat>)
      requires Valid() && w < workers.Length && workers[w].control.Took?
      requires raw !in heap && (target.Some? ==> target.value < workers.Length)
      modifies this`ledger, this`heap, pointer, owner, workers
      ensures Valid() && Allocate(old(View()), View(), w, raw, target)
    {
      ghost var before := View();
      TakenInRange(before, w);
      var d := workers[w].control.d;
      heap := if raw == 0 then heap else heap + {raw};
      pointer[d] := raw;
      owner[d] := w;
      workers[w] := if target.Some? then
                      workers[w].(control := Pushing(target.value, Inbound, d))
                    else workers[w].(control := Idle, local := workers[w].local + [d]);
      assert Allocate(before, View(), w, raw, target);
      Account(before, w);
    }

    lemma TakenInRange(s: State, w: nat)
      requires Valid() && s == View() && w < workers.Length
      requires Held(workers[w].control).Some?
      ensures Held(workers[w].control).value < next.Length
      ensures next.Length == owner.Length == pointer.Length
    {
      assert WorkerOk(ranges, s, ledger, w);
    }

    /** run_alloc_call, the realloc of a local descriptor; a refusal keeps the object. */
    method StoreReallocation(w: nat, position: nat, raw: nat, refused: bool)
      requires Valid() && w < workers.Length && workers[w].control.Idle?
      requires position < |workers[w].local|
      requires var d := workers[w].local[position];
        d < pointer.Length && (!refused ==> raw !in heap - {pointer[d]})
      modifies this`ledger, this`heap, pointer
      ensures Valid() && Reallocate(old(View()), View(), w, position, raw, refused)
    {
      ghost var before := View();
      var d := workers[w].local[position];
      if !refused {
        heap := heap - {pointer[d]} + if raw == 0 then {} else {raw};
        pointer[d] := raw;
      }
      assert Reallocate(before, View(), w, position, raw, refused);
      Account(before, w);
    }

    /** local_remove: the last entry fills the hole. */
    method TakeLocal(w: nat, position: nat, after: Control)
      requires Valid() && w < workers.Length && workers[w].control.Idle?
      requires position < |workers[w].local| && workers[w].local[position] < pointer.Length
      requires var d := workers[w].local[position];
        || after == Freeing(d) || (after == Freed(d) && pointer[d] == 0)
        || (after.Pushing? && after.target < workers.Length
            && after == Pushing(after.target, Inbound, d))
      modifies this`ledger, workers
      ensures Valid() && RemoveLocal(old(View()), View(), w, position, after)
    {
      ghost var before := View();
      var local := workers[w].local;
      var count := |local| - 1;
      if position < count {
        local := local[position := local[count]];
      }
      assert local[..count] == LocalRemove(workers[w].local, position);
      workers[w] := workers[w].(local := local[..count], control := after);
      assert RemoveLocal(before, View(), w, position, after);
      Account(before, w);
    }

    /** run_free_call: the release. */
    method FreeObject(w: nat)
      requires Valid() && w < workers.Length && workers[w].control.Freeing?
      modifies this`ledger, this`heap, workers
      ensures Valid() && Free(old(View()), View(), w)
    {
      ghost var before := View();
      TakenInRange(before, w);
      var d := workers[w].control.d;
      heap := heap - {pointer[d]};
      workers[w] := workers[w].(control := Freed(d));
      assert Free(before, View(), w);
      Account(before, w);
    }

    /** recycle_object */
    method RecycleObject(w: nat)
      requires Valid() && w < workers.Length && workers[w].control.Freed?
      modifies this`ledger, next, pointer, workers
      ensures Valid() && Recycle(old(View()), View(), w)
    {
      ghost var before := View();
      TakenInRange(before, w);
      var d := workers[w].control.d;
      pointer[d] := 0;
      if owner[d] == w {
        next[d] := workers[w].localFree;
        workers[w] := workers[w].(localFree := d + 1, control := Idle);
      } else {
        workers[w] := workers[w].(control := Pushing(owner[d], Recycled, d));
      }
      assert Recycle(before, View(), w);
      Account(before, w);
    }

    /** stack_push: the load of the head, first or after a failed swap. */
    method LoadForPush(w: nat)
      requires Valid() && w < workers.Length
      requires workers[w].control.Pushing? || workers[w].control.PushLinked?
      requires workers[w].control.target < workers.Length
      modifies this`ledger, workers
      ensures Valid() && PushLoad(old(View()), View(), w)
    {
      ghost var before := View();
      var c := workers[w].control;
      var head := if c.kind.Recycled? then workers[c.target].recycled
                  else workers[c.target].inbound;
      workers[w] := workers[w].(control := PushLoaded(c.target, c.kind, c.d, head));
      assert PushLoad(before, View(), w);
      Account(before, w);
    }

    /** stack_push writes the link of the descriptor in hand. */
    method WriteLink(w: nat)
      requires Valid() && w < workers.Length && workers[w].control.PushLoaded?
      modifies this`ledger, next, workers
      ensures Valid() && PushLink(old(View()), View(), w)
    {
      ghost var before := View();
      TakenInRange(before, w);
      var c := workers[w].control;
      next[c.d] := c.seen.plusOne;
      workers[w] := workers[w].(control := PushLinked(c.target, c.kind, c.d, c.seen));
      assert PushLink(before, View(), w);
      Account(before, w);
    }

    /** stack_push's weak compare-and-swap; a failure reloads the head. */
    method TryPush(w: nat, spurious: bool) returns (pushed: bool)
      requires Valid() && w < workers.Length && workers[w].control.PushLinked?
      requires workers[w].control.target < workers.Length
      modifies this`ledger, workers
      ensures Valid()
      ensures pushed ==> PushSwap(old(View()), View(), w)
      ensures !pushed ==> PushLoad(old(View()), View(), w)
    {
      ghost var before := View();
      var c := workers[w].control;
      var head := if c.kind.Recycled? then workers[c.target].recycled
                  else workers[c.target].inbound;
      pushed := head == c.seen && !spurious;
      if pushed {
        var replacement := Head((head.tag + 1) % TAGS, c.d + 1);
        workers[w] := workers[w].(control := Idle);
        workers[c.target] := if c.kind.Recycled? then workers[c.target].(recycled := replacement)
                             else workers[c.target].(inbound := replacement);
        assert PushSwap(before, View(), w);
      } else {
        workers[w] := workers[w].(control := PushLoaded(c.target, c.kind, c.d, head));
        assert PushLoad(before, View(), w);
      }
      Account(before, w);
    }
  }
}
