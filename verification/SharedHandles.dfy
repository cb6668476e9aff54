/** My_shared_ptr as objects: handles that point at one counter and change it in place. */
module SharedHandles {
  import opened SharedPointer

  // The cell *ref_count.
  class Counter {
    var count: nat

    constructor (count: nat)
      ensures this.count == count
    {
      this.count := count;
    }
  }

  class Pointee {
    constructor () {
    }
  }

  ghost function Pointing(handles: set<SharedPtr>): map<SharedPtr, Pair<Pointee, Counter>>
    reads handles
  {
    map h | h in handles :: Pair(h.ptr, h.refCount)
  }

  ghost function Counting(counters: set<Counter>): map<Counter, nat>
    reads counters
  {
    map c | c in counters :: c.count
  }

  // The account of what new has given out and delete has taken back, and of the handles that are alive.
  class Heap {
    ghost var handles: set<SharedPtr>
    ghost var objects: Ledger<Pointee>
    ghost var counters: Ledger<Counter>

    constructor ()
      ensures Valid() && handles == {} && objects == Ledger({}, {}, []) && counters == Ledger({}, {}, [])
    {
      handles, objects, counters := {}, Ledger({}, {}, []), Ledger({}, {}, []);
    }

    ghost function View(): Memory<SharedPtr, Pointee, Counter>
      reads this, handles, counters.live
    {
      Memory(Pointing(handles), Counting(counters.live), objects, counters)
    }

    ghost predicate Valid()
      reads this, handles, counters.live
    {
      SharedPointer.Valid(View())
    }
  }

  lemma PointingMore(handles: set<SharedPtr>, h: SharedPtr)
    requires h !in handles
    ensures Pointing(handles + {h}) == Pointing(handles)[h := Pair(h.ptr, h.refCount)]
  {
  }

  lemma PointingLess(handles: set<SharedPtr>, h: SharedPtr)
    ensures Pointing(handles - {h}) == Pointing(handles) - {h}
  {
  }

  lemma CountingMore(counters: set<Counter>, c: Counter)
    requires c !in counters
    ensures Counting(counters + {c}) == Counting(counters)[c := c.count]
  {
  }

  lemma CountingLess(counters: set<Counter>, c: Counter)
    ensures Counting(counters - {c}) == Counting(counters) - {c}
  {
  }

  lemma HandlesOn(handles: set<SharedPtr>, p: Pointee)
    ensures Owners(Pointing(handles), p) == set h | h in handles && h.ptr == p
  {
  }

  ghost predicate SharedIn(handles: set<SharedPtr>, c: Counter)
    reads handles
  {
    exists h :: h in handles && h.refCount == c
  }

  class SharedPtr {
    var ptr: Pointee
    var refCount: Counter

    // The first handle on an object, with a counter of its own.
    constructor New(t: Pointee, heap: Heap)
      requires heap.Valid() && t !in heap.objects.used
      modifies heap
      ensures heap.Valid() && fresh(this) && heap.handles == old(heap.handles) + {this}
      ensures ptr == t && fresh(refCount) && refCount.count == 1
      ensures heap.objects == Allocate(old(heap.objects), t) && heap.counters == Allocate(old(heap.counters), refCount)
    {
      ptr := t;
      refCount := new Counter(1);
      new;
      Enter(heap);
    }

    ghost method Enter(heap: Heap)
      requires heap.Valid() && this !in heap.handles && ptr !in heap.objects.used && refCount !in heap.counters.used
      requires refCount.count == 1
      modifies heap
      ensures heap.Valid() && heap.handles == old(heap.handles) + {this}
      ensures heap.objects == Allocate(old(heap.objects), ptr)
      ensures heap.counters == Allocate(old(heap.counters), refCount)
    {
      ConstructKeeps(heap.View(), this, ptr, refCount);
      EnterNew(heap);
    }

    // The bookkeeping of the two allocations.
    ghost method EnterNew(heap: Heap)
      requires this !in heap.handles && refCount !in heap.counters.live && refCount.count == 1
      modifies heap
      ensures heap.handles == old(heap.handles) + {this}
      ensures heap.objects == Allocate(old(heap.objects), ptr)
      ensures heap.counters == Allocate(old(heap.counters), refCount)
      ensures heap.View() == Construct(old(heap.View()), this, ptr, refCount)
    {
      PointingMore(heap.handles, this);
      CountingMore(heap.counters.live, refCount);
      heap.handles := heap.handles + {this};
      heap.objects := Allocate(heap.objects, ptr);
      heap.counters := Allocate(heap.counters, refCount);
    }

    // One more handle on what another one points at. Nothing but its count changes.
    constructor Copy(other: SharedPtr, heap: Heap)
      requires heap.Valid() && other in heap.handles
      modifies heap`handles, other.refCount
      ensures heap.Valid() && fresh(this) && heap.handles == old(heap.handles) + {this}
      ensures ptr == other.ptr && refCount == other.refCount
      ensures refCount.count == old(other.refCount.count) + 1
    {
      ptr, refCount := other.ptr, other.refCount;
      new;
      EnterCopy(other, heap);
    }

    method EnterCopy(other: SharedPtr, heap: Heap)
      requires heap.Valid() && other in heap.handles && this !in heap.handles
      requires ptr == other.ptr && refCount == other.refCount
      modifies heap`handles, refCount
      ensures heap.Valid() && heap.handles == old(heap.handles) + {this}
      ensures refCount.count == old(refCount.count) + 1
    {
      ghost var before := heap.View();
      other.PointsToLive(heap);
      CopyKeeps(before, this, other);
      RaiseCount(other, heap);
    }

    lemma PointsToLive(heap: Heap)
      requires heap.Valid() && this in heap.handles
      ensures refCount in heap.counters.live && refCount.count > 0 && ptr in heap.objects.live
    {
      var m := heap.View();
      assert m.handles[this] == Pair(ptr, refCount);
      CountIsPositive(m, this);
    }

    method RaiseCount(other: SharedPtr, heap: Heap)
      requires other in heap.handles && this !in heap.handles && refCount in heap.counters.live
      requires ptr == other.ptr && refCount == other.refCount
      modifies heap`handles, refCount
      ensures heap.handles == old(heap.handles) + {this} && refCount.count == old(refCount.count) + 1
      ensures Done(heap.View()) == CopyOf(old(heap.View()), this, other)
    {
      refCount.count := refCount.count + 1;
      assert Counting(heap.counters.live) == old(Counting(heap.counters.live))[refCount := refCount.count];
      PointingMore(heap.handles, this);
      heap.handles := heap.handles + {this};
    }

    method ReduceRef(heap: Heap)
      requires refCount in heap.counters.live && refCount.count > 0
      requires refCount.count == 1 ==> ptr in heap.objects.live
      modifies refCount, heap`objects
      ensures refCount.count == old(refCount.count) - 1
      ensures heap.objects == if refCount.count == 0 then Delete(old(heap.objects), ptr) else old(heap.objects)
    {
      refCount.count := refCount.count - 1;
      if refCount.count == 0 {
        heap.objects := Delete(heap.objects, ptr);
      }
    }

    // The statements of the destructor, where they touch nothing that is not live.
    method LowerCount(heap: Heap)
      requires this in heap.handles && refCount in heap.counters.live && refCount.count > 0
      requires refCount.count == 1 ==> ptr in heap.objects.live
      modifies heap, refCount
      ensures heap.handles == old(heap.handles) - {this} && refCount.count == old(refCount.count) - 1
      ensures heap.objects == if refCount.count == 0 then Delete(old(heap.objects), ptr) else old(heap.objects)
      ensures heap.counters == if refCount.count == 0 then Delete(old(heap.counters), refCount) else old(heap.counters)
      ensures DestroyOf(old(heap.View()), this) == Done(heap.View())
    {
      ghost var before, live := heap.View(), heap.counters.live;
      var left := refCount.count;
      ReduceRef(heap);
      assert Counting(live) == before.counts[refCount := left - 1];
      if left == 1 {
        CountingLess(live, refCount);
        assert Counting(live) - {refCount} == before.counts - {refCount};
        heap.counters := Delete(heap.counters, refCount);
      }
      PointingLess(heap.handles, this);
      heap.handles := heap.handles - {this};
      DestroyGives(before, this, heap.View());
    }

    lemma CountTellsTheLast(heap: Heap)
      requires heap.Valid() && this in heap.handles
      ensures refCount in heap.counters.live
      ensures refCount.count > 1 <==> SharedIn(heap.handles - {this}, refCount)
    {
      var m := heap.View();
      assert m.handles[this] == Pair(ptr, refCount);
      CountIsPositive(m, this);
      OnlySharer(m, this);
      if h :| h in heap.handles - {this} && h.refCount == refCount {
        assert m.handles[h].refCount == refCount;
      } else {
        assert forall h | h in m.handles && h != this :: m.handles[h].refCount != refCount;
      }
    }

    // The destructor. The object and the counter are deleted exactly when no other handle shares them.
    method Destroy(heap: Heap)
      requires heap.Valid() && this in heap.handles
      modifies heap, refCount
      ensures heap.Valid() && heap.handles == old(heap.handles) - {this}
      ensures refCount.count == old(refCount.count) - 1
      ensures if old(SharedIn(heap.handles - {this}, refCount))
              then heap.objects == old(heap.objects) && heap.counters == old(heap.counters)
              else heap.objects == Delete(old(heap.objects), ptr) &&
                   heap.counters == Delete(old(heap.counters), refCount)
    {
      PointsToLive(heap);
      CountTellsTheLast(heap);
      DestroyKeeps(heap.View(), this);
      LowerCount(heap);
    }

    method UseCount(heap: Heap) returns (n: nat)
      requires heap.Valid() && this in heap.handles
      ensures n == |set h | h in heap.handles && h.ptr == ptr| > 0
    {
      CountIsOwners(heap);
      HandlesOn(heap.handles, ptr);
      n := refCount.count;
    }

    lemma CountIsOwners(heap: Heap)
      requires heap.Valid() && this in heap.handles
      ensures refCount.count == |Owners(Pointing(heap.handles), ptr)| > 0
    {
      var m := heap.View();
      assert m.handles[this] == Pair(ptr, refCount);
      CountIsPositive(m, this);
      ValidMeans(m);
    }
  }
}
