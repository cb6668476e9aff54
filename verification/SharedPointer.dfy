/** My_shared_ptr: handles that share a heap-allocated counter, and who frees what when.

    H names handles, P objects and C counters. A P or C stands for one allocation: it is never given out twice. */
module SharedPointer {

  datatype Pair<P, C> = Pair(ptr: P, refCount: C)

  // Everything new has given out, what of it is live, and every delete so far.
  datatype Ledger<!T> = Ledger(used: set<T>, live: set<T>, deleted: seq<T>)

  // The live handles, the value of each live counter, and the two ledgers.
  datatype Memory<!H, !P, !C> = Memory(handles: map<H, Pair<P, C>>, counts: map<C, nat>,
                                       objects: Ledger<P>, counters: Ledger<C>)

  ghost function Sharers<H, P, C>(handles: map<H, Pair<P, C>>, c: C): set<H> {
    set h | h in handles && handles[h].refCount == c
  }

  ghost function Owners<H, P, C>(handles: map<H, Pair<P, C>>, p: P): set<H> {
    set h | h in handles && handles[h].ptr == p
  }

  // Handles point at what is live, and share a counter exactly when they share an object.
  ghost predicate PointsToLive<H, P, C>(m: Memory<H, P, C>) {
    && (forall h | h in m.handles :: m.handles[h].refCount in m.counters.live && m.handles[h].ptr in m.objects.live)
    && (forall h, k | h in m.handles && k in m.handles ::
          m.handles[h].refCount == m.handles[k].refCount <==> m.handles[h].ptr == m.handles[k].ptr)
  }

  ghost predicate Owned<H, P, C>(handles: map<H, Pair<P, C>>, p: P) {
    exists h :: h in handles && handles[h].ptr == p
  }

  // No object is live without a handle on it.
  ghost predicate AllOwned<H, P, C>(m: Memory<H, P, C>) {
    forall p | p in m.objects.live :: Owned(m.handles, p)
  }

  // Each live counter is the number of live handles that share it, and is not zero.
  ghost predicate Counted<H, P, C>(m: Memory<H, P, C>) {
    && m.counts.Keys == m.counters.live
    && forall c | c in m.counts :: m.counts[c] == |Sharers(m.handles, c)| > 0
  }

  // Every allocation is live, or has been deleted once.
  ghost predicate Logged<T>(l: Ledger<T>) {
    && (forall a | a in l.used :: a in l.live || a in l.deleted)
    && (forall a | a in l.live :: a in l.used && a !in l.deleted)
    && (forall a | a in l.deleted :: a in l.used)
    && (forall i, j | 0 <= i < j < |l.deleted| :: l.deleted[i] != l.deleted[j])
  }

  ghost predicate Valid<H, P, C>(m: Memory<H, P, C>) {
    PointsToLive(m) && AllOwned(m) && Counted(m) && Logged(m.objects) && Logged(m.counters)
  }

  function Allocate<T>(l: Ledger<T>, a: T): Ledger<T> {
    Ledger(l.used + {a}, l.live + {a}, l.deleted)
  }

  function Delete<T>(l: Ledger<T>, a: T): Ledger<T> {
    Ledger(l.used, l.live - {a}, l.deleted + [a])
  }

  datatype Op<H, P, C> = New(h: H, ptr: P, refCount: C) | Copy(h: H, other: H) | Destroy(h: H)

  // new T and new size_t give two allocations never given out before; a constructed handle is a new one; only
  // live handles are copied and destroyed.
  ghost predicate Allowed<H, P, C>(m: Memory<H, P, C>, op: Op<H, P, C>) {
    match op
    case New(h, p, c) => h !in m.handles && p !in m.objects.used && c !in m.counters.used
    case Copy(h, k) => h !in m.handles && k in m.handles
    case Destroy(h) => h in m.handles
  }

  // Fault: a counter is used, or an object or counter deleted, that is not live.
  datatype Outcome<!H, !P, !C> = Fault | Done(memory: Memory<H, P, C>)

  ghost function Construct<H, P, C>(m: Memory<H, P, C>, h: H, p: P, c: C): Memory<H, P, C> {
    Memory(m.handles[h := Pair(p, c)], m.counts[c := 1], Allocate(m.objects, p), Allocate(m.counters, c))
  }

  ghost function CopyOf<H, P, C>(m: Memory<H, P, C>, h: H, k: H): Outcome<H, P, C>
    requires k in m.handles
  {
    var c := m.handles[k].refCount;
    if c !in m.counts then Fault
    else Done(m.(handles := m.handles[h := m.handles[k]], counts := m.counts[c := m.counts[c] + 1]))
  }

  // The destructor: the object goes when the count reaches zero, then the counter itself when it had been one.
  ghost function DestroyOf<H, P, C>(m: Memory<H, P, C>, h: H): Outcome<H, P, C>
    requires h in m.handles
  {
    var me := m.handles[h];
    if me.refCount !in m.counts || m.counts[me.refCount] == 0 then Fault
    else
      var left := m.counts[me.refCount];
      var m1 := m.(counts := m.counts[me.refCount := left - 1], handles := m.handles - {h});
      if left > 1 then Done(m1)
      else if me.ptr !in m1.objects.live || me.refCount !in m1.counters.live then Fault
      else Done(m1.(objects := Delete(m1.objects, me.ptr), counts := m1.counts - {me.refCount},
                    counters := Delete(m1.counters, me.refCount)))
  }

  // The destructor's result, field by field.
  lemma DestroyGives<H, P, C>(m: Memory<H, P, C>, h: H, n: Memory<H, P, C>)
    requires h in m.handles && m.handles[h].refCount in m.counts && m.counts[m.handles[h].refCount] > 0
    requires m.counts[m.handles[h].refCount] == 1 ==>
               m.handles[h].ptr in m.objects.live && m.handles[h].refCount in m.counters.live
    requires n.handles == m.handles - {h}
    requires var me := m.handles[h];
             if m.counts[me.refCount] == 1
             then n.counts == m.counts - {me.refCount} && n.objects == Delete(m.objects, me.ptr) &&
                  n.counters == Delete(m.counters, me.refCount)
             else n.counts == m.counts[me.refCount := m.counts[me.refCount] - 1] && n.objects == m.objects &&
                  n.counters == m.counters
    ensures DestroyOf(m, h) == Done(n)
  {
    var me := m.handles[h];
    assert m.counts[me.refCount := m.counts[me.refCount] - 1] - {me.refCount} == m.counts - {me.refCount};
  }

  ghost function Apply<H, P, C>(m: Memory<H, P, C>, op: Op<H, P, C>): Outcome<H, P, C>
    requires Allowed(m, op)
  {
    match op
    case New(h, p, c) => Done(Construct(m, h, p, c))
    case Copy(h, k) => CopyOf(m, h, k)
    case Destroy(h) => DestroyOf(m, h)
  }

  /* ---- Ledgers. ---- */

  lemma AllocateLogs<T>(l: Ledger<T>, a: T)
    requires Logged(l) && a !in l.used
    ensures Logged(Allocate(l, a))
  {
  }

  lemma DeleteLogs<T>(l: Ledger<T>, a: T)
    requires Logged(l) && a in l.live
    ensures Logged(Delete(l, a))
  {
    var n := Delete(l, a);
    assert n.deleted[|l.deleted|] == a;
    assert forall b | b in l.deleted :: b in n.deleted;
  }

  /* ---- How an operation on a handle changes who shares a counter. ---- */

  lemma SharersGain<H, P, C>(before: map<H, Pair<P, C>>, h: H, to: Pair<P, C>, c: C)
    requires h !in before
    ensures Sharers(before[h := to], c) == if to.refCount == c then Sharers(before, c) + {h} else Sharers(before, c)
    ensures |Sharers(before[h := to], c)| == |Sharers(before, c)| + if to.refCount == c then 1 else 0
  {
    var after := before[h := to];
    assert forall k | k in before :: k in after && after[k] == before[k];
    if to.refCount == c {
      assert Sharers(after, c) == Sharers(before, c) + {h};
    } else {
      assert Sharers(after, c) == Sharers(before, c);
    }
  }

  lemma SharersLose<H, P, C>(before: map<H, Pair<P, C>>, h: H, c: C)
    requires h in before
    ensures Sharers(before - {h}, c) == Sharers(before, c) - {h}
    ensures |Sharers(before - {h}, c)| == |Sharers(before, c)| - if before[h].refCount == c then 1 else 0
  {
    assert Sharers(before - {h}, c) == Sharers(before, c) - {h};
    assert before[h].refCount == c <==> h in Sharers(before, c);
  }

  lemma GainOwns<H, P, C>(m: Memory<H, P, C>, n: Memory<H, P, C>, h: H)
    requires AllOwned(m) && h !in m.handles && h in n.handles && n.handles == m.handles[h := n.handles[h]]
    requires forall p | p in n.objects.live :: p in m.objects.live || p == n.handles[h].ptr
    ensures AllOwned(n)
  {
    forall p | p in n.objects.live ensures Owned(n.handles, p) {
      if p == n.handles[h].ptr {
        assert Owned(n.handles, p);
      } else {
        var k :| k in m.handles && m.handles[k].ptr == p;
        assert n.handles[k].ptr == p;
      }
    }
  }

  /* ---- Each operation keeps the account. ---- */

  lemma ConstructKeeps<H, P, C>(m: Memory<H, P, C>, h: H, p: P, c: C)
    requires Valid(m) && Allowed(m, New(h, p, c))
    ensures Valid(Construct(m, h, p, c))
  {
    GainOwns(m, Construct(m, h, p, c), h);
    AllocateLogs(m.objects, p);
    AllocateLogs(m.counters, c);
    ConstructCounts(m, h, p, c);
    ConstructPoints(m, h, p, c);
  }

  lemma ConstructPoints<H, P, C>(m: Memory<H, P, C>, h: H, p: P, c: C)
    requires PointsToLive(m) && h !in m.handles && p !in m.objects.live && c !in m.counters.live
    ensures PointsToLive(Construct(m, h, p, c))
  {
  }

  lemma ConstructCounts<H, P, C>(m: Memory<H, P, C>, h: H, p: P, c: C)
    requires PointsToLive(m) && Counted(m) && h !in m.handles && c !in m.counters.live
    ensures Counted(Construct(m, h, p, c))
  {
    var n := Construct(m, h, p, c);
    forall q | q in n.counts ensures n.counts[q] == |Sharers(n.handles, q)| > 0 {
      SharersGain(m.handles, h, Pair(p, c), q);
      assert q == c ==> Sharers(m.handles, q) == {};
    }
  }

  lemma CopyKeeps<H, P, C>(m: Memory<H, P, C>, h: H, k: H)
    requires Valid(m) && Allowed(m, Copy(h, k))
    ensures CopyOf(m, h, k).Done? && Valid(CopyOf(m, h, k).memory)
  {
    CopyCounts(m, h, k);
    CopyPoints(m, h, k);
    GainOwns(m, CopyOf(m, h, k).memory, h);
  }

  lemma CopyPoints<H, P, C>(m: Memory<H, P, C>, h: H, k: H)
    requires PointsToLive(m) && CopyOfIsDefined(m, h, k)
    ensures PointsToLive(CopyOf(m, h, k).memory)
  {
  }

  ghost predicate CopyOfIsDefined<H, P, C>(m: Memory<H, P, C>, h: H, k: H) {
    k in m.handles && h !in m.handles && m.handles[k].refCount in m.counts
  }

  lemma CopyCounts<H, P, C>(m: Memory<H, P, C>, h: H, k: H)
    requires PointsToLive(m) && Counted(m) && h !in m.handles && k in m.handles
    ensures CopyOfIsDefined(m, h, k) && Counted(CopyOf(m, h, k).memory)
  {
    var n := CopyOf(m, h, k).memory;
    forall q | q in n.counts ensures n.counts[q] == |Sharers(n.handles, q)| > 0 {
      SharersGain(m.handles, h, m.handles[k], q);
    }
  }

  // With other handles on the same counter, only the count goes down.
  lemma DestroyOneOfMany<H, P, C>(m: Memory<H, P, C>, h: H)
    requires Valid(m) && h in m.handles && m.counts[m.handles[h].refCount] > 1
    ensures DestroyOf(m, h).Done? && Valid(DestroyOf(m, h).memory)
    ensures DestroyOf(m, h).memory.objects == m.objects && DestroyOf(m, h).memory.counters == m.counters
  {
    var n := DestroyOf(m, h).memory;
    OneLessCounts(m, h, n);
    OneLessOwns(m, h, n);
  }

  lemma OneLessCounts<H, P, C>(m: Memory<H, P, C>, h: H, n: Memory<H, P, C>)
    requires PointsToLive(m) && Counted(m) && h in m.handles && m.counts[m.handles[h].refCount] > 1
    requires n.handles == m.handles - {h} && n.counters == m.counters
    requires n.counts == m.counts[m.handles[h].refCount := m.counts[m.handles[h].refCount] - 1]
    ensures Counted(n)
  {
    forall q | q in n.counts ensures n.counts[q] == |Sharers(n.handles, q)| > 0 {
      SharersLose(m.handles, h, q);
    }
  }

  lemma OneLessOwns<H, P, C>(m: Memory<H, P, C>, h: H, n: Memory<H, P, C>)
    requires PointsToLive(m) && AllOwned(m) && Counted(m) && h in m.handles && m.counts[m.handles[h].refCount] > 1
    requires n.handles == m.handles - {h} && n.objects == m.objects
    ensures AllOwned(n)
  {
    SharersLose(m.handles, h, m.handles[h].refCount);
    var other :| other in Sharers(n.handles, m.handles[h].refCount);
    forall p | p in n.objects.live ensures Owned(n.handles, p) {
      var k :| k in m.handles && m.handles[k].ptr == p;
      assert n.handles[if k == h then other else k].ptr == p;
    }
  }

  // The last handle on a counter takes its object and the counter with it.
  lemma DestroyTheLast<H, P, C>(m: Memory<H, P, C>, h: H)
    requires Valid(m) && h in m.handles && m.counts[m.handles[h].refCount] == 1
    ensures DestroyOf(m, h).Done? && Valid(DestroyOf(m, h).memory)
    ensures var me, n := m.handles[h], DestroyOf(m, h).memory;
            n.objects == Delete(m.objects, me.ptr) && n.counters == Delete(m.counters, me.refCount)
  {
    var n := DestroyOf(m, h).memory;
    var me := m.handles[h];
    OnlySharer(m, h);
    LastCounts(m, h, n);
    LastOwns(m, h, n);
    DeleteLogs(m.objects, me.ptr);
    DeleteLogs(m.counters, me.refCount);
  }

  ghost predicate IsOnlyOne<H, P, C>(m: Memory<H, P, C>, h: H) {
    h in m.handles && forall k | k in m.handles && k != h ::
      m.handles[k].refCount != m.handles[h].refCount && m.handles[k].ptr != m.handles[h].ptr
  }

  // The count of a handle is one exactly when no other handle shares it.
  lemma OnlySharer<H, P, C>(m: Memory<H, P, C>, h: H)
    requires PointsToLive(m) && Counted(m) && h in m.handles
    ensures m.counts[m.handles[h].refCount] == 1 <==> IsOnlyOne(m, h)
  {
    var c := m.handles[h].refCount;
    SharersLose(m.handles, h, c);
    var others := Sharers(m.handles - {h}, c);
    assert others == {} <==> forall k | k in m.handles && k != h :: m.handles[k].refCount != c by {
      forall k | k in m.handles && k != h && m.handles[k].refCount == c ensures k in others {
      }
    }
  }

  lemma LastCounts<H, P, C>(m: Memory<H, P, C>, h: H, n: Memory<H, P, C>)
    requires PointsToLive(m) && Counted(m) && h in m.handles && n.handles == m.handles - {h}
    requires n.counts == m.counts - {m.handles[h].refCount} && n.counters.live == n.counts.Keys
    ensures Counted(n)
  {
    forall q | q in n.counts ensures n.counts[q] == |Sharers(n.handles, q)| > 0 {
      SharersLose(m.handles, h, q);
    }
  }

  lemma LastOwns<H, P, C>(m: Memory<H, P, C>, h: H, n: Memory<H, P, C>)
    requires PointsToLive(m) && AllOwned(m) && IsOnlyOne(m, h) && n.handles == m.handles - {h}
    requires n.counters.live == m.counters.live - {m.handles[h].refCount}
    requires n.objects.live == m.objects.live - {m.handles[h].ptr}
    ensures PointsToLive(n) && AllOwned(n)
  {
    forall p | p in n.objects.live ensures Owned(n.handles, p) {
      var k :| k in m.handles && m.handles[k].ptr == p;
      assert n.handles[k].ptr == p;
    }
  }

  lemma DestroyKeeps<H, P, C>(m: Memory<H, P, C>, h: H)
    requires Valid(m) && h in m.handles
    ensures DestroyOf(m, h).Done? && Valid(DestroyOf(m, h).memory)
  {
    CountIsPositive(m, h);
    if m.counts[m.handles[h].refCount] > 1 {
      DestroyOneOfMany(m, h);
    } else {
      DestroyTheLast(m, h);
    }
  }

  lemma CountIsPositive<H, P, C>(m: Memory<H, P, C>, h: H)
    requires PointsToLive(m) && Counted(m) && h in m.handles
    ensures m.handles[h].refCount in m.counts && m.counts[m.handles[h].refCount] > 0
  {
  }

  // No operation ever touches or deletes what is not live, and all of them keep the account.
  lemma ApplyKeeps<H, P, C>(m: Memory<H, P, C>, op: Op<H, P, C>)
    requires Valid(m) && Allowed(m, op)
    ensures Apply(m, op).Done? && Valid(Apply(m, op).memory)
  {
    match op
    case New(h, p, c) =>
      ConstructKeeps(m, h, p, c);
      assert Apply(m, op) == Done(Construct(m, h, p, c));
    case Copy(h, k) =>
      CopyKeeps(m, h, k);
      assert Apply(m, op) == CopyOf(m, h, k);
    case Destroy(h) =>
      DestroyKeeps(m, h);
      assert Apply(m, op) == DestroyOf(m, h);
  }

  // operator= drops the old count but does not raise the new one, and never deletes the old counter.
  ghost function AssignOf<H, P, C>(m: Memory<H, P, C>, h: H, k: H): Outcome<H, P, C>
    requires h in m.handles && k in m.handles
  {
    var me, other := m.handles[h], m.handles[k];
    if other.refCount == me.refCount then Done(m)
    else if me.refCount !in m.counts || m.counts[me.refCount] == 0 then Fault
    else
      var left := m.counts[me.refCount];
      var m1 := m.(counts := m.counts[me.refCount := left - 1], handles := m.handles[h := other]);
      if left - 1 > 0 then Done(m1)
      else if me.ptr !in m1.objects.live then Fault
      else Done(m1.(objects := Delete(m1.objects, me.ptr)))
  }

  // So the account stays right exactly when assignment has nothing to do.
  lemma AssignKeepsOnlyShared<H, P, C>(m: Memory<H, P, C>, h: H, k: H)
    requires Valid(m) && h in m.handles && k in m.handles
    ensures AssignOf(m, h, k).Done?
    ensures Valid(AssignOf(m, h, k).memory) <==> m.handles[h].refCount == m.handles[k].refCount
  {
    var c := m.handles[k].refCount;
    if m.handles[h].refCount != c {
      var n := AssignOf(m, h, k).memory;
      assert Sharers(n.handles, c) == Sharers(m.handles, c) + {h};
      assert n.counts[c] == |Sharers(m.handles, c)| < |Sharers(n.handles, c)|;
    }
  }

  /* ---- Runs. ---- */

  ghost predicate IsEmpty<H, P, C>(m: Memory<H, P, C>) {
    m == Memory(map[], map[], Ledger({}, {}, []), Ledger({}, {}, []))
  }

  ghost predicate IsRun<H, P, C>(run: seq<Memory<H, P, C>>, ops: seq<Op<H, P, C>>) {
    && |run| == |ops| + 1 && IsEmpty(run[0])
    && forall i | 0 <= i < |ops| :: Allowed(run[i], ops[i]) && Apply(run[i], ops[i]) == Done(run[i + 1])
  }

  lemma {:induction false} RunIsValid<H, P, C>(run: seq<Memory<H, P, C>>, ops: seq<Op<H, P, C>>)
    requires IsRun(run, ops)
    ensures Valid(run[|ops|])
  {
    if ops != [] {
      var n := |ops| - 1;
      RunIsValid(run[..n + 1], ops[..n]);
      ApplyKeeps(run[n], ops[n]);
    }
  }

  // What a valid account says: the count of a handle is the number of handles on its object, nothing has been
  // deleted twice, and when no handle is left everything has been deleted.
  lemma ValidMeans<H, P, C>(m: Memory<H, P, C>)
    requires Valid(m)
    ensures forall h | h in m.handles ::
              m.handles[h].ptr in m.objects.live && m.handles[h].refCount in m.counters.live &&
              m.counts[m.handles[h].refCount] == |Owners(m.handles, m.handles[h].ptr)|
    ensures forall i, j | 0 <= i < j < |m.objects.deleted| :: m.objects.deleted[i] != m.objects.deleted[j]
    ensures forall i, j | 0 <= i < j < |m.counters.deleted| :: m.counters.deleted[i] != m.counters.deleted[j]
    ensures m.handles == map[] ==> m.objects.live == {} && m.counters.live == {}
    ensures m.handles == map[] ==> forall p | p in m.objects.used :: p in m.objects.deleted
    ensures m.handles == map[] ==> forall c | c in m.counters.used :: c in m.counters.deleted
  {
    forall h | h in m.handles
      ensures Sharers(m.handles, m.handles[h].refCount) == Owners(m.handles, m.handles[h].ptr)
    {
    }
    if m.handles == map[] {
      assert forall c | c in m.counts :: Sharers(m.handles, c) == {};
      assert forall p | p in m.objects.live :: !Owned(m.handles, p);
    }
  }

  // So over any run of constructions, copies and destructions.
  lemma CountsAreRight<H, P, C>(run: seq<Memory<H, P, C>>, ops: seq<Op<H, P, C>>)
    requires IsRun(run, ops)
    ensures var m := run[|ops|];
            && (forall h | h in m.handles :: m.handles[h].ptr in m.objects.live && m.handles[h].refCount in m.counts &&
                  m.counts[m.handles[h].refCount] == |Owners(m.handles, m.handles[h].ptr)|)
            && (forall i, j | 0 <= i < j < |m.objects.deleted| :: m.objects.deleted[i] != m.objects.deleted[j])
            && (forall i, j | 0 <= i < j < |m.counters.deleted| :: m.counters.deleted[i] != m.counters.deleted[j])
            && (m.handles == map[] ==> m.objects.live == {} && m.counters.live == {})
  {
    RunIsValid(run, ops);
    ValidMeans(run[|ops|]);
  }
}
