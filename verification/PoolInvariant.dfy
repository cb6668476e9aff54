/** What every step of the worker pool keeps, and the memory safety that follows.

    The ghost `chain` is the list of nodes reachable from first. */
module PoolInvariant {
  import opened Tally
  import opened WorkerPool

  predicate Critical(pc: Pc) {
    pc.PutLocked? || pc.PutLinked? || pc.PutTailed? || pc.PutCounted? ||
    pc.Checking? || pc.Claimed? || pc.Picked? || pc.Detached?
  }

  // The thread holds a node that no other thread and no list can reach.
  predicate HasNode(pc: Pc) {
    pc.Prepared? || pc.PutLocked? || pc.Detached? || pc.Unlocked? || pc.Read?
  }

  // The critical section has changed the list but not yet the counter, or the other way round.
  predicate Lagging(pc: Pc) {
    pc.PutLinked? || pc.PutTailed? || pc.Claimed? || pc.Picked?
  }

  ghost predicate Exclusive(s: State) {
    && (s.mutex.HeldBy? ==> s.mutex.thread < |s.pcs|)
    && forall t | 0 <= t < |s.pcs| :: Critical(s.pcs[t]) <==> s.mutex == HeldBy(t)
  }

  ghost predicate Distinct(chain: seq<Addr>) {
    forall i, j | 0 <= i < j < |chain| :: chain[i] != chain[j]
  }

  // No node has two owners among the list and the threads, and every owned node is live.
  ghost predicate Owned(s: State, chain: seq<Addr>) {
    && 0 !in s.heap
    && Distinct(chain)
    && (forall i | 0 <= i < |chain| :: chain[i] in s.heap)
    && (forall t | 0 <= t < |s.pcs| && HasNode(s.pcs[t]) ::
          s.pcs[t].node in s.heap && s.pcs[t].node !in chain)
    && (forall t, u | 0 <= t < u < |s.pcs| && HasNode(s.pcs[t]) && HasNode(s.pcs[u]) ::
          s.pcs[t].node != s.pcs[u].node)
  }

  // Every live node has an owner.
  ghost predicate NoLeak(s: State, chain: seq<Addr>) {
    forall a | a in s.heap :: a in chain || HeldBySome(s.pcs, a)
  }

  ghost predicate HeldBySome(pcs: seq<Pc>, a: Addr) {
    exists t | 0 <= t < |pcs| :: HasNode(pcs[t]) && pcs[t].node == a
  }

  function After(chain: seq<Addr>, i: nat): Addr {
    if i + 1 < |chain| then chain[i + 1] else 0
  }

  ghost predicate Linked(s: State, chain: seq<Addr>) {
    && (forall i | 0 <= i < |chain| :: chain[i] in s.heap &&
          s.heap[chain[i]].next == After(chain, i))
    && (forall t | 0 <= t < |s.pcs| && (s.pcs[t].Prepared? || s.pcs[t].PutLocked?) ::
          s.pcs[t].node in s.heap && s.heap[s.pcs[t].node].next == 0)
    && (forall t | 0 <= t < |s.pcs| && s.pcs[t].Read? ::
          s.pcs[t].node in s.heap && s.heap[s.pcs[t].node].sock == s.pcs[t].sock)
  }

  function Ends(chain: seq<Addr>): (Addr, Addr) {
    if chain == [] then (0, 0) else (chain[0], chain[|chain| - 1])
  }

  function Holder(s: State): Pc {
    if s.mutex.HeldBy? && s.mutex.thread < |s.pcs| then s.pcs[s.mutex.thread] else Accepting
  }

  // What first, last and length say, given what the lock holder is in the middle of.
  ghost predicate Fields(s: State, chain: seq<Addr>) {
    var pc := Holder(s);
    && s.first == Ends(chain).0
    && (if pc.PutLinked? then pc.node == Ends(chain).1 else s.last == Ends(chain).1)
    && s.length == |chain| - (if Lagging(pc) then 1 else 0) >= 0
    && (pc.Picked? ==> pc.node == s.first)
  }

  // A thread that will look at the queue again, or will wake one that does.
  function Credit(pc: Pc): nat {
    if pc.PutCounted? || pc.Signalling? || pc.Woken? || pc.Checking? then 1 else 0
  }

  predicate NoLostWakeup(s: State) {
    SomeoneSleeps(s) ==> s.length <= Sum(Credit, s.pcs)
  }

  ghost predicate Inv(s: State, chain: seq<Addr>) {
    Exclusive(s) && Owned(s, chain) && NoLeak(s, chain) && Linked(s, chain) && Fields(s, chain) && NoLostWakeup(s)
  }

  function ChainAfter(s: State, chain: seq<Addr>, m: Move): seq<Addr> {
    if m.Spurious? || m.thread >= |s.pcs| then chain
    else match s.pcs[m.thread]
      case PutLocked(n) => chain + [n]
      case Picked(_) => if chain == [] then [] else chain[1..]
      case _ => chain
  }

  /* ---- Preservation, one kind of step at a time. ---- */

  // The step leaves the heap alone, and its thread keeps the node it held.
  ghost predicate Quiet(s: State, t: nat, s': State) {
    && t < |s.pcs| == |s'.pcs| && s'.heap == s.heap
    && s'.pcs == s.pcs[t := s'.pcs[t]]
    && var pc, pc' := s.pcs[t], s'.pcs[t];
    && HasNode(pc) == HasNode(pc')
    && (HasNode(pc) ==> pc.node == pc'.node)
    && ((pc'.Prepared? || pc'.PutLocked?) ==> (pc.Prepared? || pc.PutLocked?))
    && (pc'.Read? ==> pc'.node in s.heap && s.heap[pc'.node].sock == pc'.sock)
  }

  // Nodes that stay live keep an owner when thread t passes on what it held, or gives it to the list.
  lemma KeepsOwners(s: State, chain: seq<Addr>, t: nat, s': State, chain': seq<Addr>)
    requires t < |s.pcs| == |s'.pcs| && NoLeak(s, chain) && s'.pcs == s.pcs[t := s'.pcs[t]]
    requires forall a | a in s'.heap && a !in s.heap :: HeldBySome(s'.pcs, a)
    requires forall a | a in chain && a in s'.heap :: a in chain' || HeldBySome(s'.pcs, a)
    requires HasNode(s.pcs[t]) && s.pcs[t].node in s'.heap ==>
               s.pcs[t].node in chain' || (HasNode(s'.pcs[t]) && s'.pcs[t].node == s.pcs[t].node)
    ensures NoLeak(s', chain')
  {
    forall a | a in s'.heap && a in s.heap && a !in chain && a !in chain' ensures HeldBySome(s'.pcs, a) {
      var u :| 0 <= u < |s.pcs| && HasNode(s.pcs[u]) && s.pcs[u].node == a;
      assert HasNode(s'.pcs[u]) && s'.pcs[u].node == a;
    }
  }

  lemma QuietKeepsList(s: State, chain: seq<Addr>, t: nat, s': State)
    requires Quiet(s, t, s') && Owned(s, chain) && NoLeak(s, chain) && Linked(s, chain)
    ensures Owned(s', chain) && NoLeak(s', chain) && Linked(s', chain)
  {
    KeepsOwners(s, chain, t, s', chain);
  }

  lemma AcceptKeepsList(s: State, chain: seq<Addr>, t: nat, a: Addr, k: int, s': State)
    requires t < |s.pcs| && s.pcs[t] == Accepting && a != 0 && a !in s.heap
    requires s'.pcs == s.pcs[t := Prepared(a)] && s'.heap == s.heap[a := Message(k, 0)]
    requires Owned(s, chain) && NoLeak(s, chain) && Linked(s, chain)
    ensures Owned(s', chain) && NoLeak(s', chain) && Linked(s', chain)
  {
    assert HasNode(s'.pcs[t]) && s'.pcs[t].node == a;
    KeepsOwners(s, chain, t, s', chain);
  }

  // Appending n: only the old last node's next field may change, and it becomes n.
  lemma LinkKeepsList(s: State, chain: seq<Addr>, t: nat, n: Addr, s': State)
    requires t < |s.pcs| && s.pcs[t] == PutLocked(n) && s'.pcs == s.pcs[t := PutLinked(n)]
    requires Owned(s, chain) && NoLeak(s, chain) && Linked(s, chain)
    requires s'.heap == if chain == [] then s.heap
                        else s.heap[chain[|chain| - 1] := s.heap[chain[|chain| - 1]].(next := n)]
    ensures Owned(s', chain + [n]) && NoLeak(s', chain + [n]) && Linked(s', chain + [n])
  {
    var c := chain + [n];
    assert s'.heap.Keys == s.heap.Keys;
    assert c[|chain|] == n;
    assert forall a | a in chain :: a in c;
    KeepsOwners(s, chain, t, s', c);
    LinkKeepsOwned(s, chain, t, n, s');
    LinkKeepsLinked(s, chain, t, n, s');
  }

  lemma LinkKeepsOwned(s: State, chain: seq<Addr>, t: nat, n: Addr, s': State)
    requires t < |s.pcs| && s.pcs[t] == PutLocked(n) && s'.pcs == s.pcs[t := PutLinked(n)]
    requires Owned(s, chain) && s'.heap.Keys == s.heap.Keys
    ensures Owned(s', chain + [n])
  {
  }

  lemma LinkKeepsLinked(s: State, chain: seq<Addr>, t: nat, n: Addr, s': State)
    requires t < |s.pcs| && s.pcs[t] == PutLocked(n) && s'.pcs == s.pcs[t := PutLinked(n)]
    requires Owned(s, chain) && Linked(s, chain)
    requires s'.heap == if chain == [] then s.heap
                        else s.heap[chain[|chain| - 1] := s.heap[chain[|chain| - 1]].(next := n)]
    ensures Linked(s', chain + [n])
  {
  }

  lemma TailLinked(s: State, chain: seq<Addr>, t: nat, s': State)
    requires t < |s.pcs| && s'.heap == s.heap && chain != [] && Linked(s, chain)
    requires s.pcs[t].Picked? && s'.pcs == s.pcs[t := Detached(s.pcs[t].node)]
    ensures Linked(s', chain[1..])
  {
    assert forall i | 0 <= i < |chain[1..]| ::
        chain[1..][i] == chain[i + 1] && After(chain[1..], i) == After(chain, i + 1);
  }

  lemma TailOwned(s: State, chain: seq<Addr>, t: nat, s': State)
    requires t < |s.pcs| && s'.heap == s.heap && chain != [] && Owned(s, chain)
    requires s.pcs[t] == Picked(chain[0]) && s'.pcs == s.pcs[t := Detached(chain[0])]
    ensures Owned(s', chain[1..])
  {
    assert forall i | 0 <= i < |chain[1..]| :: chain[1..][i] == chain[i + 1];
    assert forall a | a in chain[1..] :: a in chain && a != chain[0];
  }

  lemma DetachKeepsList(s: State, chain: seq<Addr>, t: nat, n: Addr, s': State)
    requires t < |s.pcs| && s.pcs[t] == Picked(n) && s'.pcs == s.pcs[t := Detached(n)]
    requires s'.heap == s.heap && chain != [] && chain[0] == n
    requires Owned(s, chain) && NoLeak(s, chain) && Linked(s, chain)
    ensures Owned(s', chain[1..]) && NoLeak(s', chain[1..]) && Linked(s', chain[1..])
  {
    TailOwned(s, chain, t, s');
    TailLinked(s, chain, t, s');
    assert HasNode(s'.pcs[t]) && s'.pcs[t].node == n;
    assert forall a | a in chain :: a == chain[0] || a in chain[1..];
    KeepsOwners(s, chain, t, s', chain[1..]);
  }

  lemma ReleaseKeepsList(s: State, chain: seq<Addr>, t: nat, s': State)
    requires t < |s.pcs| && s.pcs[t].Read?
    requires s'.pcs == s.pcs[t := Serving(s.pcs[t].sock)] && s'.heap == s.heap - {s.pcs[t].node}
    requires Owned(s, chain) && NoLeak(s, chain) && Linked(s, chain)
    ensures Owned(s', chain) && NoLeak(s', chain) && Linked(s', chain)
  {
    KeepsOwners(s, chain, t, s', chain);
  }

  predicate ChangesHeap(pc: Pc) {
    pc.Accepting? || pc.PutLocked? || pc.Picked? || pc.Read?
  }

  lemma RunIsQuiet(s: State, t: nat, s': State)
    requires t < |s.pcs| && !ChangesHeap(s.pcs[t]) && !s.pcs[t].Signalling? && Run(s, t) == Ok(s')
    ensures Quiet(s, t, s')
  {
  }

  lemma LinkStep(s: State, chain: seq<Addr>, t: nat, n: Addr, s': State)
    requires t < |s.pcs| && s.pcs[t] == PutLocked(n) && Run(s, t) == Ok(s')
    requires Owned(s, chain) && Fields(s, chain) && Holder(s) == s.pcs[t]
    ensures s'.pcs == s.pcs[t := PutLinked(n)]
    ensures s'.heap == if chain == [] then s.heap
                       else s.heap[chain[|chain| - 1] := s.heap[chain[|chain| - 1]].(next := n)]
  {
    EndsAreLive(s, chain);
  }

  lemma DetachStep(s: State, chain: seq<Addr>, t: nat, n: Addr, s': State)
    requires t < |s.pcs| && s.pcs[t] == Picked(n) && Run(s, t) == Ok(s')
    requires Owned(s, chain) && Fields(s, chain) && Holder(s) == s.pcs[t]
    ensures chain != [] && chain[0] == n && s'.pcs == s.pcs[t := Detached(n)] && s'.heap == s.heap
  {
    EndsAreLive(s, chain);
  }

  lemma ReleaseStep(s: State, t: nat, s': State)
    requires t < |s.pcs| && s.pcs[t].Read? && Run(s, t) == Ok(s')
    ensures s'.pcs == s.pcs[t := Serving(s.pcs[t].sock)] && s'.heap == s.heap - {s.pcs[t].node}
  {
  }

  lemma SignalKeepsList(s: State, chain: seq<Addr>, t: nat, c: Choice, s': State)
    requires t < |s.pcs| && s.pcs[t].Signalling? && Exec(s, t, c) == Ok(s')
    requires Owned(s, chain) && NoLeak(s, chain) && Linked(s, chain)
    ensures Owned(s', chain) && NoLeak(s', chain) && Linked(s', chain)
  {
    if c.Wake? {
      var woken := At(s, c.sleeper, Woken);
      QuietKeepsList(s, chain, c.sleeper, woken);
      QuietKeepsList(woken, chain, t, s');
    } else {
      QuietKeepsList(s, chain, t, s');
    }
  }

  lemma RunKeepsList(s: State, chain: seq<Addr>, t: nat, s': State)
    requires t < |s.pcs| && !s.pcs[t].Accepting? && !s.pcs[t].Signalling? && Run(s, t) == Ok(s')
    requires Exclusive(s) && Owned(s, chain) && NoLeak(s, chain) && Linked(s, chain) && Fields(s, chain)
    ensures var c := ChainAfter(s, chain, Step(t, Go)); Owned(s', c) && NoLeak(s', c) && Linked(s', c)
  {
    assert Critical(s.pcs[t]) ==> Holder(s) == s.pcs[t];
    if s.pcs[t].PutLocked? {
      LinkStep(s, chain, t, s.pcs[t].node, s');
      LinkKeepsList(s, chain, t, s.pcs[t].node, s');
    } else if s.pcs[t].Picked? {
      DetachStep(s, chain, t, s.pcs[t].node, s');
      DetachKeepsList(s, chain, t, s.pcs[t].node, s');
    } else if s.pcs[t].Read? {
      ReleaseStep(s, t, s');
      ReleaseKeepsList(s, chain, t, s');
    } else {
      RunIsQuiet(s, t, s');
      QuietKeepsList(s, chain, t, s');
    }
  }

  lemma KeepsList(s: State, chain: seq<Addr>, m: Move, s': State)
    requires Inv(s, chain) && Next(s, m, s')
    ensures var c := ChainAfter(s, chain, m); Owned(s', c) && NoLeak(s', c) && Linked(s', c)
  {
    var t := m.thread;
    if m.Spurious? {
      QuietKeepsList(s, chain, t, s');
    } else if s.pcs[t].Accepting? {
      AcceptKeepsList(s, chain, t, m.choice.addr, s.arrivals[0], s');
    } else if s.pcs[t].Signalling? {
      SignalKeepsList(s, chain, t, m.choice, s');
    } else {
      RunKeepsList(s, chain, t, s');
    }
  }

  // Steps that touch neither the list's fields nor the holder's phase.
  predicate ChangesFields(pc: Pc) {
    pc.PutLocked? || pc.PutLinked? || pc.PutTailed? || pc.Checking? || pc.Claimed? || pc.Picked?
  }

  // Such a step leaves the fields alone, and if it takes or gives back the mutex, it does so between phases.
  lemma RunLeavesFields(s: State, t: nat, s': State)
    requires t < |s.pcs| && !s.pcs[t].Accepting? && !s.pcs[t].Signalling? && !ChangesFields(s.pcs[t])
    requires Run(s, t) == Ok(s')
    ensures s'.first == s.first && s'.last == s.last && s'.length == s.length && |s'.pcs| == |s.pcs|
    ensures !Lagging(s.pcs[t]) && !Lagging(s'.pcs[t])
  {
  }

  lemma RunFieldsUntouched(s: State, chain: seq<Addr>, t: nat, s': State)
    requires Exclusive(s) && Fields(s, chain) && t < |s.pcs| && !s.pcs[t].Accepting? && !s.pcs[t].Signalling?
    requires !ChangesFields(s.pcs[t]) && Run(s, t) == Ok(s')
    ensures Fields(s', chain)
  {
    RunLeavesFields(s, t, s');
    RunLocks(s, t, s');
    if s.mutex == HeldBy(t) || s'.mutex == HeldBy(t) {
      assert !Lagging(Holder(s)) && !Lagging(Holder(s'));
    } else {
      assert Holder(s') == Holder(s);
    }
  }

  lemma FieldsUntouched(s: State, chain: seq<Addr>, m: Move, s': State)
    requires Exclusive(s) && Fields(s, chain) && Next(s, m, s') && !ChangesFields(s.pcs[m.thread])
    ensures Fields(s', chain)
  {
    var t := m.thread;
    if m.Step? && !s.pcs[t].Accepting? && !s.pcs[t].Signalling? {
      RunFieldsUntouched(s, chain, t, s');
    } else {
      assert Holder(s') == Holder(s);
    }
  }

  lemma FieldsStep(s: State, chain: seq<Addr>, t: nat, s': State)
    requires t < |s.pcs| && ChangesFields(s.pcs[t]) && s.mutex == HeldBy(t) && Run(s, t) == Ok(s')
    requires Fields(s, chain) && Linked(s, chain) && 0 !in s.heap
    requires chain != [] ==> s.first in s.heap && (s.heap[s.first].next == 0 <==> |chain| == 1)
    ensures Fields(s', ChainAfter(s, chain, Step(t, Go)))
  {
  }

  // The half of queue_put that is left when accept and signal are told apart.
  predicate Puts(pc: Pc) {
    pc.Prepared? || pc.PutLocked? || pc.PutLinked? || pc.PutTailed? || pc.PutCounted?
  }

  // What a step does to the lock.
  ghost predicate LockStep(s: State, t: nat, s': State) {
    && t < |s.pcs| == |s'.pcs| && s'.pcs == s.pcs[t := s'.pcs[t]]
    && s'.mutex == (if Critical(s'.pcs[t]) then (if Critical(s.pcs[t]) then s.mutex else HeldBy(t))
                    else if Critical(s.pcs[t]) then Free else s.mutex)
    && (Critical(s'.pcs[t]) && !Critical(s.pcs[t]) ==> s.mutex == Free)
  }

  lemma PutLocks(s: State, t: nat, s': State)
    requires t < |s.pcs| && Puts(s.pcs[t]) && Run(s, t) == Ok(s')
    ensures LockStep(s, t, s')
  {
  }

  lemma GetLocks(s: State, t: nat, s': State)
    requires t < |s.pcs| && !Puts(s.pcs[t]) && !s.pcs[t].Accepting? && !s.pcs[t].Signalling? && Run(s, t) == Ok(s')
    ensures LockStep(s, t, s')
  {
  }

  lemma RunLocks(s: State, t: nat, s': State)
    requires t < |s.pcs| && !s.pcs[t].Accepting? && !s.pcs[t].Signalling? && Run(s, t) == Ok(s')
    ensures LockStep(s, t, s')
  {
    if Puts(s.pcs[t]) {
      PutLocks(s, t, s');
    } else {
      GetLocks(s, t, s');
    }
  }

  // And to the wakeups owed.
  lemma RunOwes(s: State, t: nat, s': State)
    requires t < |s.pcs| && !s.pcs[t].Accepting? && !s.pcs[t].Signalling? && Run(s, t) == Ok(s')
    ensures |s'.pcs| == |s.pcs|
    ensures s'.pcs[t] == Sleeping ==> s'.length == 0
    ensures s'.pcs[t] != Sleeping ==> s'.length - s.length <= Credit(s'.pcs[t]) - Credit(s.pcs[t])
  {
  }

  lemma KeepsExclusive(s: State, m: Move, s': State)
    requires Exclusive(s) && Next(s, m, s')
    ensures Exclusive(s')
  {
    if m.Step? && !s.pcs[m.thread].Accepting? && !s.pcs[m.thread].Signalling? {
      RunLocks(s, m.thread, s');
    }
  }

  lemma KeepsWakeups(s: State, m: Move, s': State)
    requires NoLostWakeup(s) && Next(s, m, s')
    ensures NoLostWakeup(s')
  {
    var t := m.thread;
    if m.Step? && s.pcs[t].Signalling? {
      SignalKeepsWakeups(s, t, m.choice, s');
    } else {
      if m.Step? && !s.pcs[t].Accepting? {
        RunLocks(s, t, s');
        RunOwes(s, t, s');
      }
      SumUpdate(Credit, s.pcs, t, s'.pcs[t]);
      assert SomeoneSleeps(s') && s'.pcs[t] != Sleeping ==> SomeoneSleeps(s);
    }
  }

  lemma SignalKeepsWakeups(s: State, t: nat, c: Choice, s': State)
    requires NoLostWakeup(s) && t < |s.pcs| && s.pcs[t] == Signalling && Exec(s, t, c) == Ok(s')
    ensures NoLostWakeup(s')
  {
    if c.Wake? {
      SumUpdate(Credit, s.pcs, c.sleeper, Woken);
      SumUpdate(Credit, s.pcs[c.sleeper := Woken], t, Accepting);
    } else {
      assert forall u | 0 <= u < |s'.pcs| && s'.pcs[u] == Sleeping :: s.pcs[u] == Sleeping;
    }
  }

  lemma KeepsInv(s: State, chain: seq<Addr>, m: Move, s': State)
    requires Inv(s, chain) && Next(s, m, s')
    ensures Inv(s', ChainAfter(s, chain, m))
  {
    KeepsExclusive(s, m, s');
    KeepsWakeups(s, m, s');
    KeepsList(s, chain, m, s');
    if ChangesFields(s.pcs[m.thread]) {
      FieldsStep(s, chain, m.thread, s');
    } else {
      FieldsUntouched(s, chain, m, s');
    }
  }

  // The list's two ends are live, or null together.
  lemma EndsAreLive(s: State, chain: seq<Addr>)
    requires Owned(s, chain)
    ensures if chain == [] then Ends(chain) == (0, 0) else Ends(chain).0 in s.heap && Ends(chain).1 in s.heap
  {
  }

  lemma NoFaultWhileInv(s: State, chain: seq<Addr>, t: nat, c: Choice)
    requires Exclusive(s) && Owned(s, chain) && Fields(s, chain) && t < |s.pcs|
    ensures Exec(s, t, c) != Fault
  {
    EndsAreLive(s, chain);
    if s.pcs[t].PutLocked? || s.pcs[t].Picked? {
      assert Holder(s) == s.pcs[t];
    }
  }

  lemma InitInv(s: State)
    requires Init(s)
    ensures Inv(s, [])
  {
    SumZero(Credit, s.pcs);
  }

  lemma {:induction false} RunInv(run: seq<State>, moves: seq<Move>) returns (chain: seq<Addr>)
    requires IsRun(run, moves)
    ensures Inv(run[|moves|], chain)
  {
    if moves == [] {
      InitInv(run[0]);
      chain := [];
    } else {
      var n := |moves| - 1;
      var before := RunInv(run[..n + 1], moves[..n]);
      assert Next(run[n], moves[n], run[n + 1]);
      KeepsInv(run[n], before, moves[n], run[n + 1]);
      chain := ChainAfter(run[n], before, moves[n]);
    }
  }

  ghost predicate Reachable(s: State) {
    exists run, moves :: IsRun(run, moves) && run[|moves|] == s
  }

  lemma ReachableInv(s: State) returns (chain: seq<Addr>)
    requires Reachable(s)
    ensures Inv(s, chain)
  {
    var run, moves :| IsRun(run, moves) && run[|moves|] == s;
    chain := RunInv(run, moves);
  }

  /* ---- Memory safety and ownership. ---- */

  // No thread ever reads through null, reads a freed message, or frees a message twice.
  lemma NeverFaults(s: State, t: nat, c: Choice)
    requires Reachable(s) && t < |s.pcs|
    ensures Exec(s, t, c) != Fault
  {
    var chain := ReachableInv(s);
    NoFaultWhileInv(s, chain, t, c);
  }

  // The addresses met by following next from a.
  function Walk(heap: map<Addr, Message>, a: Addr, fuel: nat): seq<Addr>
    decreases fuel
  {
    if fuel == 0 || a !in heap then [] else [a] + Walk(heap, heap[a].next, fuel - 1)
  }

  function Nodes(s: State): seq<Addr> {
    Walk(s.heap, s.first, |s.heap|)
  }

  function SockAt(heap: map<Addr, Message>, a: Addr): int {
    if a in heap then heap[a].sock else 0
  }

  function Socks(heap: map<Addr, Message>, nodes: seq<Addr>): seq<int> {
    seq(|nodes|, i requires 0 <= i < |nodes| => SockAt(heap, nodes[i]))
  }

  function Contents(s: State): seq<int> {
    Socks(s.heap, Nodes(s))
  }

  lemma {:induction false} WalkFollowsChain(heap: map<Addr, Message>, chain: seq<Addr>, fuel: nat)
    requires 0 !in heap && |chain| <= fuel
    requires forall i | 0 <= i < |chain| :: chain[i] in heap && heap[chain[i]].next == After(chain, i)
    ensures Walk(heap, Ends(chain).0, fuel) == chain
  {
    if chain != [] {
      var rest := chain[1..];
      assert forall i | 0 <= i < |rest| :: rest[i] == chain[i + 1] && After(rest, i) == After(chain, i + 1);
      WalkFollowsChain(heap, rest, fuel - 1);
      assert heap[chain[0]].next == Ends(rest).0;
    }
  }

  lemma {:induction false} DistinctFits(chain: seq<Addr>, keys: set<Addr>)
    requires Distinct(chain) && forall i | 0 <= i < |chain| :: chain[i] in keys
    ensures |chain| <= |keys|
  {
    if chain != [] {
      DistinctFits(chain[1..], keys - {chain[0]});
    }
  }

  lemma NodesAreChain(s: State, chain: seq<Addr>)
    requires Owned(s, chain) && Linked(s, chain) && s.first == Ends(chain).0
    ensures Nodes(s) == chain
  {
    DistinctFits(chain, s.heap.Keys);
    assert |s.heap.Keys| == |s.heap|;
    WalkFollowsChain(s.heap, chain, |s.heap|);
  }

  // The list is acyclic and counted by length whenever nobody holds the mutex, and every live message
  // is in the list or in the hands of exactly one thread.
  lemma ListIsOwned(s: State)
    requires Reachable(s)
    ensures Distinct(Nodes(s)) && 0 !in s.heap
    ensures forall a | a in s.heap :: (a in Nodes(s) <==> !HeldBySome(s.pcs, a))
    ensures forall t, u | 0 <= t < u < |s.pcs| && HasNode(s.pcs[t]) && HasNode(s.pcs[u]) ::
              s.pcs[t].node != s.pcs[u].node
    ensures s.mutex == Free ==> s.length == |Nodes(s)| && (s.first, s.last) == Ends(Nodes(s))
    ensures s.mutex == Free ==> (s.first == 0 <==> s.length == 0) && (s.last == 0 <==> s.length == 0)
  {
    var chain := ReachableInv(s);
    NodesAreChain(s, chain);
  }

  // A worker that reads a message outside the lock reads one that no walk of the list meets, and that
  // no other thread holds; what it returns is what is stored there.
  lemma DequeuedIsPrivate(s: State, t: nat)
    requires Reachable(s) && t < |s.pcs| && (s.pcs[t].Unlocked? || s.pcs[t].Read?)
    ensures s.pcs[t].node in s.heap && s.pcs[t].node !in Nodes(s)
    ensures forall u | 0 <= u < |s.pcs| && u != t && HasNode(s.pcs[u]) :: s.pcs[u].node != s.pcs[t].node
    ensures s.pcs[t].Read? ==> s.pcs[t].sock == s.heap[s.pcs[t].node].sock
  {
    var chain := ReachableInv(s);
    NodesAreChain(s, chain);
  }
}
