/** Wakeups, bounded runs, and what a pool that has come to rest has done. */
module PoolProgress {
  import opened AtomicFifo
  import opened PoolInvariant
  import opened PoolRefinement
  import opened Tally
  import opened WorkerPool

  // A connection waits in the queue beside a sleeping worker only while at least as many threads as
  // there are connections are about to look at the queue or to signal.
  lemma NeverLosesAWakeup(s: State)
    requires Reachable(s) && SomeoneSleeps(s)
    ensures s.length <= Sum(Credit, s.pcs)
  {
    var _ := ReachableInv(s);
  }

  function Weight(pc: Pc): nat {
    match pc
    case Accepting => 0
    case Prepared(_) => 16
    case PutLocked(_) => 15
    case PutLinked(_) => 14
    case PutTailed => 13
    case PutCounted => 4
    case Signalling => 3
    case Fetching => 2
    case Checking => 1
    case Sleeping => 0
    case Woken => 2
    case Claimed => 8
    case Picked(_) => 7
    case Detached(_) => 6
    case Unlocked(_) => 5
    case Read(_, _) => 4
    case Serving(_) => 3
  }

  function Measure(s: State): int {
    17 * |s.arrivals| + 8 * s.length + Sum(Weight, s.pcs)
  }

  lemma PutWeighs(s: State, t: nat, s': State)
    requires t < |s.pcs| && Puts(s.pcs[t]) && Run(s, t) == Ok(s')
    ensures |s'.pcs| == |s.pcs| && s'.arrivals == s.arrivals
    ensures 8 * s'.length + Weight(s'.pcs[t]) < 8 * s.length + Weight(s.pcs[t])
  {
  }

  lemma GetWeighs(s: State, t: nat, s': State)
    requires t < |s.pcs| && !Puts(s.pcs[t]) && !s.pcs[t].Accepting? && !s.pcs[t].Signalling? && Run(s, t) == Ok(s')
    ensures |s'.pcs| == |s.pcs| && s'.arrivals == s.arrivals
    ensures 8 * s'.length + Weight(s'.pcs[t]) < 8 * s.length + Weight(s.pcs[t])
  {
  }

  lemma RunWeighs(s: State, t: nat, s': State)
    requires t < |s.pcs| && !s.pcs[t].Accepting? && !s.pcs[t].Signalling? && Run(s, t) == Ok(s')
    ensures Measure(s') < Measure(s)
  {
    RunLocks(s, t, s');
    SumUpdate(Weight, s.pcs, t, s'.pcs[t]);
    if Puts(s.pcs[t]) {
      PutWeighs(s, t, s');
    } else {
      GetWeighs(s, t, s');
    }
  }

  lemma AcceptWeighs(s: State, t: nat, c: Choice, s': State)
    requires t < |s.pcs| && s.pcs[t] == Accepting && Exec(s, t, c) == Ok(s')
    ensures Measure(s') < Measure(s)
  {
    SumUpdate(Weight, s.pcs, t, s'.pcs[t]);
  }

  lemma SignalWeighs(s: State, t: nat, c: Choice, s': State)
    requires t < |s.pcs| && s.pcs[t] == Signalling && Exec(s, t, c) == Ok(s')
    ensures Measure(s') < Measure(s)
  {
    if c.Wake? {
      SumUpdate(Weight, s.pcs, c.sleeper, Woken);
      SumUpdate(Weight, s.pcs[c.sleeper := Woken], t, Accepting);
    } else {
      SumUpdate(Weight, s.pcs, t, Accepting);
    }
  }

  // Every step of a thread uses up some of the measure; an unasked wakeup gives two back.
  lemma StepDecreases(s: State, m: Move, s': State)
    requires Next(s, m, s')
    ensures Measure(s') <= Measure(s) + if m.Step? then -1 else 2
  {
    var t := m.thread;
    if m.Spurious? {
      SumUpdate(Weight, s.pcs, t, Woken);
    } else if s.pcs[t].Signalling? {
      SignalWeighs(s, t, m.choice, s');
    } else if s.pcs[t].Accepting? {
      AcceptWeighs(s, t, m.choice, s');
    } else {
      RunWeighs(s, t, s');
    }
  }

  function IsStep(m: Move): nat {
    if m.Step? then 1 else 0
  }

  function IsSpurious(m: Move): nat {
    if m.Spurious? then 1 else 0
  }

  lemma {:induction false} RunMeasure(run: seq<State>, moves: seq<Move>)
    requires IsRun(run, moves)
    ensures Measure(run[|moves|]) + Sum(IsStep, moves) <= Measure(run[0]) + 2 * Sum(IsSpurious, moves)
  {
    if moves != [] {
      var n := |moves| - 1;
      RunMeasure(run[..n + 1], moves[..n]);
      assert Next(run[n], moves[n], run[n + 1]);
      StepDecreases(run[n], moves[n], run[n + 1]);
      assert moves == moves[..n] + [moves[n]];
      SumAppend(IsStep, moves[..n], moves[n]);
      SumAppend(IsSpurious, moves[..n], moves[n]);
    }
  }

  // The pool does no busy work: 17 steps a connection, 2 a thread and 2 a spurious wakeup are all that
  // any schedule can take. Without spurious wakeups every run is finite.
  lemma EveryRunIsBounded(run: seq<State>, moves: seq<Move>)
    requires IsRun(run, moves)
    ensures Sum(IsStep, moves) <= 17 * |run[0].arrivals| + 2 * |run[0].pcs| + 2 * Sum(IsSpurious, moves)
  {
    RunMeasure(run, moves);
    var _ := RunInv(run, moves);
    SumAtMost(Weight, run[0].pcs, 2);
  }

  ghost predicate Stuck(s: State) {
    forall t: nat, c | t < |s.pcs| :: Exec(s, t, c) == Blocked
  }

  // Nothing left to do: no connection to accept, none queued, every worker asleep, no message live.
  ghost predicate Drained(s: State) {
    && s.mutex == Free && s.length == 0 && Nodes(s) == [] && s.heap == map[]
    && (forall t | 0 <= t < |s.pcs| :: s.pcs[t] == Accepting || s.pcs[t] == Sleeping)
    && ((exists t :: 0 <= t < |s.pcs| && s.pcs[t] == Accepting) ==> s.arrivals == [])
  }

  lemma {:induction false} AboveAll(keys: set<Addr>) returns (a: Addr)
    ensures a != 0 && forall k | k in keys :: k < a
  {
    a := 1;
    if k :| k in keys {
      var b := AboveAll(keys - {k});
      assert forall j | j in keys :: j == k || j in keys - {k};
      a := b + k + 1;
    }
  }

  // No deadlock: a pool with a worker stops only when it is drained, and then it does stop.
  lemma StopsOnlyWhenDrained(s: State)
    requires Reachable(s) && exists t :: 0 <= t < |s.pcs| && !IsAcceptor(s.pcs[t])
    ensures Stuck(s) <==> Drained(s)
  {
    var chain := ReachableInv(s);
    NodesAreChain(s, chain);
    if Stuck(s) {
      StuckIsIdle(s, chain);
      StuckIsEmpty(s, chain);
    }
  }

  // A thread that cannot go on waits for a connection, for a wakeup, or for a mutex another one holds.
  lemma WhatAThreadWaitsFor(s: State, t: nat)
    requires t < |s.pcs| && Exec(s, t, Go) == Blocked
    ensures s.pcs[t].Accepting? || s.pcs[t].Sleeping? || s.pcs[t].Signalling? ||
            (!Critical(s.pcs[t]) && s.mutex.HeldBy?)
  {
  }

  lemma StuckIsIdle(s: State, chain: seq<Addr>)
    requires Inv(s, chain) && Stuck(s)
    ensures s.mutex == Free
    ensures forall t | 0 <= t < |s.pcs| :: s.pcs[t] == Accepting || s.pcs[t] == Sleeping
    ensures (exists t :: 0 <= t < |s.pcs| && s.pcs[t] == Accepting) ==> s.arrivals == []
  {
    forall t | 0 <= t < |s.pcs|
      ensures s.pcs[t] == Accepting || s.pcs[t] == Sleeping || (!Critical(s.pcs[t]) && s.mutex.HeldBy?)
    {
      WhatAThreadWaitsFor(s, t);
      if s.pcs[t] == Signalling {
        SignalCanRun(s, t);
      }
    }
    assert s.mutex.HeldBy? ==> !Critical(s.pcs[s.mutex.thread]);
    if t :| 0 <= t < |s.pcs| && s.pcs[t] == Accepting {
      var a := AboveAll(s.heap.Keys);
      assert Exec(s, t, Alloc(a)) == Blocked;
    }
  }

  lemma SignalCanRun(s: State, t: nat)
    requires t < |s.pcs| && s.pcs[t] == Signalling
    ensures exists c :: Exec(s, t, c) != Blocked
  {
    if SomeoneSleeps(s) {
      var w :| 0 <= w < |s.pcs| && s.pcs[w] == Sleeping;
      assert Exec(s, t, Wake(w)) != Blocked;
    } else {
      assert Exec(s, t, Go) != Blocked;
    }
  }

  lemma StuckIsEmpty(s: State, chain: seq<Addr>)
    requires Inv(s, chain) && s.mutex == Free
    requires forall t | 0 <= t < |s.pcs| :: s.pcs[t] == Accepting || s.pcs[t] == Sleeping
    requires exists t :: 0 <= t < |s.pcs| && !IsAcceptor(s.pcs[t])
    ensures s.length == 0 && chain == [] && s.heap == map[]
  {
    assert SomeoneSleeps(s);
    SumZero(Credit, s.pcs);
    assert forall a | a in s.heap :: a in chain || HeldBySome(s.pcs, a);
  }

  // So when the pool of server(), one acceptor and any number of workers, has come to rest, every
  // connection that ever arrived has been handed to a worker, once and in order of arrival.
  lemma EveryConnectionIsServed(run: seq<State>, moves: seq<Move>, a: nat) returns (fifos: seq<Fifo>)
    requires IsRun(run, moves) && OneAcceptor(run[0], a) && |run[0].pcs| > 1 && Stuck(run[|moves|])
    ensures |fifos| == |run| && IsFifoRun(fifos)
    ensures forall i | 0 <= i < |run| :: Matches(run[i], fifos[i])
    ensures fifos[|moves|].gets == run[0].arrivals
  {
    fifos := InOrder(run, moves, a);
    var s := run[|moves|];
    var w := if a == 0 then 1 else 0;
    assert Reachable(s);
    RunSize(run, moves);
    assert !IsAcceptor(s.pcs[w]) && IsAcceptor(s.pcs[a]);
    StopsOnlyWhenDrained(s);
  }

  lemma {:induction false} RunSize(run: seq<State>, moves: seq<Move>)
    requires IsRun(run, moves)
    ensures |run[|moves|].pcs| == |run[0].pcs|
  {
    if moves != [] {
      var n := |moves| - 1;
      RunSize(run[..n + 1], moves[..n]);
      assert Next(run[n], moves[n], run[n + 1]);
      OthersStay(run[n], moves[n], run[n + 1]);
    }
  }
}
