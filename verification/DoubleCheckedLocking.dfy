/** Singleton::GetInstance with double-checked locking, under a release/acquire memory model.

    s_instance has a history of messages. Each thread has a view: how far along that history it must read,
    and which constructions it can see. A load may return any message its view does not rule out, so it may
    be stale. An acquire load takes over the view a release store left with the message, a relaxed load does
    not; unlocking leaves a view with the mutex and locking takes it over. */
module DoubleCheckedLocking {
  import opened Tally

  type Pointer = nat  // 0 is nullptr

  datatype View = View(time: nat, seen: set<Pointer>)

  datatype Message = Message(value: Pointer, view: View)

  datatype Mutex = Free | HeldBy(thread: nat)

  datatype Pc =
    | Calling                  // before the first load
    | WantsLock
    | Locked                   // before the second load
    | Building                 // found null twice, before new Singleton()
    | Storing(p: Pointer)      // before the release store
    | Unlocking(p: Pointer)
    | Returned(p: Pointer)

  datatype Thread = Thread(pc: Pc, view: View)

  datatype Order = Acquire | Relaxed

  datatype State = State(history: seq<Message>, mutex: Mutex, lockView: View, built: seq<Pointer>,
                         threads: seq<Thread>)

  // n is the message a load reads, or the address new returns.
  datatype Move = Move(thread: nat, n: nat)

  function Max(a: nat, b: nat): nat {
    if a < b then b else a
  }

  function Join(v: View, w: View): View {
    View(Max(v.time, w.time), v.seen + w.seen)
  }

  function Load(v: View, history: seq<Message>, n: nat, order: Order): View
    requires n < |history|
  {
    var at := View(Max(v.time, n), v.seen);
    if order == Acquire then Join(at, history[n].view) else at
  }

  predicate CanRead(v: View, history: seq<Message>, n: nat) {
    v.time <= n < |history|
  }

  function Put(s: State, t: nat, pc: Pc, v: View): State
    requires t < |s.threads|
  {
    s.(threads := s.threads[t := Thread(pc, v)])
  }

  // One step of thread t; `first` is the order of the first load.
  predicate Next(first: Order, s: State, m: Move, s': State) {
    && m.thread < |s.threads|
    && var t, v := m.thread, s.threads[m.thread].view;
    match s.threads[t].pc
    case Calling =>
      && CanRead(v, s.history, m.n)
      && var p := s.history[m.n].value;
      s' == Put(s, t, if p == 0 then WantsLock else Returned(p), Load(v, s.history, m.n, first))
    case WantsLock => s.mutex == Free && s' == Put(s, t, Locked, Join(v, s.lockView)).(mutex := HeldBy(t))
    case Locked =>
      && CanRead(v, s.history, m.n)
      && var p := s.history[m.n].value;
      s' == Put(s, t, if p == 0 then Building else Unlocking(p), Load(v, s.history, m.n, Relaxed))
    case Building =>
      && m.n != 0 && m.n !in s.built
      && s' == Put(s, t, Storing(m.n), View(v.time, v.seen + {m.n})).(built := s.built + [m.n])
    case Storing(p) =>
      && var w := View(|s.history|, v.seen);
      s' == Put(s, t, Unlocking(p), w).(history := s.history + [Message(p, w)])
    case Unlocking(p) => s' == Put(s, t, Returned(p), v).(mutex := Free, lockView := v)
    case Returned(_) => s' == Put(s, t, Calling, v)
  }

  predicate Init(s: State) {
    && s.history == [Message(0, View(0, {}))] && s.mutex == Free && s.lockView == View(0, {}) && s.built == []
    && forall t | 0 <= t < |s.threads| :: s.threads[t] == Thread(Calling, View(0, {}))
  }

  ghost predicate IsRun(first: Order, run: seq<State>, moves: seq<Move>) {
    && |run| == |moves| + 1 && Init(run[0])
    && forall i | 0 <= i < |moves| :: Next(first, run[i], moves[i], run[i + 1])
  }

  predicate Inside(pc: Pc) {
    pc.Locked? || pc.Building? || pc.Storing? || pc.Unlocking?
  }

  // Nobody who must read the second message misses the construction it points to.
  ghost predicate Sees(s: State, v: View) {
    v.time < |s.history| && (v.time == 1 ==> s.built != [] && s.built[0] in v.seen)
  }

  ghost predicate Published(s: State) {
    && 1 <= |s.history| <= 2 && s.history[0] == Message(0, View(0, {})) && |s.built| <= 1
    && (s.built != [] ==> s.built[0] != 0)
    && (|s.history| == 2 ==>
          s.built != [] && s.history[1].value == s.built[0] && s.history[1].view.time == 1 &&
          Sees(s, s.history[1].view))
    && (|s.history| == 1 && s.built != [] ==>
          s.mutex.HeldBy? && s.mutex.thread < |s.threads| && s.threads[s.mutex.thread].pc == Storing(s.built[0]))
  }

  ghost predicate Locking(s: State) {
    && (s.mutex.HeldBy? ==> s.mutex.thread < |s.threads|)
    && (forall t | 0 <= t < |s.threads| :: Inside(s.threads[t].pc) <==> s.mutex == HeldBy(t))
    && (s.mutex == Free ==> s.lockView.time == |s.history| - 1)
    && (forall t | 0 <= t < |s.threads| && s.mutex == HeldBy(t) :: s.threads[t].view.time == |s.history| - 1)
  }

  ghost predicate Knows(s: State, th: Thread) {
    && Sees(s, th.view)
    && match th.pc
       case Building => |s.history| == 1 && s.built == []
       case Storing(p) => |s.history| == 1 && s.built == [p] && p in th.view.seen
       case Unlocking(p) => |s.history| == 2 && s.built == [p] && p in th.view.seen
       case Returned(p) => |s.history| == 2 && s.built == [p] && p in th.view.seen && th.view.time == 1
       case _ => true
  }

  ghost predicate Inv(s: State) {
    && Published(s) && Locking(s) && Sees(s, s.lockView)
    && forall t | 0 <= t < |s.threads| :: Knows(s, s.threads[t])
  }

  lemma FirstLoadKeeps(s: State, m: Move, s': State)
    requires Inv(s) && Next(Acquire, s, m, s') && s.threads[m.thread].pc.Calling?
    ensures Inv(s')
  {
  }

  lemma LockKeeps(s: State, m: Move, s': State)
    requires Inv(s) && Next(Acquire, s, m, s') && s.threads[m.thread].pc.WantsLock?
    ensures Inv(s')
  {
  }

  lemma SecondLoadKeeps(s: State, m: Move, s': State)
    requires Inv(s) && Next(Acquire, s, m, s') && s.threads[m.thread].pc.Locked?
    ensures Inv(s')
  {
  }

  lemma BuildKeeps(s: State, m: Move, s': State)
    requires Inv(s) && Next(Acquire, s, m, s') && s.threads[m.thread].pc.Building?
    ensures Inv(s')
  {
  }

  lemma StoreKeeps(s: State, m: Move, s': State)
    requires Inv(s) && Next(Acquire, s, m, s') && s.threads[m.thread].pc.Storing?
    ensures Inv(s')
  {
  }

  lemma UnlockKeeps(s: State, m: Move, s': State)
    requires Inv(s) && Next(Acquire, s, m, s') && s.threads[m.thread].pc.Unlocking?
    ensures Inv(s')
  {
  }

  lemma ReturnKeeps(s: State, m: Move, s': State)
    requires Inv(s) && Next(Acquire, s, m, s') && s.threads[m.thread].pc.Returned?
    ensures Inv(s')
  {
  }

  lemma KeepsInv(s: State, m: Move, s': State)
    requires Inv(s) && Next(Acquire, s, m, s')
    ensures Inv(s')
  {
    match s.threads[m.thread].pc
    case Calling => FirstLoadKeeps(s, m, s');
    case WantsLock => LockKeeps(s, m, s');
    case Locked => SecondLoadKeeps(s, m, s');
    case Building => BuildKeeps(s, m, s');
    case Storing(_) => StoreKeeps(s, m, s');
    case Unlocking(_) => UnlockKeeps(s, m, s');
    case Returned(_) => ReturnKeeps(s, m, s');
  }

  lemma {:induction false} RunInv(run: seq<State>, moves: seq<Move>)
    requires IsRun(Acquire, run, moves)
    ensures Inv(run[|moves|])
  {
    if moves != [] {
      var n := |moves| - 1;
      RunInv(run[..n + 1], moves[..n]);
      assert Next(Acquire, run[n], moves[n], run[n + 1]);
      KeepsInv(run[n], moves[n], run[n + 1]);
    }
  }

  // However the threads interleave and however stale their loads are, at most one Singleton is built, the
  // pointer changes at most once, and every call returns that one object with its construction visible.
  lemma OneSingletonForAll(run: seq<State>, moves: seq<Move>)
    requires IsRun(Acquire, run, moves)
    ensures var s := run[|moves|];
            |s.built| <= 1 && 1 <= |s.history| <= 2 &&
            forall t | 0 <= t < |s.threads| && s.threads[t].pc.Returned? ::
              var p := s.threads[t].pc.p;
              p != 0 && s.built == [p] && s.history[|s.history| - 1].value == p && p in s.threads[t].view.seen
  {
    RunInv(run, moves);
  }

  /* ---- Every call returns. ---- */

  ghost predicate CanStep(s: State, t: nat) {
    exists n, s' :: Next(Acquire, s, Move(t, n), s')
  }

  ghost predicate InCall(s: State, t: nat) {
    t < |s.threads| && !s.threads[t].pc.Returned?
  }

  // The lock is the only thing a call waits for.
  lemma OnlyTheLockBlocks(s: State, t: nat)
    requires Inv(s) && InCall(s, t)
    ensures CanStep(s, t) <==> !(s.threads[t].pc.WantsLock? && s.mutex.HeldBy?)
  {
    var v, last := s.threads[t].view, |s.history| - 1;
    assert Knows(s, s.threads[t]);
    match s.threads[t].pc
    case Calling =>
      var p := s.history[last].value;
      var s' := Put(s, t, if p == 0 then WantsLock else Returned(p), Load(v, s.history, last, Acquire));
      assert Next(Acquire, s, Move(t, last), s');
    case WantsLock =>
      if s.mutex == Free {
        var s' := Put(s, t, Locked, Join(v, s.lockView)).(mutex := HeldBy(t));
        assert Next(Acquire, s, Move(t, 0), s');
      }
    case Locked =>
      var p := s.history[last].value;
      var s' := Put(s, t, if p == 0 then Building else Unlocking(p), Load(v, s.history, last, Relaxed));
      assert Next(Acquire, s, Move(t, last), s');
    case Building =>
      var s' := Put(s, t, Storing(1), View(v.time, v.seen + {1})).(built := s.built + [1]);
      assert Next(Acquire, s, Move(t, 1), s');
    case Storing(p) =>
      var w := View(|s.history|, v.seen);
      var s' := Put(s, t, Unlocking(p), w).(history := s.history + [Message(p, w)]);
      assert Next(Acquire, s, Move(t, 0), s');
    case Unlocking(p) =>
      var s' := Put(s, t, Returned(p), v).(mutex := Free, lockView := v);
      assert Next(Acquire, s, Move(t, 0), s');
  }

  // A call can go on, or waits for the lock while another thread has it and can go on itself.
  lemma GoesOnOrWaits(run: seq<State>, moves: seq<Move>, t: nat)
    requires IsRun(Acquire, run, moves) && InCall(run[|moves|], t)
    ensures var s := run[|moves|];
            || CanStep(s, t)
            || (s.threads[t].pc == WantsLock && s.mutex.HeldBy? && s.mutex.thread != t &&
                InCall(s, s.mutex.thread) && CanStep(s, s.mutex.thread))
  {
    var s := run[|moves|];
    RunInv(run, moves);
    OnlyTheLockBlocks(s, t);
    if s.mutex.HeldBy? {
      HolderCanStep(s);
    }
  }

  lemma HolderCanStep(s: State)
    requires Inv(s) && s.mutex.HeldBy?
    ensures InCall(s, s.mutex.thread) && Inside(s.threads[s.mutex.thread].pc) && CanStep(s, s.mutex.thread)
  {
    assert Inside(s.threads[s.mutex.thread].pc);
    OnlyTheLockBlocks(s, s.mutex.thread);
  }

  lemma StuckHasReturned(run: seq<State>, moves: seq<Move>, t: nat)
    requires IsRun(Acquire, run, moves) && Stuck(run[|moves|])
    ensures !InCall(run[|moves|], t)
  {
    if InCall(run[|moves|], t) {
      GoesOnOrWaits(run, moves, t);
    }
  }

  ghost predicate Stuck(s: State) {
    forall t: nat | InCall(s, t) :: !CanStep(s, t)
  }

  ghost predicate HasReturned(s: State, t: nat) {
    t < |s.threads| && |s.built| == 1 && s.threads[t].pc == Returned(s.built[0])
  }

  // So no step is left inside any call exactly when every call has returned, with the one object.
  lemma StopsOnlyWhenReturned(run: seq<State>, moves: seq<Move>)
    requires IsRun(Acquire, run, moves)
    ensures Stuck(run[|moves|]) <==> forall t: nat | t < |run[|moves|].threads| :: HasReturned(run[|moves|], t)
  {
    var s := run[|moves|];
    RunInv(run, moves);
    if Stuck(s) {
      forall t: nat | t < |s.threads| ensures HasReturned(s, t) {
        StuckHasReturned(run, moves, t);
        assert Knows(s, s.threads[t]);
      }
    }
    if forall t: nat | t < |s.threads| :: HasReturned(s, t) {
      forall t: nat ensures !InCall(s, t) {
        assert t < |s.threads| ==> HasReturned(s, t);
      }
    }
  }

  // The steps a call has still to make, at most.
  function ToGo(th: Thread): nat {
    match th.pc
    case Calling => 6
    case WantsLock => 5
    case Locked => 4
    case Building => 3
    case Storing(_) => 2
    case Unlocking(_) => 1
    case Returned(_) => 0
  }

  predicate Starts(s: State, m: Move) {
    m.thread < |s.threads| && s.threads[m.thread].pc.Returned?
  }

  // A step inside a call brings that call nearer its end and moves no other thread.
  lemma StepNears(first: Order, s: State, m: Move, s': State)
    requires Next(first, s, m, s')
    ensures |s'.threads| == |s.threads| && s'.threads == s.threads[m.thread := s'.threads[m.thread]]
    ensures if Starts(s, m) then s'.threads[m.thread].pc == Calling
            else ToGo(s'.threads[m.thread]) < ToGo(s.threads[m.thread])
  {
  }

  ghost function StartsOf(run: seq<State>, moves: seq<Move>): set<nat>
    requires |run| == |moves| + 1
  {
    set i | 0 <= i < |moves| && Starts(run[i], moves[i])
  }

  lemma StartsGrow(run: seq<State>, moves: seq<Move>, n: nat)
    requires |run| == |moves| + 1 && |moves| == n + 1
    ensures |StartsOf(run, moves)| == |StartsOf(run[..n + 1], moves[..n])| + if Starts(run[n], moves[n]) then 1 else 0
  {
    assert StartsOf(run, moves) == StartsOf(run[..n + 1], moves[..n]) + if Starts(run[n], moves[n]) then {n} else {};
  }

  // A run makes at most six steps for each call, whatever the order of the first load: no call goes on for ever.
  lemma {:induction false} EveryRunIsBounded(first: Order, run: seq<State>, moves: seq<Move>)
    requires IsRun(first, run, moves)
    ensures |run[|moves|].threads| == |run[0].threads|
    ensures |moves| + Sum(ToGo, run[|moves|].threads) <= 6 * |run[0].threads| + 7 * |StartsOf(run, moves)|
  {
    if moves == [] {
      SumAtMost(ToGo, run[0].threads, 6);
    } else {
      var n := |moves| - 1;
      EveryRunIsBounded(first, run[..n + 1], moves[..n]);
      assert Next(first, run[n], moves[n], run[n + 1]);
      StepNears(first, run[n], moves[n], run[n + 1]);
      SumUpdate(ToGo, run[n].threads, moves[n].thread, run[n + 1].threads[moves[n].thread]);
      StartsGrow(run, moves, n);
    }
  }

  // Once the object is published nothing is built or stored any more, and a caller who gets the lock then finds
  // it: the next step of that thread makes it the caller's result, and the one after that returns it.
  lemma PublishedIsFound(run: seq<State>, moves: seq<Move>, m: Move, s': State)
    requires IsRun(Acquire, run, moves) && Next(Acquire, run[|moves|], m, s')
    requires |run[|moves|].history| == 2
    ensures var s := run[|moves|];
            && s'.history == s.history && s'.built == s.built && |s.built| == 1
            && (s.threads[m.thread].pc == Locked ==> s'.threads[m.thread].pc == Unlocking(s.built[0]))
            && (s.threads[m.thread].pc.Unlocking? ==> s'.threads[m.thread].pc == Returned(s.built[0]))
  {
    RunInv(run, moves);
    assert Knows(run[|moves|], run[|moves|].threads[m.thread]);
  }

  lemma NeverLocksAgain(s: State, m: Move, s': State, t: nat)
    requires Inv(s) && Next(Acquire, s, m, s') && t < |s.threads| && s.threads[t].view.time == 1
    requires s.threads[t].pc.Calling? || s.threads[t].pc.Returned?
    ensures t < |s'.threads| && s'.threads[t].view.time == 1
    ensures s'.threads[t].pc.Calling? || s'.threads[t].pc.Returned?
  {
    assert Knows(s, s.threads[t]);
  }

  // A thread that has got the object once never takes the lock again.
  lemma {:induction false} LocksInOneCallOnly(run: seq<State>, moves: seq<Move>, i: nat, t: nat)
    requires IsRun(Acquire, run, moves) && i <= |moves|
    requires t < |run[i].threads| && run[i].threads[t].pc.Returned?
    ensures t < |run[|moves|].threads| && run[|moves|].threads[t].view.time == 1
    ensures run[|moves|].threads[t].pc.Calling? || run[|moves|].threads[t].pc.Returned?
  {
    if i == |moves| {
      RunInv(run, moves);
      assert Knows(run[i], run[i].threads[t]);
    } else {
      var n := |moves| - 1;
      LocksInOneCallOnly(run[..n + 1], moves[..n], i, t);
      RunInv(run[..n + 1], moves[..n]);
      assert Next(Acquire, run[n], moves[n], run[n + 1]);
      NeverLocksAgain(run[n], moves[n], run[n + 1], t);
    }
  }

  // Some call has returned an object whose construction it cannot see.
  ghost predicate Unsafe(s: State) {
    exists t | 0 <= t < |s.threads| ::
      s.threads[t].pc.Returned? && s.threads[t].pc.p !in s.threads[t].view.seen
  }

  lemma Step(first: Order, run: seq<State>, moves: seq<Move>, m: Move, s: State)
    returns (run': seq<State>, moves': seq<Move>)
    requires IsRun(first, run, moves) && Next(first, run[|moves|], m, s)
    ensures IsRun(first, run', moves') && run'[|moves'|] == s
  {
    run', moves' := run + [s], moves + [m];
  }

  const NOTHING := View(0, {})
  const BUILT := View(1, {7})
  const STARTED := Thread(Calling, NOTHING)
  const NULL_ONLY := [Message(0, NOTHING)]

  // Thread 0 finds null twice under the lock, whatever the order of its first load.
  lemma FindsNullTwice(first: Order) returns (run: seq<State>, moves: seq<Move>)
    ensures IsRun(first, run, moves)
    ensures run[|moves|] == State(NULL_ONLY, HeldBy(0), NOTHING, [], [Thread(Building, NOTHING), STARTED])
  {
    var s := State(NULL_ONLY, Free, NOTHING, [], [STARTED, STARTED]);
    run, moves := [s], [];
    assert Join(NOTHING, NOTHING) == NOTHING && Load(NOTHING, NULL_ONLY, 0, first) == NOTHING;
    run, moves := Step(first, run, moves, Move(0, 0), s.(threads := [Thread(WantsLock, NOTHING), STARTED]));
    run, moves := Step(first, run, moves, Move(0, 0),
                       s.(mutex := HeldBy(0), threads := [Thread(Locked, NOTHING), STARTED]));
    run, moves := Step(first, run, moves, Move(0, 0),
                       s.(mutex := HeldBy(0), threads := [Thread(Building, NOTHING), STARTED]));
  }

  // Then it builds and publishes the object.
  lemma Publishes(first: Order) returns (run: seq<State>, moves: seq<Move>)
    ensures IsRun(first, run, moves)
    ensures run[|moves|] == State(NULL_ONLY + [Message(7, BUILT)], HeldBy(0), NOTHING, [7],
                                  [Thread(Unlocking(7), BUILT), STARTED])
  {
    run, moves := FindsNullTwice(first);
    assert NOTHING.seen + {7} == BUILT.seen;
    run, moves := Step(first, run, moves, Move(0, 7),
                       State(NULL_ONLY, HeldBy(0), NOTHING, [7], [Thread(Storing(7), View(0, {7})), STARTED]));
    run, moves := Step(first, run, moves, Move(0, 0),
                       State(NULL_ONLY + [Message(7, BUILT)], HeldBy(0), NOTHING, [7],
                             [Thread(Unlocking(7), BUILT), STARTED]));
  }

  // With a relaxed first load the other thread reads the pointer and nothing else.
  lemma RelaxedRun() returns (run: seq<State>, moves: seq<Move>)
    ensures IsRun(Relaxed, run, moves) && Unsafe(run[|moves|])
  {
    run, moves := Publishes(Relaxed);
    var s := run[|moves|];
    var late := Thread(Returned(7), View(1, {}));
    run, moves := Step(Relaxed, run, moves, Move(1, 1), s.(threads := [s.threads[0], late]));
    assert run[|moves|].threads[1] == late;
  }

  // The acquire order of the first load is what makes returning without the lock safe.
  lemma SafeExactlyWithAcquire(first: Order)
    ensures (forall run, moves | IsRun(first, run, moves) :: !Unsafe(run[|moves|])) <==> first == Acquire
  {
    if first == Acquire {
      forall run, moves | IsRun(first, run, moves) ensures !Unsafe(run[|moves|]) {
        OneSingletonForAll(run, moves);
      }
    } else {
      var run, moves := RelaxedRun();
    }
  }
}
