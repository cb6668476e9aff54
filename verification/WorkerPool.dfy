/** The acceptor and worker threads of the connection pool, one statement a step.

    Every thread runs queue_put or queue_get over one shared heap of messages. Steps interleave in any
    order, calloc may return any address that is not live (so freed addresses come back), a signal
    may wake any sleeper and a sleeper may wake without a signal. Reading or freeing an address that
    is not live is a Fault. */
module WorkerPool {
  type Addr = nat  // 0 is the null pointer

  datatype Message = Message(sock: int, next: Addr)

  datatype Mutex = Free | HeldBy(thread: nat)

  // Where a thread is: the name says what it has done last.
  datatype Pc =
    | Accepting                           // acceptor, in accept()
    | Prepared(node: Addr)                // message allocated and filled in, mutex not yet taken
    | PutLocked(node: Addr)
    | PutLinked(node: Addr)
    | PutTailed
    | PutCounted
    | Signalling                          // mutex released, cond_signal still to come
    | Fetching                            // worker, entering queue_get
    | Checking                            // holds the mutex, about to test length == 0
    | Sleeping                            // inside cond_wait, mutex released
    | Woken                               // signalled, mutex not yet taken back
    | Claimed
    | Picked(node: Addr)
    | Detached(node: Addr)
    | Unlocked(node: Addr)
    | Read(node: Addr, sock: int)
    | Serving(sock: int)

  datatype State = State(arrivals: seq<int>, heap: map<Addr, Message>, first: Addr, last: Addr,
                         length: int, mutex: Mutex, pcs: seq<Pc>)

  // What the environment decides in a step: the address calloc returns, or the sleeper a signal wakes.
  datatype Choice = Go | Alloc(addr: Addr) | Wake(sleeper: nat)

  datatype Outcome = Blocked | Fault | Ok(state: State)

  predicate SomeoneSleeps(s: State) {
    exists t | 0 <= t < |s.pcs| :: s.pcs[t] == Sleeping
  }

  function At(s: State, t: nat, pc: Pc): State
    requires t < |s.pcs|
  {
    s.(pcs := s.pcs[t := pc])
  }

  function Lock(s: State, t: nat, pc: Pc): Outcome
    requires t < |s.pcs|
  {
    if s.mutex == Free then Ok(At(s, t, pc).(mutex := HeldBy(t))) else Blocked
  }

  function Unlock(s: State, t: nat, pc: Pc): Outcome
    requires t < |s.pcs|
  {
    Ok(At(s, t, pc).(mutex := Free))
  }

  // One step of thread t.
  function Exec(s: State, t: nat, c: Choice): Outcome
    requires t < |s.pcs|
  {
    match s.pcs[t]
    case Accepting =>
      if !c.Alloc? || s.arrivals == [] || c.addr == 0 || c.addr in s.heap then Blocked
      else Ok(At(s, t, Prepared(c.addr)).(arrivals := s.arrivals[1..],
                                          heap := s.heap[c.addr := Message(s.arrivals[0], 0)]))
    case Signalling =>
      if c.Wake? && c.sleeper < |s.pcs| && s.pcs[c.sleeper] == Sleeping
      then Ok(At(At(s, c.sleeper, Woken), t, Accepting))
      else if c.Go? && !SomeoneSleeps(s) then Ok(At(s, t, Accepting))
      else Blocked
    case _ => if c.Go? then Run(s, t) else Blocked
  }

  // The steps in which the environment has nothing to decide.
  function Run(s: State, t: nat): Outcome
    requires t < |s.pcs| && !s.pcs[t].Accepting? && !s.pcs[t].Signalling?
  {
    match s.pcs[t]
    case Prepared(n) => Lock(s, t, PutLocked(n))
    case PutLocked(n) =>
      if s.first == 0 then Ok(At(s, t, PutLinked(n)).(first := n))
      else if s.last !in s.heap then Fault
      else Ok(At(s, t, PutLinked(n)).(heap := s.heap[s.last := s.heap[s.last].(next := n)]))
    case PutLinked(n) => Ok(At(s, t, PutTailed).(last := n))
    case PutTailed => Ok(At(s, t, PutCounted).(length := s.length + 1))
    case PutCounted => Unlock(s, t, Signalling)
    case Fetching => Lock(s, t, Checking)
    case Woken => Lock(s, t, Checking)
    case Checking =>
      if s.length == 0 then Unlock(s, t, Sleeping) else Ok(At(s, t, Claimed).(length := s.length - 1))
    case Sleeping => Blocked
    case Claimed => Ok(At(s, t, Picked(s.first)))
    case Picked(n) =>
      if s.first !in s.heap then Fault
      else if s.first == s.last && s.heap[s.first].next == 0
      then Ok(At(s, t, Detached(n)).(first := 0, last := 0))
      else Ok(At(s, t, Detached(n)).(first := s.heap[s.first].next))
    case Detached(n) => Unlock(s, t, Unlocked(n))
    case Unlocked(n) => if n !in s.heap then Fault else Ok(At(s, t, Read(n, s.heap[n].sock)))
    case Read(n, sock) => if n !in s.heap then Fault else Ok(At(s, t, Serving(sock)).(heap := s.heap - {n}))
    case Serving(sock) => Ok(At(s, t, Fetching))
  }

  // A move of the pool: a thread's step, or a wakeup nobody asked for.
  datatype Move = Step(thread: nat, choice: Choice) | Spurious(thread: nat)

  predicate Next(s: State, m: Move, s': State) {
    && m.thread < |s.pcs|
    && if m.Step? then Exec(s, m.thread, m.choice) == Ok(s')
       else s.pcs[m.thread] == Sleeping && s' == At(s, m.thread, Woken)
  }

  predicate Init(s: State) {
    && s.heap == map[] && s.first == 0 && s.last == 0 && s.length == 0 && s.mutex == Free
    && forall t | 0 <= t < |s.pcs| :: s.pcs[t] == Accepting || s.pcs[t] == Fetching
  }

  ghost predicate IsRun(run: seq<State>, moves: seq<Move>) {
    && |run| == |moves| + 1
    && Init(run[0])
    && forall i | 0 <= i < |moves| :: Next(run[i], moves[i], run[i + 1])
  }
}
