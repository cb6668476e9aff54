/** Every run of the worker pool is a run of the atomic queue. */
module PoolRefinement {
  import opened AtomicFifo
  import opened PoolInvariant
  import opened WorkerPool

  function CallOf(pc: Pc, heap: map<Addr, Message>): Call {
    match pc
    case Accepting => Idle
    case Prepared(n) => Putting(SockAt(heap, n))
    case PutLocked(n) => Putting(SockAt(heap, n))
    case PutLinked(_) => PutDone
    case PutTailed => PutDone
    case PutCounted => PutDone
    case Signalling => PutDone
    case Detached(n) => Holding(SockAt(heap, n))
    case Unlocked(n) => Holding(SockAt(heap, n))
    case Read(_, sock) => Holding(sock)
    case Serving(sock) => Holding(sock)
    case _ => Getting
  }

  function Calls(s: State): seq<Call> {
    seq(|s.pcs|, t requires 0 <= t < |s.pcs| => CallOf(s.pcs[t], s.heap))
  }

  ghost predicate Matches(s: State, f: Fifo) {
    f.items == Contents(s) && f.calls == Calls(s)
  }

  // The event of the queue that a step is.
  function EventOf(s: State, m: Move): Event {
    if m.Spurious? || m.thread >= |s.pcs| then Silent
    else match s.pcs[m.thread]
      case Accepting => if s.arrivals == [] then Silent else Invoke(s.arrivals[0])
      case PutLocked(_) => Append
      case Signalling => Return
      case Picked(_) => Remove
      case Serving(_) => Again
      case _ => Silent
  }

  lemma SocksStay(s: State, m: Move, s': State)
    requires Next(s, m, s')
    ensures forall a | a in s.heap && a in s'.heap :: s'.heap[a].sock == s.heap[a].sock
  {
  }

  lemma OthersStay(s: State, m: Move, s': State)
    requires Next(s, m, s')
    ensures |s'.pcs| == |s.pcs|
    ensures forall u | 0 <= u < |s.pcs| && u != m.thread ::
              s'.pcs[u] == s.pcs[u] || (s.pcs[u] == Sleeping && s'.pcs[u] == Woken)
  {
    if m.Step? && !s.pcs[m.thread].Accepting? && !s.pcs[m.thread].Signalling? {
      RunLocks(s, m.thread, s');
    }
  }

  lemma OtherCallsStay(s: State, chain: seq<Addr>, m: Move, s': State, chain': seq<Addr>, u: nat)
    requires Owned(s, chain) && Next(s, m, s') && Owned(s', chain') && u < |s.pcs| && u != m.thread
    ensures |s'.pcs| == |s.pcs| && CallOf(s'.pcs[u], s'.heap) == CallOf(s.pcs[u], s.heap)
  {
    SocksStay(s, m, s');
    OthersStay(s, m, s');
  }

  lemma CallsStep(s: State, chain: seq<Addr>, m: Move, s': State, chain': seq<Addr>)
    requires Owned(s, chain) && Next(s, m, s') && Owned(s', chain')
    ensures |s'.pcs| == |s.pcs| && Calls(s') == Calls(s)[m.thread := Calls(s')[m.thread]]
  {
    OthersStay(s, m, s');
    forall u | 0 <= u < |s.pcs| && u != m.thread ensures Calls(s')[u] == Calls(s)[u] {
      OtherCallsStay(s, chain, m, s', chain', u);
    }
  }

  // What the running thread's own call becomes.
  lemma RunCall(s: State, t: nat, s': State)
    requires t < |s.pcs| && !s.pcs[t].Accepting? && !s.pcs[t].Signalling? && Run(s, t) == Ok(s')
    ensures |s'.pcs| == |s.pcs|
    ensures var before, after := CallOf(s.pcs[t], s.heap), CallOf(s'.pcs[t], s'.heap);
            match s.pcs[t] {
              case PutLocked(n) => before == Putting(SockAt(s.heap, n)) && after == PutDone
              case Picked(n) => before == Getting && after == Holding(SockAt(s.heap, n))
              case Serving(_) => before.Holding? && after == Getting
              case _ => after == before
            }
  {
  }

  lemma OwnCall(s: State, m: Move, s': State)
    requires Next(s, m, s')
    ensures |s'.pcs| == |s.pcs|
    ensures var before, after := CallOf(s.pcs[m.thread], s.heap), CallOf(s'.pcs[m.thread], s'.heap);
            match EventOf(s, m) {
              case Invoke(k) => before == Idle && after == Putting(k)
              case Append => before == Putting(SockAt(s.heap, s.pcs[m.thread].node)) && after == PutDone
              case Return => before == PutDone && after == Idle
              case Remove => before == Getting && after == Holding(SockAt(s.heap, s.pcs[m.thread].node))
              case Again => before.Holding? && after == Getting
              case Silent => after == before
            }
  {
    if m.Step? && !s.pcs[m.thread].Accepting? && !s.pcs[m.thread].Signalling? {
      RunCall(s, m.thread, s');
    }
  }

  lemma ContentsStep(s: State, chain: seq<Addr>, m: Move, s': State)
    requires m.thread < |s.pcs| && (s.pcs[m.thread].Picked? ==> chain != [])
    requires Contents(s) == Socks(s.heap, chain) && Contents(s') == Socks(s'.heap, ChainAfter(s, chain, m))
    requires forall a | a in ChainAfter(s, chain, m) :: a in s.heap && a in s'.heap
    requires forall a | a in s.heap && a in s'.heap :: s'.heap[a].sock == s.heap[a].sock
    ensures Contents(s') == match EventOf(s, m) {
              case Append => Contents(s) + [SockAt(s.heap, s.pcs[m.thread].node)]
              case Remove => if Contents(s) == [] then [] else Contents(s)[1..]
              case _ => Contents(s)
            }
  {
    var chain' := ChainAfter(s, chain, m);
    assert forall i | 0 <= i < |chain'| :: chain'[i] in chain';
  }

  // A step as the queue sees it: what its thread's call and the contents become.
  ghost predicate Moves(e: Event, before: Call, after: Call, items: seq<int>, items': seq<int>) {
    match e
    case Invoke(k) => before == Idle && after == Putting(k) && items' == items
    case Append => before.Putting? && after == PutDone && items' == items + [before.sock]
    case Return => before == PutDone && after == Idle && items' == items
    case Remove => before == Getting && items != [] && after == Holding(items[0]) && items' == items[1..]
    case Again => before.Holding? && after == Getting && items' == items
    case Silent => after == before && items' == items
  }

  lemma Happened(f: Fifo, t: nat, e: Event, calls: seq<Call>, items: seq<int>) returns (g: Fifo)
    requires t < |f.calls| == |calls| && calls == f.calls[t := calls[t]]
    requires Moves(e, f.calls[t], calls[t], f.items, items)
    ensures g.items == items && g.calls == calls && Happens(f, t, e, g)
  {
    g := Fifo(items, calls, if e.Append? then f.puts + [f.calls[t].sock] else f.puts,
              if e.Remove? then f.gets + [f.items[0]] else f.gets);
  }

  // The node a worker picks holds the first of the contents.
  lemma PickedIsFirst(s: State, chain: seq<Addr>, t: nat)
    requires Exclusive(s) && Fields(s, chain) && t < |s.pcs| && s.pcs[t].Picked? && Contents(s) == Socks(s.heap, chain)
    ensures chain != [] && Contents(s) != [] && Contents(s)[0] == SockAt(s.heap, s.pcs[t].node)
  {
    assert Holder(s) == s.pcs[t];
  }

  lemma StepMoves(s: State, chain: seq<Addr>, m: Move, s': State)
    requires Inv(s, chain) && Next(s, m, s') && Inv(s', ChainAfter(s, chain, m))
    ensures |s'.pcs| == |s.pcs|
    ensures Moves(EventOf(s, m), CallOf(s.pcs[m.thread], s.heap), CallOf(s'.pcs[m.thread], s'.heap),
                  Contents(s), Contents(s'))
  {
    var chain' := ChainAfter(s, chain, m);
    NodesAreChain(s, chain);
    NodesAreChain(s', chain');
    SocksStay(s, m, s');
    if s.pcs[m.thread].Picked? {
      PickedIsFirst(s, chain, m.thread);
    }
    ChainIsLive(s, chain, m, s');
    ContentsStep(s, chain, m, s');
    OwnCall(s, m, s');
  }

  lemma ChainIsLive(s: State, chain: seq<Addr>, m: Move, s': State)
    requires Owned(s, chain) && Next(s, m, s') && Owned(s', ChainAfter(s, chain, m))
    ensures forall a | a in ChainAfter(s, chain, m) :: a in s.heap && a in s'.heap
  {
  }

  lemma Simulates(s: State, chain: seq<Addr>, m: Move, s': State, f: Fifo) returns (g: Fifo)
    requires Inv(s, chain) && Next(s, m, s') && Matches(s, f)
    ensures Matches(s', g) && Happens(f, m.thread, EventOf(s, m), g)
  {
    KeepsInv(s, chain, m, s');
    StepMoves(s, chain, m, s');
    CallsStep(s, chain, m, s', ChainAfter(s, chain, m));
    g := Happened(f, m.thread, EventOf(s, m), Calls(s'), Contents(s'));
  }

  predicate IsAcceptor(pc: Pc) {
    pc.Accepting? || pc.Prepared? || pc.PutLocked? || pc.PutLinked? || pc.PutTailed? || pc.PutCounted? ||
    pc.Signalling?
  }

  ghost predicate OneAcceptor(s: State, a: nat) {
    a < |s.pcs| && forall t | 0 <= t < |s.pcs| :: IsAcceptor(s.pcs[t]) <==> t == a
  }

  function InHand(c: Call): seq<int> {
    if c.Putting? then [c.sock] else []
  }

  lemma RolesStay(s: State, m: Move, s': State)
    requires Next(s, m, s')
    ensures |s'.pcs| == |s.pcs|
    ensures forall t | 0 <= t < |s.pcs| :: IsAcceptor(s'.pcs[t]) == IsAcceptor(s.pcs[t])
  {
    OthersStay(s, m, s');
  }

  ghost predicate AllAccountedFor(total: seq<int>, s: State, f: Fifo, a: nat) {
    OneAcceptor(s, a) && |f.calls| == |s.pcs| && total == f.puts + InHand(f.calls[a]) + s.arrivals
  }

  lemma AccountStep(total: seq<int>, s: State, m: Move, s': State, f: Fifo, g: Fifo, a: nat)
    requires AllAccountedFor(total, s, f, a) && Next(s, m, s') && Matches(s, f)
    requires Happens(f, m.thread, EventOf(s, m), g)
    ensures AllAccountedFor(total, s', g, a)
  {
    RolesStay(s, m, s');
  }

  lemma {:induction false} RefinesSteps(run: seq<State>, moves: seq<Move>, a: nat) returns (fifos: seq<Fifo>)
    requires IsRun(run, moves)
    ensures |fifos| == |run| && IsFifoRun(fifos)
    ensures forall i | 0 <= i < |run| :: Matches(run[i], fifos[i])
    ensures OneAcceptor(run[0], a) ==> AllAccountedFor(run[0].arrivals, run[|moves|], fifos[|moves|], a)
  {
    if moves == [] {
      fifos := [Fifo([], Calls(run[0]), [], [])];
    } else {
      var n := |moves| - 1;
      var before := RefinesSteps(run[..n + 1], moves[..n], a);
      assert Next(run[n], moves[n], run[n + 1]);
      var chain := RunInv(run[..n + 1], moves[..n]);
      assert Matches(run[n], before[n]);
      var g := Simulates(run[n], chain, moves[n], run[n + 1], before[n]);
      assert FifoNext(before[n], g);
      fifos := before + [g];
      if OneAcceptor(run[0], a) {
        AccountStep(run[0].arrivals, run[n], moves[n], run[n + 1], before[n], g, a);
      }
    }
  }

  // Every run of the pool, however its threads interleave, is a run of the atomic queue: the sockets
  // reached by walking from first are its contents, and each thread's call has the status it has there.
  lemma Refines(run: seq<State>, moves: seq<Move>) returns (fifos: seq<Fifo>)
    requires IsRun(run, moves)
    ensures |fifos| == |run| && IsFifoRun(fifos)
    ensures forall i | 0 <= i < |run| :: Matches(run[i], fifos[i])
    ensures var s, f := run[|moves|], fifos[|moves|]; f.puts == f.gets + Contents(s)
  {
    fifos := RefinesSteps(run, moves, 0);
    FirstInFirstOut(fifos);
  }

  // With one acceptor, as server() has, connections come out in the order they arrived: those handed
  // to workers, those in the list, the one the acceptor holds, and those still to come are all of them.
  lemma InOrder(run: seq<State>, moves: seq<Move>, a: nat) returns (fifos: seq<Fifo>)
    requires IsRun(run, moves) && OneAcceptor(run[0], a)
    ensures |fifos| == |run| && IsFifoRun(fifos)
    ensures forall i | 0 <= i < |run| :: Matches(run[i], fifos[i])
    ensures var s, f := run[|moves|], fifos[|moves|];
            OneAcceptor(s, a) && |f.calls| == |s.pcs| &&
            run[0].arrivals == f.gets + Contents(s) + InHand(f.calls[a]) + s.arrivals
  {
    fifos := RefinesSteps(run, moves, a);
    FirstInFirstOut(fifos);
  }
}
