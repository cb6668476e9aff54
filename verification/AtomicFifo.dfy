/** The specification of the connection queue: one sequence, and calls that take effect at one instant.

    A call of put is invoked, takes effect, and returns; so does a call of get, and get can take effect
    only on a queue that is not empty. The two histories record the effects in the order they happened. */
module AtomicFifo {

  datatype Call = Idle | Putting(sock: int) | PutDone | Getting | Holding(sock: int)

  datatype Fifo = Fifo(items: seq<int>, calls: seq<Call>, puts: seq<int>, gets: seq<int>)

  datatype Event = Invoke(sock: int) | Append | Return | Remove | Again | Silent

  ghost predicate Start(f: Fifo) {
    f.items == [] && f.puts == [] && f.gets == [] &&
    forall t | 0 <= t < |f.calls| :: f.calls[t] == Idle || f.calls[t] == Getting
  }

  predicate Happens(f: Fifo, t: nat, e: Event, g: Fifo) {
    && t < |f.calls|
    && match e
       case Invoke(k) => f.calls[t] == Idle && g == f.(calls := f.calls[t := Putting(k)])
       case Append =>
         && f.calls[t].Putting?
         && g == f.(calls := f.calls[t := PutDone], items := f.items + [f.calls[t].sock],
                    puts := f.puts + [f.calls[t].sock])
       case Return => f.calls[t] == PutDone && g == f.(calls := f.calls[t := Idle])
       case Remove =>
         && f.calls[t] == Getting && f.items != []
         && g == f.(calls := f.calls[t := Holding(f.items[0])], items := f.items[1..],
                    gets := f.gets + [f.items[0]])
       case Again => f.calls[t].Holding? && g == f.(calls := f.calls[t := Getting])
       case Silent => g == f
  }

  ghost predicate FifoNext(f: Fifo, g: Fifo) {
    exists t: nat, e :: Happens(f, t, e, g)
  }

  // Each step of the run is one event of the queue, or nothing the queue can see.
  ghost predicate IsFifoRun(run: seq<Fifo>) {
    && |run| > 0 && Start(run[0])
    && forall i | 0 <= i < |run| - 1 :: FifoNext(run[i], run[i + 1])
  }

  // Nothing is lost, made up or reordered: what was put is what was taken, then what is queued.
  lemma {:induction false} FirstInFirstOut(run: seq<Fifo>)
    requires IsFifoRun(run)
    ensures var f := run[|run| - 1]; f.puts == f.gets + f.items
  {
    if |run| > 1 {
      var before := run[..|run| - 1];
      FirstInFirstOut(before);
      var f, g := run[|run| - 2], run[|run| - 1];
      assert f == before[|before| - 1];
      assert g == run[|run| - 2 + 1];
      var t: nat, e :| Happens(f, t, e, g);
      if e.Remove? {
        assert f.items == [f.items[0]] + g.items;
      }
    }
  }
}
