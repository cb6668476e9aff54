/** The linked list of the connection queue: what queue_put and queue_get do between locking and unlocking. */
module BlockingQueue {
  import opened Wrappers

  class Message {
    var sock: int
    var next: Message?

    constructor (sock: int)
      ensures this.sock == sock && next == null
    {
      this.sock := sock;
      next := null;
    }
  }

  function Behind(nodes: seq<Message>, i: nat): Message? {
    if i < |nodes| then nodes[i] else null
  }

  // Following next from start visits exactly these messages, then ends.
  ghost predicate Chain(start: Message?, nodes: seq<Message>)
    reads nodes
  {
    && start == Behind(nodes, 0)
    && forall i | 0 <= i < |nodes| :: nodes[i].next == Behind(nodes, i + 1)
  }

  lemma ChainFrom(start: Message?, nodes: seq<Message>, k: nat)
    requires Chain(start, nodes) && k < |nodes|
    ensures Chain(nodes[k], nodes[k..]) && Chain(nodes[k].next, nodes[k + 1..])
  {
    assert nodes[k].next == Behind(nodes, k + 1);
    ChainSuffix(start, nodes, k);
    ChainSuffix(start, nodes, k + 1);
  }

  lemma ChainSuffix(start: Message?, nodes: seq<Message>, k: nat)
    requires Chain(start, nodes) && k <= |nodes|
    ensures Chain(Behind(nodes, k), nodes[k..])
  {
    var rest := nodes[k..];
    forall i | 0 <= i < |rest| ensures rest[i].next == Behind(rest, i + 1) {
      assert rest[i] == nodes[k + i] && Behind(rest, i + 1) == Behind(nodes, k + i + 1);
    }
  }

  lemma ChainExtended(start: Message?, nodes: seq<Message>, mq: Message)
    requires start == Behind(nodes, 0) && mq.next == null
    requires forall i | 0 <= i < |nodes| - 1 :: nodes[i].next == Behind(nodes, i + 1)
    requires nodes != [] ==> nodes[|nodes| - 1].next == mq
    ensures Chain(if nodes == [] then mq else start, nodes + [mq])
  {
    forall i | 0 <= i < |nodes + [mq]| ensures (nodes + [mq])[i].next == Behind(nodes + [mq], i + 1) {
    }
  }

  // The list is determined by its start: the ghost sequence below is no free choice.
  lemma {:induction false} ChainIsUnique(start: Message?, a: seq<Message>, b: seq<Message>)
    requires Chain(start, a) && Chain(start, b)
    ensures a == b
  {
    if a != [] {
      ChainFrom(start, a, 0);
      ChainFrom(start, b, 0);
      ChainIsUnique(a[0].next, a[1..], b[1..]);
      assert a == [a[0]] + a[1..] && b == [b[0]] + b[1..];
    }
  }

  // A list that ends never meets a message twice: from two equal messages on, the rests would be equal.
  lemma {:induction false} ChainIsAcyclic(start: Message?, nodes: seq<Message>)
    requires Chain(start, nodes)
    ensures forall i, j | 0 <= i < j < |nodes| :: nodes[i] != nodes[j]
  {
    forall i, j | 0 <= i < j < |nodes| ensures nodes[i] != nodes[j] {
      if nodes[i] == nodes[j] {
        ChainFrom(start, nodes, i);
        ChainFrom(start, nodes, j);
        ChainIsUnique(nodes[i], nodes[i..], nodes[j..]);
      }
    }
  }

  class Queue {
    var first: Message?
    var last: Message?
    var length: int

    ghost var nodes: seq<Message>
    ghost var contents: seq<int>

    ghost predicate Valid()
      reads this, nodes
    {
      && Chain(first, nodes)
      && last == (if nodes == [] then null else nodes[|nodes| - 1])
      && length == |nodes| == |contents|
      && forall i | 0 <= i < |nodes| :: nodes[i].sock == contents[i]
    }

    constructor ()
      ensures Valid() && contents == []
    {
      first, last, length := null, null, 0;
      nodes, contents := [], [];
    }

    method Put(sock: int)
      requires Valid()
      modifies this
      modifies if last == null then {} else {last}
      ensures Valid() && contents == old(contents) + [sock]
      ensures last != null && fresh(last) && nodes == old(nodes) + [last]
    {
      ChainIsAcyclic(first, nodes);
      var mq := new Message(sock);
      if first == null {
        first := mq;
      } else {
        last.next := mq;
      }
      last := mq;
      length := length + 1;
      ChainExtended(old(first), nodes, mq);
      nodes, contents := nodes + [mq], contents + [sock];
    }

    // None where queue_get goes to sleep. The socket is read when the list has already been given back.
    method TryGet() returns (sock: Option<int>)
      requires Valid()
      modifies this
      ensures Valid()
      ensures sock.None? <==> old(contents) == []
      ensures sock.None? ==> unchanged(this)
      ensures sock.Some? ==> old(contents) == [sock.value] + contents
      ensures sock.Some? ==> old(nodes) == [old(first)] + nodes && old(first) !in nodes
    {
      if length == 0 {
        return None;
      }
      ChainFrom(first, nodes, 0);
      ChainIsAcyclic(first, nodes);
      length := length - 1;
      var mq := first;
      if first == last && first.next == null {
        first, last := null, null;
      } else {
        first := first.next;
      }
      nodes, contents := nodes[1..], contents[1..];
      return Some(mq.sock);
    }
  }

  // The three ways of asking whether the queue is empty agree, which is why queue_put may test first and
  // queue_get may test length.
  lemma EmptyIsEmpty(q: Queue)
    requires q.Valid()
    ensures q.first == null <==> q.last == null
    ensures q.first == null <==> q.length == 0
    ensures q.first == null <==> q.contents == []
  {
    if q.nodes != [] {
      assert q.nodes[0] == q.first;
    }
  }
}
