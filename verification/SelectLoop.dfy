/** The acceptor that watches several listening sockets with select. */
module SelectLoop {

  const SLOTS := 32

  // What accept says: a connection, EINTR, or any other error (its result is -1).
  datatype Answer = Conn(fd: nat) | Interrupted | Failed

  // One turn of the endless loop: the sockets the kernel finds ready, and accept's answer for each slot.
  datatype Round = Round(ready: set<int>, answers: seq<Answer>)

  datatype Call = Call(sock: int, answer: Answer)

  datatype Select = Select(maxfd: int, readfds: set<int>)

  function Listeners(socks: seq<int>): set<int> {
    set s | s in socks && s >= 0
  }

  ghost predicate Distinct(socks: seq<int>) {
    forall i, j | 0 <= i < j < |socks| && socks[i] >= 0 :: socks[i] != socks[j]
  }

  // One more than the highest descriptor.
  ghost predicate Bounds(maxfd: int, fds: set<int>) {
    && (forall s | s in fds :: s < maxfd)
    && (maxfd - 1 in fds || maxfd == 1)
  }

  // Ready listeners among the first n slots, each asked once, in slot order.
  function CallsUpTo(socks: seq<int>, r: Round, n: nat): seq<Call>
    requires n <= |socks| == |r.answers|
  {
    if n == 0 then []
    else CallsUpTo(socks, r, n - 1) +
         if socks[n - 1] >= 0 && socks[n - 1] in r.ready then [Call(socks[n - 1], r.answers[n - 1])] else []
  }

  function AllCalls(socks: seq<int>, rounds: seq<Round>): seq<Call>
    requires forall r | r in rounds :: |r.answers| == |socks|
  {
    if rounds == [] then []
    else AllCalls(socks, rounds[..|rounds| - 1]) + CallsUpTo(socks, rounds[|rounds| - 1], |socks|)
  }

  // What one answer leaves in the queue: -1 for a failure, which is logged and queued all the same.
  function Entry(a: Answer): seq<int> {
    match a
    case Conn(fd) => [fd as int]
    case Interrupted => []
    case Failed => [-1]
  }

  function Queued(calls: seq<Call>): seq<int> {
    if calls == [] then []
    else Queued(calls[..|calls| - 1]) + Entry(calls[|calls| - 1].answer)
  }

  lemma ListenersMore(socks: seq<int>, i: nat)
    requires i < |socks|
    ensures Listeners(socks[..i + 1]) == Listeners(socks[..i]) + if socks[i] >= 0 then {socks[i]} else {}
    ensures Distinct(socks) ==> socks[i] !in Listeners(socks[..i])
  {
    assert socks[..i + 1] == socks[..i] + [socks[i]];
  }

  // FD_SET for every slot in use, and the bound that select wants.
  method WatchAll(servSocks: array<int>) returns (readfds: set<int>, maxfd: int)
    ensures readfds == Listeners(servSocks[..]) && Bounds(maxfd, readfds)
  {
    readfds, maxfd := {}, 0;
    for i := 0 to servSocks.Length
      invariant readfds == Listeners(servSocks[..i])
      invariant (forall s | s in readfds :: s <= maxfd) && (maxfd in readfds || maxfd == 0)
    {
      var sock := servSocks[i];
      ListenersMore(servSocks[..], i);
      assert servSocks[..][..i] == servSocks[..i] && servSocks[..][..i + 1] == servSocks[..i + 1];
      if sock < 0 {
        continue;
      }
      maxfd := if sock > maxfd then sock else maxfd;
      readfds := readfds + {sock};
    }
    assert servSocks[..servSocks.Length] == servSocks[..];
    maxfd := maxfd + 1;
  }

  // What follows the last call of accept: nothing after EINTR, otherwise queue_put of its result.
  method Enqueue(calls: seq<Call>, queue: seq<int>) returns (queued: seq<int>)
    requires calls != [] && queue == Queued(calls[..|calls| - 1])
    ensures queued == Queued(calls)
  {
    match calls[|calls| - 1].answer {
      case Interrupted => queued := queue;
      case Conn(fd) => queued := queue + [fd];
      case Failed => queued := queue + [-1];
    }
  }

  // One slot. EINTR skips the FD_SET, but the bit is still on.
  method TakeSlot(sock: int, answer: Answer, readfds: set<int>, calls: seq<Call>, queue: seq<int>)
      returns (readfds': set<int>, calls': seq<Call>, queue': seq<int>)
    requires queue == Queued(calls)
    ensures readfds' == readfds + if sock >= 0 then {sock} else {}
    ensures calls' == calls + if sock >= 0 && sock in readfds then [Call(sock, answer)] else []
    ensures queue' == Queued(calls')
  {
    readfds', calls', queue' := readfds, calls, queue;
    if sock < 0 {
      return;
    }
    if sock in readfds {
      calls' := calls + [Call(sock, answer)];
      queue' := Enqueue(calls', queue);
      if answer.Interrupted? {
        return;
      }
    }
    readfds' := readfds + {sock};
  }

  /* ---- Where the calls are made: in which turn, at which slot. ---- */

  datatype Place = Place(turn: nat, slot: nat)

  predicate Before(p: Place, q: Place) {
    p.turn < q.turn || (p.turn == q.turn && p.slot < q.slot)
  }

  ghost predicate InOrder(places: seq<Place>) {
    forall i, j | 0 <= i < j < |places| :: Before(places[i], places[j])
  }

  predicate HasAnswers(socks: seq<int>, rounds: seq<Round>) {
    forall r | r in rounds :: |r.answers| >= |socks|
  }

  // The slot is in use, and its socket is ready in that turn.
  predicate IsAsked(p: Place, socks: seq<int>, rounds: seq<Round>) {
    && p.turn < |rounds| && p.slot < |socks|
    && socks[p.slot] >= 0 && socks[p.slot] in rounds[p.turn].ready
  }

  function AnswerAt(p: Place, socks: seq<int>, rounds: seq<Round>): Answer
    requires HasAnswers(socks, rounds) && p.turn < |rounds| && p.slot < |socks|
  {
    assert rounds[p.turn] in rounds;
    rounds[p.turn].answers[p.slot]
  }

  // These are all the places where a listener is asked, turn after turn and slot after slot.
  ghost predicate AreAsked(places: seq<Place>, socks: seq<int>, rounds: seq<Round>) {
    InOrder(places) && forall p :: p in places <==> IsAsked(p, socks, rounds)
  }

  // The calls are made at these places, of the socket that is there and with the answer given there.
  ghost predicate AreCallsAt(calls: seq<Call>, places: seq<Place>, socks: seq<int>, rounds: seq<Round>)
    requires HasAnswers(socks, rounds)
  {
    |calls| == |places| && forall i | 0 <= i < |calls| :: IsCallAt(calls[i], places[i], socks, rounds)
  }

  ghost predicate IsCallAt(c: Call, p: Place, socks: seq<int>, rounds: seq<Round>)
    requires HasAnswers(socks, rounds)
  {
    p.turn < |rounds| && p.slot < |socks| && c == Call(socks[p.slot], AnswerAt(p, socks, rounds))
  }

  lemma InOrderMore(places: seq<Place>, p: Place)
    requires InOrder(places) && forall q | q in places :: Before(q, p)
    ensures InOrder(places + [p])
  {
  }

  // The calls up to a slot of a turn.
  function CallsBefore(socks: seq<int>, rounds: seq<Round>, t: nat, n: nat): seq<Call>
    requires t <= |rounds| && n <= |socks| && (t == |rounds| ==> n == 0)
    requires forall r | r in rounds :: |r.answers| == |socks|
  {
    AllCalls(socks, rounds[..t]) + if n == 0 then [] else CallsUpTo(socks, rounds[t], n)
  }

  ghost predicate AreAskedBefore(places: seq<Place>, socks: seq<int>, rounds: seq<Round>, limit: Place) {
    InOrder(places) && forall p :: p in places <==> IsAsked(p, socks, rounds) && Before(p, limit)
  }

  lemma {:induction false} AskedBefore(socks: seq<int>, rounds: seq<Round>, t: nat, n: nat)
    returns (places: seq<Place>)
    requires t <= |rounds| && n <= |socks| && (t == |rounds| ==> n == 0)
    requires forall r | r in rounds :: |r.answers| == |socks|
    ensures AreAskedBefore(places, socks, rounds, Place(t, n))
    ensures AreCallsAt(CallsBefore(socks, rounds, t, n), places, socks, rounds)
    decreases t, n
  {
    if n > 0 {
      places := AskedBefore(socks, rounds, t, n - 1);
      places := NextSlot(places, socks, rounds, t, n);
    } else if t > 0 {
      places := AskedBefore(socks, rounds, t - 1, |socks|);
      TurnCalls(socks, rounds, t);
      TurnPlaces(places, socks, rounds, t);
    } else {
      places := [];
    }
  }

  lemma NextSlot(places: seq<Place>, socks: seq<int>, rounds: seq<Round>, t: nat, n: nat)
    returns (more: seq<Place>)
    requires t < |rounds| && 0 < n <= |socks| && forall r | r in rounds :: |r.answers| == |socks|
    requires AreAskedBefore(places, socks, rounds, Place(t, n - 1))
    requires AreCallsAt(CallsBefore(socks, rounds, t, n - 1), places, socks, rounds)
    ensures AreAskedBefore(more, socks, rounds, Place(t, n))
    ensures AreCallsAt(CallsBefore(socks, rounds, t, n), more, socks, rounds)
  {
    SlotCalls(socks, rounds, t, n);
    SlotPlaces(places, socks, rounds, t, n);
    var p := Place(t, n - 1);
    if IsAsked(p, socks, rounds) {
      CallsAtMore(CallsBefore(socks, rounds, t, n - 1), places, socks, rounds, p);
      more := places + [p];
    } else {
      more := places;
    }
  }

  lemma CallsAtMore(calls: seq<Call>, places: seq<Place>, socks: seq<int>, rounds: seq<Round>, p: Place)
    requires HasAnswers(socks, rounds) && AreCallsAt(calls, places, socks, rounds) && IsAsked(p, socks, rounds)
    ensures AreCallsAt(calls + [Call(socks[p.slot], AnswerAt(p, socks, rounds))], places + [p], socks, rounds)
  {
  }

  lemma TurnPlaces(places: seq<Place>, socks: seq<int>, rounds: seq<Round>, t: nat)
    requires t > 0 && AreAskedBefore(places, socks, rounds, Place(t - 1, |socks|))
    ensures AreAskedBefore(places, socks, rounds, Place(t, 0))
  {
  }

  lemma SlotPlaces(places: seq<Place>, socks: seq<int>, rounds: seq<Round>, t: nat, n: nat)
    requires n > 0 && AreAskedBefore(places, socks, rounds, Place(t, n - 1))
    ensures var p := Place(t, n - 1);
            AreAskedBefore(if IsAsked(p, socks, rounds) then places + [p] else places, socks, rounds, Place(t, n))
  {
    var p := Place(t, n - 1);
    forall q ensures Before(q, Place(t, n)) <==> Before(q, p) || q == p {
    }
    assert forall q | q in places :: Before(q, p);
    InOrderMore(places, p);
    assert forall q :: q in places + [p] <==> q in places || q == p;
  }

  lemma SlotCalls(socks: seq<int>, rounds: seq<Round>, t: nat, n: nat)
    requires t < |rounds| && 0 < n <= |socks|
    requires forall r | r in rounds :: |r.answers| == |socks|
    ensures CallsBefore(socks, rounds, t, n) == CallsBefore(socks, rounds, t, n - 1) +
            if IsAsked(Place(t, n - 1), socks, rounds)
            then [Call(socks[n - 1], AnswerAt(Place(t, n - 1), socks, rounds))] else []
  {
    var all, r := AllCalls(socks, rounds[..t]), rounds[t];
    var last := if socks[n - 1] >= 0 && socks[n - 1] in r.ready then [Call(socks[n - 1], r.answers[n - 1])] else [];
    assert CallsUpTo(socks, r, n) == CallsUpTo(socks, r, n - 1) + last;
    assert all + (CallsUpTo(socks, r, n - 1) + last) == (all + CallsUpTo(socks, r, n - 1)) + last;
    assert CallsBefore(socks, rounds, t, n - 1) == all + CallsUpTo(socks, r, n - 1);
  }

  lemma TurnCalls(socks: seq<int>, rounds: seq<Round>, t: nat)
    requires 0 < t <= |rounds| && forall r | r in rounds :: |r.answers| == |socks|
    ensures CallsBefore(socks, rounds, t, 0) == CallsBefore(socks, rounds, t - 1, |socks|)
  {
    assert rounds[..t][..t - 1] == rounds[..t - 1];
  }

  // So the calls of a run are told by the turns alone: one for each ready listener of each turn, in that order.
  lemma CallsByPlaces(socks: seq<int>, rounds: seq<Round>) returns (places: seq<Place>)
    requires forall r | r in rounds :: |r.answers| == |socks|
    ensures AreAsked(places, socks, rounds) && AreCallsAt(AllCalls(socks, rounds), places, socks, rounds)
  {
    places := AskedBefore(socks, rounds, |rounds|, 0);
    assert rounds[..|rounds|] == rounds;
  }

  lemma PassByPlaces(socks: seq<int>, r: Round) returns (places: seq<Place>)
    requires |r.answers| == |socks|
    ensures AreAsked(places, socks, [r]) && AreCallsAt(CallsUpTo(socks, r, |socks|), places, socks, [r])
  {
    places := CallsByPlaces(socks, [r]);
    assert AllCalls(socks, [r]) == AllCalls(socks, [r][..0]) + CallsUpTo(socks, r, |socks|);
  }

  lemma PassCalls(before: seq<Call>, calls: seq<Call>, socks: seq<int>, r: Round) returns (places: seq<Place>)
    requires |r.answers| == |socks| && (Distinct(socks) ==> calls == before + CallsUpTo(socks, r, |socks|))
    ensures Distinct(socks) ==>
              && AreAsked(places, socks, [r])
              && |calls| >= |before| && AreCallsAt(calls[|before|..], places, socks, [r])
  {
    places := PassByPlaces(socks, r);
    assert (before + CallsUpTo(socks, r, |socks|))[|before|..] == CallsUpTo(socks, r, |socks|);
  }

  /* ---- Where the entries of the queue come from. ---- */

  ghost predicate IsEntered(p: Place, socks: seq<int>, rounds: seq<Round>)
    requires HasAnswers(socks, rounds)
  {
    IsAsked(p, socks, rounds) && !AnswerAt(p, socks, rounds).Interrupted?
  }

  ghost predicate IsEntryOf(x: int, a: Answer) {
    x == match a case Conn(fd) => fd as int case _ => -1
  }

  // The queue holds an entry for every ready listener whose accept was not interrupted, in the order of the turns
  // and of the slots: the connection accepted there, or -1 where accept failed.
  ghost predicate AreEntriesAt(queue: seq<int>, places: seq<Place>, socks: seq<int>, rounds: seq<Round>)
    requires HasAnswers(socks, rounds)
  {
    && InOrder(places)
    && (forall p :: p in places <==> IsEntered(p, socks, rounds))
    && |queue| == |places|
    && forall i | 0 <= i < |queue| :: IsEnteredAt(queue[i], places[i], socks, rounds)
  }

  ghost predicate IsEnteredAt(x: int, p: Place, socks: seq<int>, rounds: seq<Round>)
    requires HasAnswers(socks, rounds)
  {
    IsAsked(p, socks, rounds) && IsEntryOf(x, AnswerAt(p, socks, rounds))
  }

  // The places of the calls that were not interrupted.
  lemma {:induction false} EntriesOf(calls: seq<Call>, places: seq<Place>, socks: seq<int>, rounds: seq<Round>)
    returns (kept: seq<Place>)
    requires HasAnswers(socks, rounds) && InOrder(places) && AreCallsAt(calls, places, socks, rounds)
    requires forall p | p in places :: IsAsked(p, socks, rounds)
    ensures InOrder(kept) && |kept| == |Queued(calls)|
    ensures forall p :: p in kept <==> p in places && IsEntered(p, socks, rounds)
    ensures forall i | 0 <= i < |kept| :: IsEnteredAt(Queued(calls)[i], kept[i], socks, rounds)
  {
    if calls == [] {
      return [];
    }
    var n := |calls| - 1;
    var p := places[n];
    assert p in places && IsCallAt(calls[n], p, socks, rounds);
    assert places == places[..n] + [p];
    kept := EntriesOf(calls[..n], places[..n], socks, rounds);
    if !calls[n].answer.Interrupted? {
      InOrderMore(kept, p);
      kept := kept + [p];
    }
  }

  lemma QueueByPlaces(socks: seq<int>, rounds: seq<Round>) returns (places: seq<Place>)
    requires forall r | r in rounds :: |r.answers| == |socks|
    ensures AreEntriesAt(Queued(AllCalls(socks, rounds)), places, socks, rounds)
  {
    var asked := CallsByPlaces(socks, rounds);
    places := EntriesOf(AllCalls(socks, rounds), asked, socks, rounds);
  }

  // The slots that are not in use enter nothing.
  lemma EntriesInUse(queue: seq<int>, places: seq<Place>, slots: seq<int>, sockets: seq<nat>, rounds: seq<Round>)
    requires |sockets| < |slots| && slots[..|sockets|] == sockets && HasAnswers(slots, rounds)
    requires forall i | |sockets| <= i < |slots| :: slots[i] == -1
    requires AreEntriesAt(queue, places, slots, rounds)
    ensures HasAnswers(sockets, rounds) && AreEntriesAt(queue, places, sockets, rounds)
  {
    forall p ensures IsAsked(p, slots, rounds) <==> IsAsked(p, sockets, rounds) {
      assert p.slot < |sockets| ==> slots[p.slot] == slots[..|sockets|][p.slot];
    }
    forall p | IsAsked(p, slots, rounds)
      ensures HasAnswers(sockets, rounds) && AnswerAt(p, slots, rounds) == AnswerAt(p, sockets, rounds)
    {
    }
    assert forall p :: IsEntered(p, slots, rounds) <==> IsEntered(p, sockets, rounds);
    forall i | 0 <= i < |queue| ensures IsEnteredAt(queue[i], places[i], sockets, rounds) {
      assert IsEnteredAt(queue[i], places[i], slots, rounds);
    }
  }

  // One pass over the slots: the set comes back whole.
  method Accept(servSocks: array<int>, reported: set<int>, r: Round, before: seq<Call>, queue: seq<int>)
      returns (readfds: set<int>, calls: seq<Call>, queued: seq<int>, ghost places: seq<Place>)
    requires |r.answers| == servSocks.Length && reported == Listeners(servSocks[..]) * r.ready
    requires queue == Queued(before)
    ensures readfds == Listeners(servSocks[..])
    ensures queued == Queued(calls)
    ensures Distinct(servSocks[..]) ==> calls == before + CallsUpTo(servSocks[..], r, servSocks.Length)
    ensures Distinct(servSocks[..]) ==>
              && AreAsked(places, servSocks[..], [r])
              && |calls| >= |before| && AreCallsAt(calls[|before|..], places, servSocks[..], [r])
  {
    readfds, calls, queued := reported, before, queue;
    ghost var socks := servSocks[..];
    for i := 0 to servSocks.Length
      invariant readfds == reported + Listeners(socks[..i])
      invariant queued == Queued(calls)
      invariant Distinct(socks) ==> calls == before + CallsUpTo(socks, r, i)
    {
      ListenersMore(socks, i);
      assert Distinct(socks) && socks[i] >= 0 ==> (socks[i] in readfds <==> socks[i] in r.ready);
      readfds, calls, queued := TakeSlot(servSocks[i], r.answers[i], readfds, calls, queued);
    }
    assert socks[..servSocks.Length] == socks;
    places := PassCalls(before, calls, socks, r);
  }

  // As many turns of the loop as select succeeds. The log records what select was given each time.
  method StartServer(servSocks: array<int>, rounds: seq<Round>)
      returns (selects: seq<Select>, calls: seq<Call>, queued: seq<int>, ghost places: seq<Place>)
    requires forall r | r in rounds :: |r.answers| == servSocks.Length
    ensures |selects| == |rounds|
    ensures forall s | s in selects :: s.readfds == Listeners(servSocks[..]) && Bounds(s.maxfd, s.readfds)
    ensures queued == Queued(calls)
    ensures Distinct(servSocks[..]) ==> calls == AllCalls(servSocks[..], rounds)
    ensures Distinct(servSocks[..]) ==>
              && AreAsked(places, servSocks[..], rounds)
              && AreCallsAt(calls, places, servSocks[..], rounds)
  {
    var readfds, maxfd := WatchAll(servSocks);
    selects, calls, queued := [], [], [];
    for i := 0 to |rounds|
      invariant |selects| == i && readfds == Listeners(servSocks[..]) && Bounds(maxfd, readfds)
      invariant forall s | s in selects :: s.readfds == readfds && s.maxfd == maxfd
      invariant queued == Queued(calls)
      invariant Distinct(servSocks[..]) ==> calls == AllCalls(servSocks[..], rounds[..i])
    {
      selects := selects + [Select(maxfd, readfds)];
      readfds, calls, queued, places := Accept(servSocks, readfds * rounds[i].ready, rounds[i], calls, queued);
      assert rounds[..i + 1][..i] == rounds[..i] && rounds[..i + 1][i] == rounds[i];
    }
    assert rounds[..|rounds|] == rounds;
    places := CallsByPlaces(servSocks[..], rounds);
  }

  ghost predicate Asked(calls: seq<Call>, s: int) {
    exists i | 0 <= i < |calls| :: calls[i].sock == s
  }

  ghost predicate AskedOnce(calls: seq<Call>) {
    forall i, j | 0 <= i < j < |calls| :: calls[i].sock != calls[j].sock
  }

  lemma AskedMore(calls: seq<Call>, c: Call, s: int)
    ensures Asked(calls + [c], s) <==> Asked(calls, s) || s == c.sock
  {
    if Asked(calls, s) {
      var i :| 0 <= i < |calls| && calls[i].sock == s;
      assert (calls + [c])[i].sock == s;
    }
    assert (calls + [c])[|calls|] == c;
  }

  lemma AskedOnceMore(calls: seq<Call>, c: Call)
    requires AskedOnce(calls) && !Asked(calls, c.sock)
    ensures AskedOnce(calls + [c])
  {
  }

  // In one turn the sockets asked are the listeners that were ready, none of them twice.
  lemma {:induction false} AsksEveryReadyListenerOnce(socks: seq<int>, r: Round, n: nat)
    requires n <= |socks| == |r.answers| && Distinct(socks)
    ensures forall s :: Asked(CallsUpTo(socks, r, n), s) <==> s in Listeners(socks[..n]) && s in r.ready
    ensures AskedOnce(CallsUpTo(socks, r, n))
  {
    if n > 0 {
      AsksEveryReadyListenerOnce(socks, r, n - 1);
      ListenersMore(socks, n - 1);
      var before, sock := CallsUpTo(socks, r, n - 1), socks[n - 1];
      if sock >= 0 && sock in r.ready {
        var c := Call(sock, r.answers[n - 1]);
        forall s ensures Asked(before + [c], s) <==> Asked(before, s) || s == sock {
          AskedMore(before, c, s);
        }
        AskedOnceMore(before, c);
      } else {
        assert CallsUpTo(socks, r, n) == before;
      }
    }
  }

  function Connections(calls: seq<Call>): seq<int> {
    if calls == [] then []
    else Connections(calls[..|calls| - 1]) +
         if calls[|calls| - 1].answer.Conn? then [calls[|calls| - 1].answer.fd] else []
  }

  function Real(queue: seq<int>): seq<int> {
    if queue == [] then []
    else Real(queue[..|queue| - 1]) + if queue[|queue| - 1] >= 0 then [queue[|queue| - 1]] else []
  }

  ghost predicate NoNegative(queue: seq<int>) {
    forall x | x in queue :: x >= 0
  }

  ghost predicate NoneFailed(calls: seq<Call>) {
    forall c | c in calls :: !c.answer.Failed?
  }

  // Every connection accepted is queued exactly once and in order.
  lemma {:induction false} QueuesEveryConnectionOnce(calls: seq<Call>)
    ensures Real(Queued(calls)) == Connections(calls)
  {
    if calls != [] {
      QueuesEveryConnectionOnce(calls[..|calls| - 1]);
      RealOfMore(Queued(calls[..|calls| - 1]), calls[|calls| - 1].answer);
    }
  }

  lemma RealOfMore(queue: seq<int>, a: Answer)
    ensures Real(queue + Entry(a)) == Real(queue) + if a.Conn? then [a.fd as int] else []
  {
    if a.Interrupted? {
      assert queue + Entry(a) == queue;
    } else {
      assert (queue + Entry(a))[..|queue|] == queue;
    }
  }

  // The workers are handed connections only, exactly when no accept failed otherwise than by EINTR.
  lemma {:induction false} QueuesOnlyConnections(calls: seq<Call>)
    ensures NoNegative(Queued(calls)) <==> NoneFailed(calls)
  {
    if calls != [] {
      var before, c := calls[..|calls| - 1], calls[|calls| - 1];
      QueuesOnlyConnections(before);
      NoNegativeInMore(Queued(before), Entry(c.answer));
      NoneFailedInMore(before, c);
      assert calls == before + [c];
    }
  }

  lemma NoNegativeInMore(queue: seq<int>, more: seq<int>)
    ensures NoNegative(queue + more) <==> NoNegative(queue) && NoNegative(more)
  {
    assert forall x :: x in queue + more <==> x in queue || x in more;
  }

  lemma NoneFailedInMore(before: seq<Call>, c: Call)
    ensures NoneFailed(before + [c]) <==> NoneFailed(before) && NoNegative(Entry(c.answer))
  {
    assert forall d :: d in before + [c] <==> d in before || d == c;
    if c.answer.Failed? {
      assert -1 in Entry(c.answer);
    }
  }

  datatype Started = Usage | TooMany | Listening

  // main: one socket for each port named on the command line. The test compares the argument's number, which
  // starts at one, with the number of slots.
  method FillSlots(servSocks: array<int>, sockets: seq<nat>) returns (started: Started)
    requires servSocks.Length == SLOTS
    modifies servSocks
    ensures started == if sockets == [] then Usage else if |sockets| < SLOTS then Listening else TooMany
    ensures started == Listening ==> servSocks[..|sockets|] == sockets
    ensures started == Listening ==> forall i | |sockets| <= i < SLOTS :: servSocks[i] == -1
  {
    if sockets == [] {
      return Usage;
    }
    for i := 0 to SLOTS
      invariant forall k | 0 <= k < i :: servSocks[k] == -1
    {
      servSocks[i] := -1;
    }
    var sock_num := -1;
    for i := 1 to |sockets| + 1
      invariant sock_num == i - 2 && i <= SLOTS
      invariant servSocks[..i - 1] == sockets[..i - 1]
      invariant forall k | i - 1 <= k < SLOTS :: servSocks[k] == -1
    {
      if i >= SLOTS {
        return TooMany;
      }
      sock_num := sock_num + 1;
      servSocks[sock_num] := sockets[i - 1];
    }
    return Listening;
  }

  // The server then watches a socket for every port, and the last slot is never used.
  lemma WatchesEveryPort(slots: seq<int>, sockets: seq<nat>)
    requires |sockets| < |slots| == SLOTS && slots[..|sockets|] == sockets
    requires forall i | |sockets| <= i < SLOTS :: slots[i] == -1
    requires forall i, j | 0 <= i < j < |sockets| :: sockets[i] != sockets[j]
    ensures Listeners(slots) == set s | s in sockets
    ensures Distinct(slots)
  {
    assert forall i | 0 <= i < |sockets| :: slots[i] == slots[..|sockets|][i];
    forall s | s in sockets ensures s in Listeners(slots) {
      var i :| 0 <= i < |sockets| && sockets[i] == s;
      assert slots[i] == s;
    }
  }

  // No accept on a ready socket failed otherwise than by EINTR.
  ghost predicate NoFailure(socks: seq<int>, r: Round, n: nat) {
    forall i | 0 <= i < n && i < |socks| && i < |r.answers| && socks[i] >= 0 && socks[i] in r.ready ::
      !r.answers[i].Failed?
  }

  lemma NoneFailedInBoth(a: seq<Call>, b: seq<Call>)
    ensures NoneFailed(a + b) <==> NoneFailed(a) && NoneFailed(b)
  {
    assert forall c :: c in a + b <==> c in a || c in b;
  }

  lemma {:induction false} TurnFails(socks: seq<int>, r: Round, n: nat)
    requires n <= |socks| == |r.answers|
    ensures NoneFailed(CallsUpTo(socks, r, n)) <==> NoFailure(socks, r, n)
  {
    if n > 0 {
      TurnFails(socks, r, n - 1);
      var last := if socks[n - 1] >= 0 && socks[n - 1] in r.ready then [Call(socks[n - 1], r.answers[n - 1])] else [];
      assert CallsUpTo(socks, r, n) == CallsUpTo(socks, r, n - 1) + last;
      NoneFailedInBoth(CallsUpTo(socks, r, n - 1), last);
      assert last != [] ==> last[0] in last;
    }
  }

  ghost predicate NoFailures(socks: seq<int>, rounds: seq<Round>, n: nat) {
    forall r | r in rounds :: NoFailure(socks, r, n)
  }

  lemma NoFailuresInMore(socks: seq<int>, before: seq<Round>, r: Round, n: nat)
    ensures NoFailures(socks, before + [r], n) <==> NoFailures(socks, before, n) && NoFailure(socks, r, n)
  {
    assert forall q :: q in before + [r] <==> q in before || q == r;
  }

  lemma {:induction false} RunFails(socks: seq<int>, rounds: seq<Round>)
    requires forall r | r in rounds :: |r.answers| == |socks|
    ensures NoneFailed(AllCalls(socks, rounds)) <==> NoFailures(socks, rounds, |socks|)
  {
    if rounds != [] {
      var before, r := rounds[..|rounds| - 1], rounds[|rounds| - 1];
      assert rounds == before + [r] && r in rounds;
      assert forall q | q in before :: q in rounds;
      RunFails(socks, before);
      TurnFails(socks, r, |socks|);
      NoneFailedInBoth(AllCalls(socks, before), CallsUpTo(socks, r, |socks|));
      NoFailuresInMore(socks, before, r, |socks|);
    }
  }

  // The slots that are not in use do not fail.
  lemma EmptySlotsDoNotFail(slots: seq<int>, sockets: seq<nat>, rounds: seq<Round>)
    requires |sockets| < |slots| == SLOTS && slots[..|sockets|] == sockets
    requires forall i | |sockets| <= i < SLOTS :: slots[i] == -1
    ensures NoFailures(slots, rounds, SLOTS) <==> NoFailures(sockets, rounds, |sockets|)
  {
    forall r ensures NoFailure(slots, r, SLOTS) <==> NoFailure(sockets, r, |sockets|) {
      assert forall i | 0 <= i < |sockets| :: slots[i] == sockets[i];
    }
  }

  // The program: from the sockets of the ports and what the kernel answers to what the workers are handed.
  method RunServer(servSocks: array<int>, sockets: seq<nat>, rounds: seq<Round>)
    returns (started: Started, selects: seq<Select>, queued: seq<int>, ghost places: seq<Place>)
    requires servSocks.Length == SLOTS && forall i, j | 0 <= i < j < |sockets| :: sockets[i] != sockets[j]
    requires forall r | r in rounds :: |r.answers| == SLOTS
    modifies servSocks
    ensures started == if sockets == [] then Usage else if |sockets| < SLOTS then Listening else TooMany
    ensures started == Listening ==> servSocks[..|sockets|] == sockets
    ensures started == Listening ==> forall i | |sockets| <= i < SLOTS :: servSocks[i] == -1
    ensures started != Listening ==> selects == [] && queued == []
    ensures started == Listening ==> |selects| == |rounds|
    ensures forall s | s in selects :: s.readfds == (set k | k in sockets) && Bounds(s.maxfd, s.readfds)
    ensures HasAnswers(sockets, rounds) || started != Listening
    ensures started == Listening ==> AreEntriesAt(queued, places, sockets, rounds)
    ensures started == Listening ==> Real(queued) == Connections(AllCalls(servSocks[..], rounds))
    ensures started == Listening ==> (NoNegative(queued) <==> NoFailures(sockets, rounds, |sockets|))
  {
    selects, queued, places := [], [], [];
    started := FillSlots(servSocks, sockets);
    if started == Listening {
      assert servSocks[..][..|sockets|] == sockets;
      WatchesEveryPort(servSocks[..], sockets);
      var calls;
      selects, calls, queued, places := StartServer(servSocks, rounds);
      places := QueueByPlaces(servSocks[..], rounds);
      EntriesInUse(queued, places, servSocks[..], sockets, rounds);
      QueuesEveryConnectionOnce(calls);
      QueuesOnlyConnections(calls);
      RunFails(servSocks[..], rounds);
      EmptySlotsDoNotFail(servSocks[..], sockets, rounds);
    }
  }
}
