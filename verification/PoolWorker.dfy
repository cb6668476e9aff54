/** One worker of the thread pool: do_call over a request and a receive buffer that are never cleared. */
module PoolWorker {
  import opened RequestLine
  import opened RequestText
  import opened RequestMeaning

  // 400, 405, 505, the statistics page, the listing of a directory, or a file.
  datatype Served =
    | BadRequest
    | MethodRefused
    | VersionRefused
    | Totals
    | Directory(path: seq<byte>)
    | File(uri: seq<byte>)

  // The paths for which is_dir answers yes.
  type Files = set<seq<byte>>

  // behind is the C string at req_uri + 1, which is_dir looks at before the query is cut off.
  function Answer(dirs: Files, verb: Verb, major: int, uri: seq<byte>, behind: seq<byte>): Served {
    if verb != GET then MethodRefused
    else if major == -1 then VersionRefused
    else if AsksStatistics(uri) then Totals
    else if behind in dirs then Directory(behind)
    else File(BeforeQuery(uri))
  }

  function Behind(uriBuffer: seq<byte>): seq<byte>
    requires uriBuffer != []
  {
    CString(uriBuffer[1..])
  }

  // The buffers are as long as they are allocated, or longer where nothing is claimed.
  predicate Usable(start: Buffers) {
    |start.recv| >= BUFFSIZE && |start.uri| >= URI_LIMIT
  }

  // The answer to a request line that is read over these buffers.
  function AnswerOver(start: Buffers, dirs: Files, k: Tokens): Served
    requires Usable(start)
  {
    Answer(dirs, VerbOf(Overlay(start.recv, k.verb)), VersionOf(k.version).0, k.uri,
           Behind(Overlay(start.uri, k.uri + [0])))
  }

  // The answer that the request line alone calls for.
  function OwnAnswer(dirs: Files, k: Tokens): Served {
    Answer(dirs, FreshVerb(k.verb), VersionOf(k.version).0, k.uri, if k.uri == [] then [] else k.uri[1..])
  }

  // One connection over these buffers: the answer, and what it leaves in them.
  ghost function ServedBy(dirs: Files, stream: seq<byte>, start: Buffers): Served
    requires Usable(start)
  {
    if HasLine(stream) then AnswerOver(start, dirs, StopOf(stream).1) else BadRequest
  }

  ghost function LeftAfter(dirs: Files, stream: seq<byte>, start: Buffers): (left: Buffers)
    requires Usable(start)
    ensures Usable(left)
  {
    var left := After(stream, start);
    var served := ServedBy(dirs, stream, start);
    if served.File? then Buffers(left.recv, CutAt(left.uri, |served.uri|)) else left
  }

  // For a stream that starts with a line these are the answer to that line and its traces: the verb, over it the
  // version with at most one NUL behind it, and the URI, cut at its query if a file was asked for.
  lemma LineIsServed(dirs: Files, stream: seq<byte>, start: Buffers, k: Tokens)
    requires Usable(start) && StartsWith(stream, k)
    ensures ServedBy(dirs, stream, start) == AnswerOver(start, dirs, k)
    ensures var left := LeftAfter(dirs, stream, start);
            && left.recv == Overlay(Overlay(start.recv, k.verb), VersionLeft(k.version))
            && left.uri == if ServedBy(dirs, stream, start).File?
                           then CutAt(Overlay(start.uri, k.uri + [0]), |BeforeQuery(k.uri)|)
                           else Overlay(start.uri, k.uri + [0])
  {
    LineStops(stream, k);
    assert HasLine(stream);
  }

  /* ---- What a request line merits, by its tokens and the directories. ---- */

  // verb is the text parse_method looks at, and path the one is_dir looks at. The statistics come before a
  // directory of their name.
  ghost predicate Merits(served: Served, dirs: Files, verb: seq<byte>, version: seq<byte>, uri: seq<byte>,
                         path: seq<byte>) {
    match served
    case BadRequest => false
    case MethodRefused => !IsGet(verb)
    case VersionRefused => IsGet(verb) && !IsAccepted(version)
    case Totals => IsGet(verb) && IsAccepted(version) && WantsStatistics(uri)
    case Directory(dir) =>
      IsGet(verb) && IsAccepted(version) && !WantsStatistics(uri) && dir == path && path in dirs
    case File(file) =>
      IsGet(verb) && IsAccepted(version) && !WantsStatistics(uri) && path !in dirs && IsUpTo(file, uri, '?' as int)
  }

  // The verb is read off the buffer, over what it held, and so is the path, from its second byte to its first NUL.
  ghost predicate MeritsOver(served: Served, dirs: Files, k: Tokens, start: Buffers)
    requires Usable(start)
  {
    exists path ::
      && IsUpTo(path, Overlay(start.uri, k.uri + [0])[1..], 0)
      && Merits(served, dirs, Overlay(start.recv, k.verb), k.version, k.uri, path)
  }

  // The tokens alone.
  ghost predicate MeritsOwn(served: Served, dirs: Files, k: Tokens) {
    Merits(served, dirs, k.verb, k.version, k.uri, if k.uri == [] then [] else k.uri[1..])
  }

  // A bad request is a stream without a line, and a line gets what it merits over these buffers; if it speaks for
  // itself, that is what it merits alone.
  ghost predicate IsMerited(served: Served, dirs: Files, stream: seq<byte>, start: Buffers)
    requires Usable(start)
  {
    && (served == BadRequest <==> !HasLine(stream))
    && (forall k | StartsWith(stream, k) :: MeritsOver(served, dirs, k, start))
    && (forall k | StartsWith(stream, k) && SpeaksForItself(k) :: MeritsOwn(served, dirs, k))
  }

  lemma AnswerByParts(served: Served, dirs: Files, verb: Verb, text: seq<byte>, version: seq<byte>, uri: seq<byte>,
                      path: seq<byte>)
    requires verb == GET <==> IsGet(text)
    ensures Answer(dirs, verb, VersionOf(version).0, uri, path) == served <==>
            Merits(served, dirs, text, version, uri, path)
  {
    AcceptedExactly(version);
    AnswerByPath(served, dirs, verb, VersionOf(version).0, text, version, uri, path);
  }

  lemma AnswerByPath(served: Served, dirs: Files, verb: Verb, major: int, text: seq<byte>, version: seq<byte>,
                     uri: seq<byte>, path: seq<byte>)
    requires (verb == GET <==> IsGet(text)) && (major != -1 <==> IsAccepted(version))
    ensures Answer(dirs, verb, major, uri, path) == served <==> Merits(served, dirs, text, version, uri, path)
  {
    StatisticsExactly(uri);
    if served.File? {
      PathExactly(served.uri, uri);
    }
  }

  // Each answer is given to exactly the requests that merit it: over these buffers, and by themselves.
  lemma AnswerExactly(served: Served, dirs: Files, k: Tokens, start: Buffers)
    requires Usable(start)
    ensures AnswerOver(start, dirs, k) == served <==> MeritsOver(served, dirs, k, start)
  {
    var text, buffer := Overlay(start.recv, k.verb), Overlay(start.uri, k.uri + [0]);
    VerbIsGetExactly(text);
    forall path ensures Behind(buffer) == path <==> IsUpTo(path, buffer[1..], 0) {
      UpToExactly(path, buffer[1..], 0);
    }
    AnswerByParts(served, dirs, VerbOf(text), text, k.version, k.uri, Behind(buffer));
  }

  lemma OwnAnswerExactly(served: Served, dirs: Files, k: Tokens)
    ensures OwnAnswer(dirs, k) == served <==> MeritsOwn(served, dirs, k)
  {
    FreshVerbIsGetExactly(k.verb);
    AnswerByParts(served, dirs, FreshVerb(k.verb), k.verb, k.version, k.uri, if k.uri == [] then [] else k.uri[1..]);
  }

  lemma ServedIsMerited(dirs: Files, stream: seq<byte>, start: Buffers)
    requires Usable(start)
    ensures IsMerited(ServedBy(dirs, stream, start), dirs, stream, start)
  {
    var served := ServedBy(dirs, stream, start);
    EachGetsItsOwnAnswer(dirs, stream, start);
    forall k | StartsWith(stream, k) ensures MeritsOver(served, dirs, k, start) {
      LineIsServed(dirs, stream, start, k);
      AnswerExactly(served, dirs, k, start);
    }
    forall k | StartsWith(stream, k) && SpeaksForItself(k) ensures MeritsOwn(served, dirs, k) {
      OwnAnswerExactly(served, dirs, k);
    }
  }

  method ServeOne(dirs: Files, stream: seq<byte>, req: Request, recv: array<byte>) returns (served: Served)
    requires req.uri.Length == URI_LIMIT && recv.Length == BUFFSIZE && recv != req.uri && Fits(stream)
    modifies req, req.uri, recv
    ensures served == ServedBy(dirs, stream, Buffers(old(recv[..]), old(req.uri[..])))
    ensures IsMerited(served, dirs, stream, Buffers(old(recv[..]), old(req.uri[..])))
    ensures Buffers(recv[..], req.uri[..]) == LeftAfter(dirs, stream, Buffers(old(recv[..]), old(req.uri[..])))
  {
    ghost var start := Buffers(recv[..], req.uri[..]);
    ServedIsMerited(dirs, stream, start);
    var ok, n := ReadRequestLine(stream, req, recv);
    if !ok {
      return BadRequest;
    }
    var uri, behind := CString(req.uri[..]), Behind(req.uri[..]);
    AnswerWasRead(dirs, stream, n, start, req.verb, uri, (req.major, req.minor), req.uri[..]);
    if req.verb != GET {
      return MethodRefused;
    }
    if req.major == -1 {
      return VersionRefused;
    }
    if AsksStatistics(uri) {
      return Totals;
    }
    if behind in dirs {
      return Directory(behind);
    }
    var _ := CutQuery(req.uri);
    return File(CString(req.uri[..]));
  }

  lemma AnswerWasRead(dirs: Files, stream: seq<byte>, n: nat, start: Buffers, verb: Verb, uri: seq<byte>,
                      version: (int, int), uriBuffer: seq<byte>)
    requires Usable(start) && HasLine(stream) && ReadAs(stream, n, start.recv, verb, uri, version)
    requires uriBuffer == After(stream, start).uri
    ensures ServedBy(dirs, stream, start) == Answer(dirs, verb, version.0, uri, Behind(uriBuffer))
  {
    var k :| StartsWith(stream, k);
    LineIsServed(dirs, stream, start, k);
    LineStops(stream, k);
  }

  // What the buffers hold when the worker has served these connections, one after the other.
  ghost function WorkerAfter(dirs: Files, streams: seq<seq<byte>>, start: Buffers): (left: Buffers)
    requires Usable(start)
    ensures Usable(left)
  {
    if streams == [] then start
    else LeftAfter(dirs, streams[|streams| - 1], WorkerAfter(dirs, streams[..|streams| - 1], start))
  }

  ghost predicate AllFit(streams: seq<seq<byte>>) {
    forall i | 0 <= i < |streams| :: Fits(streams[i])
  }

  // Each answer is given over what the earlier connections left.
  ghost function AnswersTo(dirs: Files, streams: seq<seq<byte>>, start: Buffers): (served: seq<Served>)
    requires Usable(start)
    ensures |served| == |streams|
  {
    if streams == [] then []
    else
      var earlier := streams[..|streams| - 1];
      AnswersTo(dirs, earlier, start) + [ServedBy(dirs, streams[|streams| - 1], WorkerAfter(dirs, earlier, start))]
  }

  lemma {:induction false} EachInTurn(dirs: Files, streams: seq<seq<byte>>, start: Buffers, i: nat)
    requires Usable(start) && i < |streams|
    ensures AnswersTo(dirs, streams, start)[i] == ServedBy(dirs, streams[i], WorkerAfter(dirs, streams[..i], start))
  {
    if i < |streams| - 1 {
      var earlier := streams[..|streams| - 1];
      EachInTurn(dirs, earlier, start, i);
      assert earlier[..i] == streams[..i];
    }
  }

  // Every connection gets what it merits over what the connections before it left.
  ghost predicate AreMerited(served: seq<Served>, dirs: Files, streams: seq<seq<byte>>, start: Buffers)
    requires Usable(start)
  {
    && |served| == |streams|
    && forall i | 0 <= i < |streams| ::
         IsMerited(served[i], dirs, streams[i], WorkerAfter(dirs, streams[..i], start))
  }

  lemma AnswersAreMerited(dirs: Files, streams: seq<seq<byte>>, start: Buffers)
    requires Usable(start)
    ensures AreMerited(AnswersTo(dirs, streams, start), dirs, streams, start)
  {
    forall i | 0 <= i < |streams|
      ensures IsMerited(AnswersTo(dirs, streams, start)[i], dirs, streams[i],
                        WorkerAfter(dirs, streams[..i], start))
    {
      EachInTurn(dirs, streams, start, i);
      ServedIsMerited(dirs, streams[i], WorkerAfter(dirs, streams[..i], start));
    }
  }

  method ServeAll(dirs: Files, streams: seq<seq<byte>>, req: Request, recv: array<byte>)
    returns (served: seq<Served>)
    requires req.uri.Length == URI_LIMIT && recv.Length == BUFFSIZE && recv != req.uri && AllFit(streams)
    modifies req, req.uri, recv
    ensures served == AnswersTo(dirs, streams, Buffers(old(recv[..]), old(req.uri[..])))
    ensures AreMerited(served, dirs, streams, Buffers(old(recv[..]), old(req.uri[..])))
    ensures Buffers(recv[..], req.uri[..]) == WorkerAfter(dirs, streams, Buffers(old(recv[..]), old(req.uri[..])))
  {
    ghost var start := Buffers(recv[..], req.uri[..]);
    served := [];
    for n := 0 to |streams|
      invariant Buffers(recv[..], req.uri[..]) == WorkerAfter(dirs, streams[..n], start)
      invariant served == AnswersTo(dirs, streams[..n], start)
    {
      var one := ServeNext(dirs, streams, n, req, recv, start);
      served := served + [one];
    }
    assert streams[..|streams|] == streams;
    AnswersAreMerited(dirs, streams, start);
  }

  method ServeNext(dirs: Files, streams: seq<seq<byte>>, n: nat, req: Request, recv: array<byte>, ghost start: Buffers)
    returns (served: Served)
    requires req.uri.Length == URI_LIMIT && recv.Length == BUFFSIZE && recv != req.uri
    requires n < |streams| && Fits(streams[n]) && Usable(start)
    requires Buffers(recv[..], req.uri[..]) == WorkerAfter(dirs, streams[..n], start)
    modifies req, req.uri, recv
    ensures AnswersTo(dirs, streams[..n + 1], start) == AnswersTo(dirs, streams[..n], start) + [served]
    ensures Buffers(recv[..], req.uri[..]) == WorkerAfter(dirs, streams[..n + 1], start)
  {
    served := ServeOne(dirs, streams[n], req, recv);
    WorkerGoesOn(dirs, streams, n, start);
  }

  lemma WorkerGoesOn(dirs: Files, streams: seq<seq<byte>>, n: nat, start: Buffers)
    requires n < |streams| && Usable(start)
    ensures WorkerAfter(dirs, streams[..n + 1], start) ==
            LeftAfter(dirs, streams[n], WorkerAfter(dirs, streams[..n], start))
    ensures AnswersTo(dirs, streams[..n + 1], start) ==
            AnswersTo(dirs, streams[..n], start) + [ServedBy(dirs, streams[n], WorkerAfter(dirs, streams[..n], start))]
  {
    assert streams[..n + 1][..n] == streams[..n];
  }

  /* ---- Which answers are the request's own. ---- */

  // The token is empty, "G" or "GE", so that the bytes behind it in the buffer decide whether it is GET.
  predicate BeginsGet(t: seq<byte>) {
    && |t| < 3
    && (|t| > 0 ==> t[0] == 71)
    && (|t| > 1 ==> Lower(t[1]) == 101)
  }

  // A GET without a URI makes is_dir look behind the terminator.
  predicate SpeaksForItself(k: Tokens) {
    !BeginsGet(k.verb) && (k.uri != [] || FreshVerb(k.verb) != GET || VersionOf(k.version).0 == -1)
  }

  lemma VerbIsOwn(start: seq<byte>, t: seq<byte>)
    requires |start| >= 3 && !BeginsGet(t)
    ensures VerbOf(Overlay(start, t)) == GET <==> FreshVerb(t) == GET
  {
  }

  lemma PathIsOwn(start: seq<byte>, uri: seq<byte>)
    requires Visible(uri) && uri != [] && |uri| < |start|
    ensures Behind(Overlay(start, uri + [0])) == uri[1..]
  {
    var b := Overlay(start, uri + [0]);
    assert b[|uri|] == 0 && b[1..|uri|] == uri[1..];
    TokenIsRead(b, 1, |uri|, uri[1..]);
  }

  lemma NoPathOfItsOwn(start: seq<byte>)
    requires |start| > 1
    ensures Behind(Overlay(start, [] + [0])) == CString(start[1..])
  {
    assert [] + [0] == [0 as byte];
    assert Overlay(start, [0])[1..] == start[1..];
  }

  lemma AnswerIsOwn(start: Buffers, dirs: Files, k: Tokens)
    requires Usable(start) && WellFormed(k) && SpeaksForItself(k)
    ensures AnswerOver(start, dirs, k) == OwnAnswer(dirs, k)
  {
    VerbIsOwn(start.recv, k.verb);
    if k.uri != [] {
      PathIsOwn(start.uri, k.uri);
    }
  }

  // Over these buffers a foreign answer is given exactly where they turn the beginning of GET into GET, or, to a
  // GET without a URI, where they name a directory, or hide that the empty path is one.
  predicate Misleads(start: Buffers, dirs: Files, k: Tokens)
    requires Usable(start)
  {
    if BeginsGet(k.verb) then VerbOf(Overlay(start.recv, k.verb)) == GET
    else !SpeaksForItself(k) && MisleadsPath(CString(start.uri[1..]), dirs)
  }

  predicate MisleadsPath(left: seq<byte>, dirs: Files) {
    left != [] && (left in dirs || [] in dirs)
  }

  lemma VerbIsForeign(start: Buffers, dirs: Files, k: Tokens)
    requires Usable(start) && BeginsGet(k.verb)
    ensures AnswerOver(start, dirs, k) != OwnAnswer(dirs, k) <==> VerbOf(Overlay(start.recv, k.verb)) == GET
  {
    assert FreshVerb(k.verb) == OTHER;
  }

  lemma PathIsForeign(start: Buffers, dirs: Files, k: Tokens)
    requires Usable(start) && !BeginsGet(k.verb) && !SpeaksForItself(k)
    ensures AnswerOver(start, dirs, k) != OwnAnswer(dirs, k) <==> MisleadsPath(CString(start.uri[1..]), dirs)
  {
    VerbIsOwn(start.recv, k.verb);
    NoPathOfItsOwn(start.uri);
  }

  lemma AnswerIsForeignExactly(start: Buffers, dirs: Files, k: Tokens)
    requires Usable(start) && WellFormed(k)
    ensures AnswerOver(start, dirs, k) != OwnAnswer(dirs, k) <==> Misleads(start, dirs, k)
  {
    if BeginsGet(k.verb) {
      VerbIsForeign(start, dirs, k);
    } else if SpeaksForItself(k) {
      AnswerIsOwn(start, dirs, k);
    } else {
      PathIsForeign(start, dirs, k);
    }
  }

  // So whatever came before, a request line that speaks for itself gets its own answer, and a stream is refused
  // as a bad request exactly when it starts with no line.
  lemma EachGetsItsOwnAnswer(dirs: Files, stream: seq<byte>, start: Buffers)
    requires Usable(start)
    ensures ServedBy(dirs, stream, start) == BadRequest <==> !HasLine(stream)
    ensures forall k | StartsWith(stream, k) && SpeaksForItself(k) ::
              ServedBy(dirs, stream, start) == OwnAnswer(dirs, k)
  {
    forall k | StartsWith(stream, k) && SpeaksForItself(k) ensures ServedBy(dirs, stream, start) == OwnAnswer(dirs, k) {
      LineIsServed(dirs, stream, start, k);
      AnswerIsOwn(start, dirs, k);
    }
  }

  /* ---- The other ones: an answer that hangs on what came before. ---- */

  // What calloc gives.
  const ZEROED := Buffers(Repeated(0, BUFFSIZE), Repeated(0, URI_LIMIT))

  // What a worker answers when it has served the earlier streams since its buffers were allocated.
  ghost function AnswerTo(dirs: Files, earlier: seq<seq<byte>>, stream: seq<byte>): Served {
    ServedBy(dirs, stream, WorkerAfter(dirs, earlier, ZEROED))
  }

  lemma AnswerToLine(dirs: Files, earlier: seq<seq<byte>>, k: Tokens)
    requires WellFormed(k)
    ensures AnswerTo(dirs, earlier, Line(k)) == AnswerOver(WorkerAfter(dirs, earlier, ZEROED), dirs, k)
  {
    assert StartsWith(Line(k), k);
    LineIsServed(dirs, Line(k), WorkerAfter(dirs, earlier, ZEROED), k);
  }

  // So the histories that change the answer to a line are those whose traces mislead it.
  lemma HistoryMisleadsExactly(dirs: Files, earlier: seq<seq<byte>>, k: Tokens)
    requires WellFormed(k)
    ensures AnswerTo(dirs, earlier, Line(k)) != OwnAnswer(dirs, k) <==>
            Misleads(WorkerAfter(dirs, earlier, ZEROED), dirs, k)
  {
    AnswerToLine(dirs, earlier, k);
    AnswerIsForeignExactly(WorkerAfter(dirs, earlier, ZEROED), dirs, k);
  }

  // A GET whose URI does not end within the buffer.
  const REFUSED_GET: seq<byte> := GET_TOKEN + [SP] + Repeated(97, URI_LIMIT)

  lemma RefusedGetStops(dirs: Files, start: Buffers)
    requires Usable(start)
    ensures Fits(REFUSED_GET) && ServedBy(dirs, REFUSED_GET, start) == BadRequest
    ensures LeftAfter(dirs, REFUSED_GET, start).recv == Overlay(start.recv, GET_TOKEN)
  {
    var u: seq<byte> := Repeated(97, URI_LIMIT - 1);
    var k := Tokens(GET_TOKEN, u, []);
    assert REFUSED_GET == GET_TOKEN + [SP] + (u + [97]);
    FitsInUri(REFUSED_GET, k, u + [97]);
    assert REFUSED_GET == Consumed(InUri, k) + [97];
    StopIsReached(REFUSED_GET, InUri, k);
    forall j | StartsWith(REFUSED_GET, j) ensures false {
      LineStops(REFUSED_GET, j);
    }
  }

  // After that GET, a verb that begins like GET is one.
  lemma StaleVerbIsGet(t: seq<byte>, start: seq<byte>)
    requires BeginsGet(t) && |start| >= 3
    ensures VerbOf(Overlay(Overlay(start, GET_TOKEN), t)) == GET
  {
    var b := Overlay(Overlay(start, GET_TOKEN), t);
    assert forall i | |t| <= i < 3 :: b[i] == GET_TOKEN[i];
    assert forall i | 0 <= i < |t| :: b[i] == t[i];
  }

  lemma FreshVerbIsNotGet(t: seq<byte>, start: seq<byte>)
    requires BeginsGet(t) && |start| >= 3 && forall i | 0 <= i < |start| :: start[i] == 0
    ensures VerbOf(Overlay(start, t)) != GET && FreshVerb(t) != GET
  {
    assert Overlay(start, t)[2] == 0;
  }

  // With fresh buffers such a request is answered 405.
  lemma ShortVerbAtFirst(dirs: Files, k: Tokens)
    requires WellFormed(k) && BeginsGet(k.verb)
    ensures AnswerTo(dirs, [], Line(k)) == MethodRefused == OwnAnswer(dirs, k)
  {
    AnswerToLine(dirs, [], k);
    FreshVerbIsNotGet(k.verb, ZEROED.recv);
  }

  // Over the traces of that GET it never is: it is answered like the GET it is not.
  lemma ShortVerbOverGet(dirs: Files, k: Tokens, start: Buffers, recv: seq<byte>)
    requires WellFormed(k) && BeginsGet(k.verb) && Usable(start) && |recv| >= 3
    requires start.recv == Overlay(recv, GET_TOKEN)
    ensures AnswerOver(start, dirs, k) != MethodRefused
    ensures k.uri != [] || VersionOf(k.version).0 == -1 ==>
              AnswerOver(start, dirs, k) == OwnAnswer(dirs, k.(verb := GET_TOKEN))
  {
    var g := k.(verb := GET_TOKEN);
    StaleVerbIsGet(k.verb, recv);
    LongVerb(start.recv, GET_TOKEN);
    assert AnswerOver(start, dirs, k) == AnswerOver(start, dirs, g);
    if k.uri != [] || VersionOf(k.version).0 == -1 {
      GetTokenIsVisible();
      AnswerIsOwn(start, dirs, g);
    }
  }

  lemma GetTokenIsVisible()
    ensures Visible(GET_TOKEN) && !BeginsGet(GET_TOKEN) && VerbOf(GET_TOKEN) == GET
  {
  }

  lemma ShortVerbAfterGet(dirs: Files, k: Tokens)
    requires WellFormed(k) && BeginsGet(k.verb)
    ensures AnswerTo(dirs, [REFUSED_GET], Line(k)) != MethodRefused
    ensures k.uri != [] || VersionOf(k.version).0 == -1 ==>
              AnswerTo(dirs, [REFUSED_GET], Line(k)) == OwnAnswer(dirs, k.(verb := GET_TOKEN))
  {
    AnswerToLine(dirs, [REFUSED_GET], k);
    AfterOne(dirs, REFUSED_GET);
    RefusedGetStops(dirs, ZEROED);
    ShortVerbOverGet(dirs, k, WorkerAfter(dirs, [REFUSED_GET], ZEROED), ZEROED.recv);
  }

  lemma AfterOne(dirs: Files, stream: seq<byte>)
    ensures WorkerAfter(dirs, [stream], ZEROED) == LeftAfter(dirs, stream, ZEROED)
  {
    assert [stream][..0] == [];
  }

  lemma DirectoryAnswer(dir: seq<byte>, g: Tokens)
    requires Visible(dir) && 0 < |dir| <= URI_LIMIT - 3 && g == GetRequest([47] + dir, 1, 1) && !AsksStatistics(g.uri)
    ensures WellFormed(g) && AnswerOver(ZEROED, {dir}, g) == Directory(dir)
  {
    PrintedIsWellFormed(g.uri, 1, 1);
    VersionReadsBack(1, 1);
    LongVerb(ZEROED.recv, g.verb);
    PathIsOwn(ZEROED.uri, g.uri);
    assert g.uri[1..] == dir;
  }

  lemma AfterDirectory(dir: seq<byte>, g: Tokens)
    requires WellFormed(g) && AnswerOver(ZEROED, {dir}, g) == Directory(dir)
    ensures WorkerAfter({dir}, [Line(g)], ZEROED).uri == Overlay(ZEROED.uri, g.uri + [0])
  {
    assert StartsWith(Line(g), g);
    LineIsServed({dir}, Line(g), ZEROED, g);
    AfterOne({dir}, Line(g));
  }

  lemma EmptyUriOver(dirs: Files, k: Tokens, start: Buffers, dir: seq<byte>)
    requires k.uri == [] && FreshVerb(k.verb) == GET && VersionOf(k.version).0 != -1
    requires Usable(start) && CString(start.uri[1..]) == dir && dir in dirs
    ensures AnswerOver(start, dirs, k) == Directory(dir)
  {
    NoPathOfItsOwn(start.uri);
    LongVerb(start.recv, k.verb);
  }

  // A GET without a URI is answered with the directory an earlier request has asked for.
  lemma EmptyUriAfterDirectory(dir: seq<byte>, k: Tokens)
    requires Visible(dir) && 0 < |dir| <= URI_LIMIT - 3 && !AsksStatistics([47] + dir)
    requires WellFormed(k) && k.uri == [] && FreshVerb(k.verb) == GET && VersionOf(k.version).0 != -1
    ensures AnswerTo({dir}, [Line(GetRequest([47] + dir, 1, 1))], Line(k)) == Directory(dir)
  {
    var g := GetRequest([47] + dir, 1, 1);
    DirectoryAnswer(dir, g);
    AfterDirectory(dir, g);
    PathIsOwn(ZEROED.uri, g.uri);
    assert g.uri[1..] == dir;
    AnswerToLine({dir}, [Line(g)], k);
    EmptyUriOver({dir}, k, WorkerAfter({dir}, [Line(g)], ZEROED), dir);
  }

  // A request line is sure of its own answer, whatever the worker has served before and whatever directories
  // there are, exactly when it speaks for itself.
  lemma AnswerIsOwnExactly(k: Tokens)
    requires WellFormed(k)
    ensures SpeaksForItself(k) <==>
            forall dirs, earlier | AllFit(earlier) :: AnswerTo(dirs, earlier, Line(k)) == OwnAnswer(dirs, k)
  {
    if SpeaksForItself(k) {
      forall dirs, earlier ensures AnswerTo(dirs, earlier, Line(k)) == OwnAnswer(dirs, k) {
        AnswerToLine(dirs, earlier, k);
        AnswerIsOwn(WorkerAfter(dirs, earlier, ZEROED), dirs, k);
      }
    } else {
      var dirs, earlier := ForeignAnswer(k);
    }
  }

  lemma ForeignAnswer(k: Tokens) returns (dirs: Files, earlier: seq<seq<byte>>)
    requires WellFormed(k) && !SpeaksForItself(k)
    ensures AllFit(earlier) && AnswerTo(dirs, earlier, Line(k)) != OwnAnswer(dirs, k)
  {
    if BeginsGet(k.verb) {
      dirs, earlier := {}, [REFUSED_GET];
      ForeignVerb(k);
    } else {
      dirs, earlier := {[97]}, [Line(GetRequest([47] + [97], 1, 1))];
      ForeignPath(k);
    }
  }

  lemma ForeignVerb(k: Tokens)
    requires WellFormed(k) && BeginsGet(k.verb)
    ensures AllFit([REFUSED_GET]) && AnswerTo({}, [REFUSED_GET], Line(k)) != OwnAnswer({}, k)
  {
    RefusedGetStops({}, ZEROED);
    ShortVerbAtFirst({}, k);
    ShortVerbAfterGet({}, k);
  }

  lemma ForeignPath(k: Tokens)
    requires WellFormed(k) && k.uri == [] && FreshVerb(k.verb) == GET && VersionOf(k.version).0 != -1
    ensures var earlier := [Line(GetRequest([47] + [97], 1, 1))];
            AllFit(earlier) && AnswerTo({[97]}, earlier, Line(k)) != OwnAnswer({[97]}, k)
  {
    DirectoryRequestFits();
    NoPathIsNoDirectory([97], k);
    EmptyUriAfterDirectory([97], k);
  }

  lemma NoPathIsNoDirectory(dir: seq<byte>, k: Tokens)
    requires k.uri == [] && dir != []
    ensures OwnAnswer({dir}, k) != Directory(dir)
  {
  }

  lemma DirectoryRequestFits()
    ensures Fits(Line(GetRequest([47] + [97], 1, 1)))
  {
    var line := Line(GetRequest([47] + [97], 1, 1));
    PrintedFits([47] + [97], 1, 1, []);
    assert line + [] == line;
  }

  // The token is so short, and so begun, that what the buffer held before decides the verb.
  predicate BeginsAVerb(t: seq<byte>) {
    && |t| < 3
    && (|t| > 0 ==> t[0] == 71 || t[0] == 80)
    && (|t| > 1 ==> Lower(t[1]) == if t[0] == 71 then 101 else 111)
  }

  // parse_method ignores the token's length: over arbitrary buffers the verb depends on the token alone exactly
  // when the token has three bytes or already differs from GET and POS.
  lemma VerbDependsOnToken(t: seq<byte>, size: nat)
    requires size >= 3
    ensures (forall a, b | |a| == |b| == size :: VerbOf(Overlay(a, t)) == VerbOf(Overlay(b, t)))
            <==> !BeginsAVerb(t)
  {
    if BeginsAVerb(t) {
      var zeros := seq(size, i => 0 as byte);
      var stale := seq(size, i => (if t == [] || t[0] == 71 then (if i == 0 then 71 else if i == 1 then 69 else 84)
                                   else (if i == 0 then 80 else if i == 1 then 79 else 83)) as byte);
      assert VerbOf(Overlay(zeros, t)) == OTHER;
      assert VerbOf(Overlay(stale, t)) != OTHER;
    }
  }
}
