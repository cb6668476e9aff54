/** do_call of the pre-forked server: which status a connection ends with, and the counters it moves. */
module Dispatch {
  import opened RequestLine
  import opened RequestMeaning
  import opened RequestText
  import opened Wrappers

  // What the operating system answers while a connection is served.
  datatype World = World(isDir: bool, dirOpens: bool, found: bool, opens: bool, denied: bool,
                         pipes: bool, brokenPipe: bool)

  datatype Connection = Connection(stream: seq<byte>, world: World)

  const BASH: seq<byte> := [98, 97, 115, 104]

  predicate AsksBash(uri: seq<byte>) {
    |uri| > 5 && uri[5] == 47 && SameIgnoringCase(BASH, uri[1..5])
  }

  // The status of a request for a path: the file behind the URI up to its query, or nothing at all.
  function FileStatus(uri: seq<byte>, w: World): int {
    if BeforeQuery(uri) == [] then 200
    else if !w.found then 404
    else if w.opens then 200
    else if w.denied then 403
    else 500
  }

  // The status handed to write_code for a verb, a major version and a URI; None where nothing is counted.
  function StatusOf(verb: Verb, major: int, uri: seq<byte>, w: World): Option<int> {
    if verb != GET then Some(405)
    else if major == -1 then Some(505)
    else if AsksStatistics(uri) then Some(200)
    else if AsksBash(uri) then
      if !w.pipes then Some(500) else if w.brokenPipe then None else Some(200)
    else if w.isDir then Some(if w.dirOpens then 200 else 500)
    else Some(FileStatus(uri, w))
  }

  // For a well-formed request line, read into zeroed buffers.
  function Answer(k: Tokens, w: World): Option<int> {
    StatusOf(FreshVerb(k.verb), VersionOf(k.version).0, k.uri, w)
  }

  // The one relation a connection has to the status it is counted under.
  ghost predicate EndsWith(c: Connection, code: Option<int>) {
    if HasLine(c.stream) then forall k | StartsWith(c.stream, k) :: code == Answer(k, c.world)
    else code == Some(400)
  }

  /* ---- Each status, in terms of the request and the answers of the system alone. ---- */

  ghost predicate IsServed(k: Tokens) {
    IsGet(k.verb) && IsAccepted(k.version)
  }

  ghost predicate AsksPage(k: Tokens) {
    IsServed(k) && WantsStatistics(k.uri)
  }

  ghost predicate AsksScript(k: Tokens) {
    IsServed(k) && !WantsStatistics(k.uri) && WantsScript(k.uri)
  }

  ghost predicate AsksPath(k: Tokens) {
    IsServed(k) && !WantsStatistics(k.uri) && !WantsScript(k.uri)
  }

  ghost predicate AsksFile(k: Tokens, w: World) {
    AsksPath(k) && !w.isDir && HasPath(k.uri)
  }

  // 405 and 505, 404 and 403.
  ghost predicate WrongMethod(k: Tokens) {
    !IsGet(k.verb)
  }

  ghost predicate WrongVersion(k: Tokens) {
    IsGet(k.verb) && !IsAccepted(k.version)
  }

  ghost predicate Missing(k: Tokens, w: World) {
    AsksFile(k, w) && !w.found
  }

  ghost predicate Forbidden(k: Tokens, w: World) {
    AsksFile(k, w) && w.found && !w.opens && w.denied
  }

  // 500: the file or the directory does not open, or the script does not start.
  ghost predicate Failing(k: Tokens, w: World) {
    || (AsksFile(k, w) && w.found && !w.opens && !w.denied)
    || (AsksPath(k) && w.isDir && !w.dirOpens)
    || (AsksScript(k) && !w.pipes)
  }

  // No status at all: the output of a script meets a closed connection at the very first line.
  ghost predicate CutOff(k: Tokens, w: World) {
    AsksScript(k) && w.pipes && w.brokenPipe
  }

  // 200.
  ghost predicate Fine(k: Tokens, w: World) {
    || AsksPage(k)
    || (AsksScript(k) && w.pipes && !w.brokenPipe)
    || (AsksPath(k) && w.isDir && w.dirOpens)
    || (AsksPath(k) && !w.isDir && !HasPath(k.uri))
    || (AsksFile(k, w) && w.found && w.opens)
  }

  lemma ScriptExactly(uri: seq<byte>)
    ensures AsksBash(uri) <==> WantsScript(uri)
  {
    if |uri| > 5 {
      var t, word := uri[1..5], "bash";
      forall i | 0 <= i < 4 ensures Lower(BASH[i]) == Lower(t[i]) <==> SameLetter(t[i], word[i]) {
        assert BASH[i] == word[i] as int && 'a' <= word[i] <= 'z';
      }
    }
  }

  lemma FileStatusExactly(uri: seq<byte>, w: World)
    ensures FileStatus(uri, w) == 404 <==> HasPath(uri) && !w.found
    ensures FileStatus(uri, w) == 403 <==> HasPath(uri) && w.found && !w.opens && w.denied
    ensures FileStatus(uri, w) == 500 <==> HasPath(uri) && w.found && !w.opens && !w.denied
    ensures FileStatus(uri, w) == 200 <==> !HasPath(uri) || (w.found && w.opens)
  {
    PathExactly([], uri);
  }

  // The answer is one of these, and it is each of them exactly when its condition holds.
  lemma StatusExactly(k: Tokens, w: World)
    ensures Answer(k, w) == Some(405) <==> WrongMethod(k)
    ensures Answer(k, w) == Some(505) <==> WrongVersion(k)
    ensures Answer(k, w) == Some(404) <==> Missing(k, w)
    ensures Answer(k, w) == Some(403) <==> Forbidden(k, w)
    ensures Answer(k, w) == Some(500) <==> Failing(k, w)
    ensures Answer(k, w) == Some(200) <==> Fine(k, w)
    ensures Answer(k, w) == None <==> CutOff(k, w)
    ensures Answer(k, w) == None || Answer(k, w).value in {200, 403, 404, 405, 500, 505}
  {
    FreshVerbIsGetExactly(k.verb);
    AcceptedExactly(k.version);
    StatisticsExactly(k.uri);
    ScriptExactly(k.uri);
    FileStatusExactly(k.uri, w);
    StatusByCases(FreshVerb(k.verb), VersionOf(k.version).0, k.uri, w);
  }

  lemma StatusByCases(verb: Verb, major: int, uri: seq<byte>, w: World)
    ensures var served := verb == GET && major != -1;
            var path := served && !AsksStatistics(uri) && !AsksBash(uri);
            var script := served && !AsksStatistics(uri) && AsksBash(uri);
            StatusOf(verb, major, uri, w) ==
              if script && w.pipes && w.brokenPipe then None
              else if !served then Some(if verb == GET then 505 else 405)
              else if path && !w.isDir then Some(FileStatus(uri, w))
              else if (path && !w.dirOpens) || (script && !w.pipes) then Some(500)
              else Some(200)
  {
  }

  // struct share_statistics, without its title.
  class Statistics {
    var requests: int
    var code2xx: int
    var code3xx: int
    var code4xx: int
    var code5xx: int

    constructor ()
      ensures requests == 0 && code2xx == 0 && code3xx == 0 && code4xx == 0 && code5xx == 0
    {
      requests, code2xx, code3xx, code4xx, code5xx := 0, 0, 0, 0, 0;
    }

    method WriteCode(code: int)
      requires code >= 0
      modifies this
      ensures requests == old(requests) + 1
      ensures code2xx == old(code2xx) + (if 200 <= code < 300 then 1 else 0)
      ensures code3xx == old(code3xx) + (if 300 <= code < 400 then 1 else 0)
      ensures code4xx == old(code4xx) + (if 400 <= code < 500 then 1 else 0)
      ensures code5xx == old(code5xx) + (if 500 <= code < 600 then 1 else 0)
    {
      requests := requests + 1;
      match code / 100
      case 2 => code2xx := code2xx + 1;
      case 3 => code3xx := code3xx + 1;
      case 4 => code4xx := code4xx + 1;
      case 5 => code5xx := code5xx + 1;
      case _ =>
    }

    method FileAnswer(req: Request, w: World) returns (code: int)
      requires req.uri.Length == URI_LIMIT
      modifies this, req.uri
      ensures code == FileStatus(CString(old(req.uri[..])), w)
      ensures var uri := CString(old(req.uri[..]));
              && (code == 404 <==> HasPath(uri) && !w.found)
              && (code == 403 <==> HasPath(uri) && w.found && !w.opens && w.denied)
              && (code == 500 <==> HasPath(uri) && w.found && !w.opens && !w.denied)
              && (code == 200 <==> !HasPath(uri) || (w.found && w.opens))
      ensures Moved(old(requests), old(code2xx), old(code3xx), old(code4xx), old(code5xx), Some(code))
    {
      FileStatusExactly(CString(req.uri[..]), w);
      var i := CutQuery(req.uri);
      if i > 0 {
        if !w.found {
          WriteCode(404);
          return 404;
        }
        if !w.opens {
          if w.denied {
            WriteCode(403);
            return 403;
          } else {
            WriteCode(500);
            return 500;
          }
        }
      }
      WriteCode(200);
      return 200;
    }

    // Exactly one count of the status, in the total and in its own class; none without a status.
    ghost predicate Moved(r: int, c2: int, c3: int, c4: int, c5: int, code: Option<int>)
      reads this
    {
      if code == None then requests == r && code2xx == c2 && code3xx == c3 && code4xx == c4 && code5xx == c5
      else
        && requests == r + 1 && code3xx == c3
        && code2xx == c2 + (if code.value / 100 == 2 then 1 else 0)
        && code4xx == c4 + (if code.value / 100 == 4 then 1 else 0)
        && code5xx == c5 + (if code.value / 100 == 5 then 1 else 0)
    }

    // The part of do_call behind the request line.
    method Respond(req: Request, w: World, ghost k: Tokens) returns (code: Option<int>)
      requires req.uri.Length == URI_LIMIT && CString(req.uri[..]) == k.uri
      requires req.verb == FreshVerb(k.verb) && req.major == VersionOf(k.version).0
      modifies this, req.uri
      ensures code == Answer(k, w)
      ensures Moved(old(requests), old(code2xx), old(code3xx), old(code4xx), old(code5xx), code)
    {
      var status := 200;
      var uri := CString(req.uri[..]);
      if req.verb != GET {
        status := 405;
      } else if req.major == -1 {
        status := 505;
      } else if AsksStatistics(uri) {
        status := 200;
      } else if AsksBash(uri) {
        if !w.pipes {
          status := 500;
        } else if w.brokenPipe {
          return None;
        }
      } else if w.isDir {
        status := if w.dirOpens then 200 else 500;
      } else {
        var fileStatus := FileAnswer(req, w);
        return Some(fileStatus);
      }
      WriteCode(status);
      return Some(status);
    }

    // The counters move as the request and the system demand, whatever status that is.
    ghost predicate MovedFor(r: int, c2: int, c3: int, c4: int, c5: int, k: Tokens, w: World)
      reads this
    {
      && requests == r + (if CutOff(k, w) then 0 else 1)
      && code2xx == c2 + (if Fine(k, w) then 1 else 0)
      && code3xx == c3
      && code4xx == c4 + (if WrongMethod(k) || Missing(k, w) || Forbidden(k, w) then 1 else 0)
      && code5xx == c5 + (if WrongVersion(k) || Failing(k, w) then 1 else 0)
    }

    // Serves one connection with buffers of its own.
    method DoCall(c: Connection) returns (code: Option<int>)
      requires Fits(c.stream)
      modifies this
      ensures EndsWith(c, code)
      ensures Moved(old(requests), old(code2xx), old(code3xx), old(code4xx), old(code5xx), code)
      ensures forall k | StartsWith(c.stream, k) ::
                MovedFor(old(requests), old(code2xx), old(code3xx), old(code4xx), old(code5xx), k, c.world)
    {
      ghost var r, c2, c3, c4, c5 := requests, code2xx, code3xx, code4xx, code5xx;
      ghost var k;
      var ok, req;
      ok, req, k := ReadFresh(c.stream);
      if !ok {
        WriteCode(400);
        return Some(400);
      }
      code := Respond(req, c.world, k);
      EndsAsAnswered(c, k);
      OneLine(c.stream, k);
      MovesAsDemanded(r, c2, c3, c4, c5, k, c.world);
    }

    lemma MovesAsDemanded(r: int, c2: int, c3: int, c4: int, c5: int, k: Tokens, w: World)
      requires Moved(r, c2, c3, c4, c5, Answer(k, w))
      ensures MovedFor(r, c2, c3, c4, c5, k, w)
    {
      StatusExactly(k, w);
    }
  }

  lemma OneLine(stream: seq<byte>, k: Tokens)
    requires StartsWith(stream, k)
    ensures forall j | StartsWith(stream, j) :: j == k
  {
    forall j | StartsWith(stream, j) ensures j == k {
      LineIsUnique(stream, j, k);
    }
  }

  // calloc, then read_request_line.
  method ReadFresh(stream: seq<byte>) returns (ok: bool, req: Request, ghost k: Tokens)
    requires Fits(stream)
    ensures fresh(req) && fresh(req.uri) && req.uri.Length == URI_LIMIT
    ensures ok <==> HasLine(stream)
    ensures ok ==> StartsWith(stream, k) && CString(req.uri[..]) == k.uri
    ensures ok ==> req.verb == FreshVerb(k.verb) && req.major == VersionOf(k.version).0
  {
    req := new Request();
    var recv := new byte[BUFFSIZE](_ => 0);
    ok, k := ReadOver(stream, req, recv);
  }

  method ReadOver(stream: seq<byte>, req: Request, recv: array<byte>) returns (ok: bool, ghost k: Tokens)
    requires req.uri.Length == URI_LIMIT && recv.Length == BUFFSIZE && recv != req.uri && Fits(stream)
    requires forall i | 0 <= i < recv.Length :: recv[i] == 0
    modifies req, req.uri, recv
    ensures ok <==> HasLine(stream)
    ensures ok ==> StartsWith(stream, k) && CString(req.uri[..]) == k.uri
    ensures ok ==> req.verb == FreshVerb(k.verb) && req.major == VersionOf(k.version).0
  {
    ghost var start := recv[..];
    var n;
    ok, n := ReadRequestLine(stream, req, recv);
    k := LineRead(ok, stream, n, start, req.verb, CString(req.uri[..]), (req.major, req.minor));
  }

  // The line that was read over a zeroed buffer.
  lemma LineRead(ok: bool, stream: seq<byte>, n: nat, start: seq<byte>, verb: Verb, uri: seq<byte>, version: (int, int))
    returns (k: Tokens)
    requires |start| >= 3 && forall i | 0 <= i < |start| :: start[i] == 0
    requires ok ==> HasLine(stream) && ReadAs(stream, n, start, verb, uri, version)
    ensures ok ==> StartsWith(stream, k) && uri == k.uri && verb == FreshVerb(k.verb) && version == VersionOf(k.version)
  {
    k := Tokens([], [], []);
    if ok {
      k :| StartsWith(stream, k);
      VerbOverZeros(start, k.verb);
    }
  }

  lemma EndsAsAnswered(c: Connection, k: Tokens)
    requires StartsWith(c.stream, k)
    ensures EndsWith(c, Answer(k, c.world))
  {
    forall j | StartsWith(c.stream, j) ensures j == k {
      LineIsUnique(c.stream, j, k);
    }
  }

  lemma VerbOverZeros(start: seq<byte>, token: seq<byte>)
    requires |start| >= 3 && forall i | 0 <= i < |start| :: start[i] == 0
    ensures VerbOf(Overlay(start, token)) == FreshVerb(token)
  {
  }

  // Every connection has exactly one status, or none.
  lemma StatusIsDetermined(c: Connection)
    ensures exists code :: EndsWith(c, code)
    ensures forall a, b | EndsWith(c, a) && EndsWith(c, b) :: a == b
  {
    if HasLine(c.stream) {
      var k :| StartsWith(c.stream, k);
      forall j | StartsWith(c.stream, j) ensures j == k {
        LineIsUnique(c.stream, j, k);
      }
      assert EndsWith(c, Answer(k, c.world));
    } else {
      assert EndsWith(c, Some(400));
    }
  }

  predicate HasClass(code: int) {
    code / 100 == 2 || code / 100 == 4 || code / 100 == 5
  }

  // The status always has a class to be counted in, never that of redirects; and a connection goes uncounted
  // exactly when its script is cut off.
  lemma StatusIsClassified(c: Connection, code: Option<int>)
    requires EndsWith(c, code)
    ensures code.Some? ==> HasClass(code.value)
    ensures code == None <==> exists k :: StartsWith(c.stream, k) && CutOff(k, c.world)
  {
    if HasLine(c.stream) {
      var k :| StartsWith(c.stream, k);
      OneLine(c.stream, k);
      StatusExactly(k, c.world);
    }
  }
}
