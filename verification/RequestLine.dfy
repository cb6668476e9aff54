/** The byte-at-a-time request-line scan over the server's reused buffers. */
module RequestLine {
  import opened RequestText

  class Request {
    var verb: Verb
    const uri: array<byte>
    var major: int
    var minor: int

    // calloc: the URI buffer starts zeroed.
    constructor ()
      ensures uri.Length == URI_LIMIT && fresh(uri)
    {
      uri := new byte[URI_LIMIT](_ => 0);
      verb, major, minor := OTHER, 0, 0;
    }
  }

  // The C string at the start of a buffer.
  function CString(buff: seq<byte>): seq<byte> {
    buff[..IndexOf(buff, 0)]
  }

  method Find(buff: array<byte>, from: nat, n: nat, c: byte) returns (i: nat)
    requires from <= n <= buff.Length
    ensures i == from + IndexOf(buff[..][from..n], c)
  {
    i := from;
    while i < n && buff[i] != c
      invariant from <= i <= n
      invariant forall j | from <= j < i :: buff[j] != c
    {
      i := i + 1;
    }
    IndexIs(buff[..][from..n], c, i - from);
  }

  // What strtol reads at `from` once a terminator stands at the end of the token.
  lemma TokenIsRead(buff: seq<byte>, from: nat, end: nat, t: seq<byte>)
    requires from <= end < |buff| && buff[end] == 0 && buff[from..end] == t && Visible(t)
    ensures CString(buff[from..]) == t
  {
    var tail := buff[from..];
    assert forall i | 0 <= i < |t| :: tail[i] == t[i] && IsVisible(t[i]);
    assert tail[|t|] == 0;
    IndexIs(tail, 0, |t|);
  }

  function NumberIn(b: seq<byte>, from: nat, to: nat): int
    requires from <= to <= |b|
  {
    ToInt(StrToL(b[from..to]))
  }

  // Reads the number in buff[from..end] by writing a terminator at its end.
  method NumberUpTo(buff: array<byte>, from: nat, end: nat) returns (number: int)
    requires from <= end < buff.Length && Visible(buff[..][from..end])
    modifies buff
    ensures number == NumberIn(old(buff[..]), from, end)
    ensures buff[..] == old(buff[..][end := 0])
  {
    buff[end] := 0;
    TokenIsRead(buff[..], from, end, old(buff[..])[from..end]);
    number := ToInt(StrToL(CString(buff[..][from..])));
  }

  method ParseMinor(buff: array<byte>, cnt: nat, n: nat, major: int) returns (minor: int)
    requires cnt <= n <= buff.Length && (cnt < n ==> n < buff.Length) && Visible(buff[..][cnt..n])
    modifies buff
    ensures minor == MinorIn(old(buff[..]), cnt, n, major)
    ensures buff[..] == if cnt < n then old(buff[..])[n := 0] else old(buff[..])
  {
    minor := -1;
    if cnt < n {
      if major != -1 {
        minor := NumberUpTo(buff, cnt, n);
      } else {
        buff[n] := 0;
      }
    }
  }

  // Reads the number before a dot and puts the dot back.
  method NumberBeforeDot(buff: array<byte>, from: nat, dot: nat) returns (number: int)
    requires from <= dot < buff.Length && Visible(buff[..][from..dot]) && buff[dot] == 46
    modifies buff
    ensures number == NumberIn(buff[..], from, dot) && buff[..] == old(buff[..])
  {
    number := NumberUpTo(buff, from, dot);
    buff[dot] := 46;
  }

  lemma VisiblePart(b: seq<byte>, from: nat, to: nat, n: nat)
    requires from <= to <= n <= |b| && Visible(b[from..n])
    ensures Visible(b[from..to])
  {
    assert forall i | 0 <= i < to - from :: b[from..to][i] == b[from..n][i];
  }

  // What parse_version finds at the first dot: the number before it, and where the next one begins.
  ghost predicate MajorFound(b: seq<byte>, from: nat, n: nat, major: int, cnt: nat)
    requires from <= n <= |b|
  {
    var dot := from + IndexOf(b[from..n], 46);
    (major, cnt) == if dot < n then (NumberIn(b, from, dot), dot + 1) else (-1, from)
  }

  function MinorIn(b: seq<byte>, cnt: nat, n: nat, major: int): int
    requires cnt <= n <= |b|
  {
    if cnt < n && major != -1 then NumberIn(b, cnt, n) else -1
  }

  lemma AroundDot(b: seq<byte>, from: nat, n: nat, major: int, cnt: nat)
    requires from <= n <= |b| && Visible(b[from..n]) && MajorFound(b, from, n, major, cnt)
    ensures cnt <= n && Visible(b[cnt..n]) && (ReadsToTheEnd(b[from..n]) <==> cnt == n)
  {
    var s := b[from..n];
    if cnt != from {
      assert s[cnt - from..] == b[cnt..n];
    }
  }

  lemma NumbersFound(b: seq<byte>, from: nat, n: nat, major: int, cnt: nat)
    requires from <= n <= |b| && MajorFound(b, from, n, major, cnt) && cnt <= n
    ensures (major, MinorIn(b, cnt, n, major)) == NumbersOf(b[from..n])
  {
    var s := b[from..n];
    var dot := IndexOf(s, 46);
    assert s[..dot] == b[from..from + dot];
    if dot < |s| {
      assert s[dot + 1..] == b[cnt..n];
    }
  }

  // The part of parse_version behind the slash. It takes back the terminator it writes over the dot.
  method ParseNumbers(buff: array<byte>, from: nat, n: nat) returns (major: int, minor: int)
    requires from <= n <= buff.Length && Visible(buff[..][from..n])
    requires n == buff.Length ==> ReadsToTheEnd(buff[..][from..n])
    modifies buff
    ensures (major, minor) == NumbersOf(old(buff[..])[from..n])
    ensures buff[..] == if ReadsToTheEnd(old(buff[..])[from..n]) then old(buff[..]) else old(buff[..])[n := 0]
  {
    ghost var b := buff[..];
    var cnt;
    major, cnt := ParseMajor(buff, from, n);
    AroundDot(b, from, n, major, cnt);
    minor := ParseMinor(buff, cnt, n, major);
    NumbersFound(b, from, n, major, cnt);
  }

  // Where the next number begins, and the one before it if it ends in a dot.
  method ParseMajor(buff: array<byte>, from: nat, n: nat) returns (major: int, cnt: nat)
    requires from <= n <= buff.Length && Visible(buff[..][from..n])
    modifies buff
    ensures buff[..] == old(buff[..])
    ensures MajorFound(buff[..], from, n, major, cnt)
  {
    ghost var b := buff[..];
    major, cnt := -1, from;
    var end := Find(buff, cnt, n, 46);
    if end < n {
      assert b[from..n][end - from] == b[end];
      VisiblePart(b, from, end, n);
      major := NumberBeforeDot(buff, cnt, end);
      cnt := end + 1;
    }
  }

  lemma SlashAt(b: seq<byte>, slash: nat, n: nat)
    requires n <= |b| && Visible(b[..n]) && slash == IndexOf(b[0..n], 47)
    ensures var cnt := if slash < n then slash + 1 else n;
            AfterSlash(b[..n]) == b[cnt..n] && Visible(b[cnt..n])
  {
    var t := b[..n];
    assert t == b[0..n];
    if slash < n {
      assert t[slash + 1..] == b[slash + 1..n];
    }
  }

  method ParseVersion(buff: array<byte>, n: nat) returns (major: int, minor: int)
    requires n <= buff.Length && Visible(buff[..][..n]) && (n == buff.Length ==> !WritesBehind(buff[..][..n]))
    modifies buff
    ensures (major, minor) == VersionOf(old(buff[..])[..n])
    ensures buff[..] == if WritesBehind(old(buff[..])[..n]) then old(buff[..])[n := 0] else old(buff[..])
  {
    var cnt := Find(buff, 0, n, 47);
    SlashAt(buff[..], cnt, n);
    if cnt < n {
      cnt := cnt + 1;
    }
    major, minor := ParseNumbers(buff, cnt, n);
  }

  // What parse_method sees when a token has just been written over the start of a buffer.
  function Overlay(buff: seq<byte>, token: seq<byte>): (r: seq<byte>)
    ensures |r| >= |buff|
  {
    token + if |token| <= |buff| then buff[|token|..] else []
  }

  datatype State = InVerb | InUri | InVersion | AtEnd

  // What the scan has consumed in each state.
  function Consumed(state: State, k: Tokens): seq<byte> {
    match state
    case InVerb => k.verb
    case InUri => k.verb + [SP] + k.uri
    case InVersion => k.verb + [SP] + k.uri + [SP] + k.version
    case AtEnd => k.verb + [SP] + k.uri + [SP] + k.version + [CR]
  }

  // The tokens so far are what the scan allows in its state.
  predicate Partial(state: State, k: Tokens) {
    && Visible(k.verb) && Visible(k.uri) && Visible(k.version)
    && (|k.uri| <= URI_LIMIT - 2 || (state == InUri && |k.uri| == URI_LIMIT - 1))
    && (state == InVerb ==> k.uri == [])
    && (state == InVerb || state == InUri ==> k.version == [])
  }

  // What the scan has consumed begins a line that goes on, with the tokens so far.
  lemma Completes(state: State, k: Tokens)
    requires Partial(state, k) && |k.uri| <= URI_LIMIT - 2
    ensures WellFormed(k) && Consumed(state, k) <= Line(k) && |Consumed(state, k)| < |Line(k)|
  {
    assert Line(k) == k.verb + [SP] + k.uri + [SP] + k.version + [CR] + [LF];
  }

  lemma ConsumedIsPending(state: State, k: Tokens)
    requires Partial(state, k)
    ensures Pending(Consumed(state, k))
  {
    if |k.uri| <= URI_LIMIT - 2 {
      Completes(state, k);
      assert Begins(Consumed(state, k), k);
    } else {
      assert IsTooLong(Consumed(state, k), k.verb, k.uri);
    }
  }

  lemma NoLineYet(state: State, k: Tokens, j: Tokens)
    requires Partial(state, k) && WellFormed(j)
    ensures !(Line(j) <= Consumed(state, k))
  {
    if |k.uri| <= URI_LIMIT - 2 {
      Completes(state, k);
      if Line(j) <= Consumed(state, k) {
        LineIsUnique(Line(k), k, j);
      }
    } else {
      NoLineInUri(k.verb, k.uri, j);
    }
  }

  lemma NoLineInUri(m: seq<byte>, u: seq<byte>, k: Tokens)
    requires Visible(m) && Visible(u) && WellFormed(k)
    ensures !(Line(k) <= m + [SP] + u)
  {
    var tail := k.uri + [SP] + k.version + [CR, LF];
    assert Line(k) == k.verb + [SP] + tail;
    if Line(k) <= m + [SP] + u {
      assert k.verb + [SP] <= m + [SP] + u;
      SameToken(k.verb, SP, m, SP, u);
      assert tail == Line(k)[|m| + 1..] <= (m + [SP] + u)[|m| + 1..] == u;
      assert tail == k.uri + [SP] + (k.version + [CR, LF]);
      NoSpace(k.uri, k.version + [CR, LF]);
    }
  }

  predicate BadFor(state: State, k: Tokens, c: byte) {
    match state
    case InVerb => !IsVisible(c) && c != SP
    case InUri => |k.uri| == URI_LIMIT - 1 || (!IsVisible(c) && c != SP)
    case InVersion => !IsVisible(c) && c != CR
    case AtEnd => c != LF
  }

  // The byte that makes the scan give up leaves nothing that could still become a line.
  lemma BadByte(state: State, k: Tokens, c: byte)
    requires Partial(state, k) && BadFor(state, k, c)
    ensures !Pending(Consumed(state, k) + [c])
  {
    var m, u, v := k.verb, k.uri, k.version;
    match state
    case InVerb => BadInVerb(m, c);
    case InUri =>
      BadInUri(m, u, c);
      assert m + [SP] + u + [c] == m + [SP] + (u + [c]);
    case InVersion =>
      BadInVersion(m, u, v, c);
      assert m + [SP] + u + [SP] + v + [c] == m + [SP] + u + [SP] + (v + [c]);
    case AtEnd => BadAtEnd(m, u, v, c);
  }

  // All n bytes could have begun a line but there were no more, or the n-th is the first that the scan cannot
  // take.
  ghost predicate StopsAt(stream: seq<byte>, n: nat) {
    || (n == |stream| && Pending(stream))
    || (0 < n <= |stream| && (forall i | 0 <= i < n :: Pending(stream[..i])) && !Pending(stream[..n]))
  }

  lemma StopsAtFirst(stream: seq<byte>, n: nat)
    requires 0 < n <= |stream| && Pending(stream[..n - 1]) && !Pending(stream[..n])
    ensures StopsAt(stream, n)
  {
    forall i | 0 <= i < n ensures Pending(stream[..i]) {
      PendingPrefix(stream[..i], stream[..n - 1]);
    }
  }

  // No byte before the n-th rules every line out, and the n-th does.
  ghost predicate FirstToRuleOut(stream: seq<byte>, n: nat) {
    0 < n <= |stream| && Viable(stream[..n - 1]) && !Viable(stream[..n])
  }

  // The line the stream starts with is the n bytes consumed, the URI is its URI, the version numbers are
  // those of its version token, and the verb is what parse_method makes of its verb over the old buffer.
  ghost predicate ReadAs(stream: seq<byte>, n: nat, start: seq<byte>, verb: Verb, uri: seq<byte>, version: (int, int))
    requires |start| >= 3
  {
    forall k | StartsWith(stream, k) ::
      n == |Line(k)| && uri == k.uri && version == VersionOf(k.version) && verb == VerbOf(Overlay(start, k.verb))
  }

  // The scan gives up on its n-th byte, so the stream starts with no line.
  lemma Refused(stream: seq<byte>, n: nat, state: State, k: Tokens)
    requires 0 < n <= |stream| && stream[..n - 1] == Consumed(state, k)
    requires Partial(state, k) && BadFor(state, k, stream[n - 1])
    ensures !HasLine(stream) && StopsAt(stream, n)
    ensures FirstToRuleOut(stream, n) <==> !OneTooLong(stream[..n - 1])
  {
    ConsumedIsPending(state, k);
    assert stream[..n] == stream[..n - 1] + [stream[n - 1]];
    BadByte(state, k, stream[n - 1]);
    StopsAtFirst(stream, n);
    FirstRefusal(stream, n);
    forall j | StartsWith(stream, j) ensures false {
      if n <= |Line(j)| {
        LinePrefixIsPending(stream, n, j);
      } else {
        LineWithin(stream, n - 1, j);
        NoLineYet(state, k, j);
      }
    }
  }

  // The stream ran out.
  lemma EndedEarly(stream: seq<byte>, n: nat, state: State, k: Tokens)
    requires n == |stream| && stream[..n] == Consumed(state, k) && Partial(state, k)
    ensures !HasLine(stream) && StopsAt(stream, n) && Pending(stream[..n])
  {
    ConsumedIsPending(state, k);
    assert stream[..n] == stream;
    forall j | StartsWith(stream, j) ensures false {
      NoLineYet(state, k, j);
    }
  }

  lemma Accepted(stream: seq<byte>, n: nat, k: Tokens, start: seq<byte>)
    requires Partial(AtEnd, k) && |start| >= 3
    requires 0 < n <= |stream| && stream[..n - 1] == Consumed(AtEnd, k) && stream[n - 1] == LF
    ensures HasLine(stream)
    ensures ReadAs(stream, n, start, VerbOf(Overlay(start, k.verb)), k.uri, VersionOf(k.version))
  {
    assert stream[..n] == stream[..n - 1] + [stream[n - 1]];
    assert Line(k) == k.verb + [SP] + k.uri + [SP] + k.version + [CR] + [LF] == stream[..n];
    assert StartsWith(stream, k);
    forall j | StartsWith(stream, j) ensures j == k {
      LineIsUnique(stream, j, k);
    }
  }

  lemma LinePrefixIsPending(stream: seq<byte>, n: nat, k: Tokens)
    requires StartsWith(stream, k) && n <= |Line(k)|
    ensures Pending(stream[..n])
  {
    assert Begins(stream[..n], k);
  }

  lemma LineWithin(stream: seq<byte>, n: nat, k: Tokens)
    requires StartsWith(stream, k) && |Line(k)| <= n <= |stream|
    ensures Line(k) <= stream[..n]
  {
  }

  // The tokens a byte grows, and the state it leads to, where the scan accepts it.
  function Grow(state: State, k: Tokens, c: byte): Tokens {
    if !IsVisible(c) then k
    else match state
      case InVerb => k.(verb := k.verb + [c])
      case InUri => k.(uri := k.uri + [c])
      case _ => k.(version := k.version + [c])
  }

  function NextState(state: State, c: byte): State {
    if IsVisible(c) then state
    else match state
      case InVerb => InUri
      case InUri => InVersion
      case _ => AtEnd
  }

  lemma Growing(stream: seq<byte>, n: nat, state: State, k: Tokens)
    requires n < |stream| && stream[..n] == Consumed(state, k)
    requires Partial(state, k) && state != AtEnd && !BadFor(state, k, stream[n])
    ensures var state', k' := NextState(state, stream[n]), Grow(state, k, stream[n]);
            Partial(state', k') && stream[..n + 1] == Consumed(state', k')
  {
    assert stream[..n + 1] == stream[..n] + [stream[n]];
    GrowingToken(state, k, stream[n]);
  }

  lemma GrowingToken(state: State, k: Tokens, c: byte)
    requires Partial(state, k) && state != AtEnd && !BadFor(state, k, c)
    ensures var state', k' := NextState(state, c), Grow(state, k, c);
            Partial(state', k') && Consumed(state', k') == Consumed(state, k) + [c]
  {
  }

  // The tokens so far have been stored within the buffers.
  predicate InBounds(state: State, k: Tokens) {
    |k.verb| <= BUFFSIZE && |k.version| <= BUFFSIZE && (state == AtEnd ==> EndFits(k.version))
  }

  // What taking byte c writes stays within the receive buffer, given what the state has stored there.
  predicate Room(state: State, stored: seq<byte>, c: byte) {
    match state
    case InVerb => IsVisible(c) ==> |stored| < BUFFSIZE
    case InVersion => if IsVisible(c) then |stored| < BUFFSIZE else EndFits(stored)
    case _ => true
  }

  // What the receive buffer has of the token that goes there.
  function StoredToken(state: State, k: Tokens): seq<byte> {
    match state
    case InVerb => k.verb
    case InVersion => k.version
    case _ => []
  }

  // The two buffers a request line is read into, as they were before.
  datatype Buffers = Buffers(recv: seq<byte>, uri: seq<byte>)

  ghost predicate Sized(start: Buffers) {
    |start.recv| == BUFFSIZE && |start.uri| == URI_LIMIT
  }

  // A token has been written over the start of what a buffer held.
  ghost predicate Overlaid(a: array<byte>, start: seq<byte>, token: seq<byte>)
    reads a
  {
    && |token| <= a.Length == |start|
    && (forall i | 0 <= i < |token| :: a[i] == token[i])
    && (forall i | |token| <= i < a.Length :: a[i] == start[i])
  }

  lemma OverlaidIs(a: array<byte>, start: seq<byte>, token: seq<byte>)
    requires Overlaid(a, start, token)
    ensures a[..] == Overlay(start, token)
  {
  }

  lemma EmptyOverlay(a: array<byte>, start: seq<byte>, token: seq<byte>)
    requires Overlaid(a, start, token)
    ensures Overlaid(a, Overlay(start, token), [])
  {
    OverlaidIs(a, start, token);
  }

  // The version token as parse_version leaves it.
  function VersionLeft(version: seq<byte>): seq<byte> {
    version + if WritesBehind(version) then [0] else []
  }

  // What the buffers hold when the scan is in a state with tokens k so far.
  ghost predicate Buffered(state: State, recvNum: nat, k: Tokens, req: Request, recv: array<byte>, start: Buffers)
    reads req, req.uri, recv
  {
    && Sized(start) && req.uri.Length == URI_LIMIT && recv.Length == BUFFSIZE
    && Partial(state, k) && InBounds(state, k)
    && (state != InVerb ==> req.verb == VerbOf(Overlay(start.recv, k.verb)))
    && match state
       case InVerb => recvNum == |k.verb| && Overlaid(recv, start.recv, k.verb) && Overlaid(req.uri, start.uri, [])
       case InUri => recvNum == |k.uri| && Overlaid(recv, start.recv, k.verb) && Overlaid(req.uri, start.uri, k.uri)
       case InVersion =>
         && recvNum == |k.version| && Overlaid(recv, Overlay(start.recv, k.verb), k.version)
         && Overlaid(req.uri, start.uri, k.uri + [0])
       case AtEnd =>
         && (req.major, req.minor) == VersionOf(k.version)
         && Overlaid(recv, Overlay(start.recv, k.verb), VersionLeft(k.version))
         && Overlaid(req.uri, start.uri, k.uri + [0])
  }

  // The same, for the buffers alone.
  function LeftBy(state: State, k: Tokens, start: Buffers): (left: Buffers)
    ensures |left.recv| >= |start.recv| && |left.uri| >= |start.uri|
  {
    match state
    case InVerb => Buffers(Overlay(start.recv, k.verb), start.uri)
    case InUri => Buffers(Overlay(start.recv, k.verb), Overlay(start.uri, k.uri))
    case InVersion => Buffers(Overlay(Overlay(start.recv, k.verb), k.version), Overlay(start.uri, k.uri + [0]))
    case AtEnd =>
      Buffers(Overlay(Overlay(start.recv, k.verb), VersionLeft(k.version)), Overlay(start.uri, k.uri + [0]))
  }

  lemma BufferedIsLeft(state: State, recvNum: nat, k: Tokens, req: Request, recv: array<byte>, start: Buffers)
    requires Buffered(state, recvNum, k, req, recv, start)
    ensures Buffers(recv[..], req.uri[..]) == LeftBy(state, k, start)
  {
    match state
    case InVerb => OverlaidIs(recv, start.recv, k.verb);
    case InUri =>
      OverlaidIs(recv, start.recv, k.verb);
      OverlaidIs(req.uri, start.uri, k.uri);
    case InVersion =>
      OverlaidIs(recv, Overlay(start.recv, k.verb), k.version);
      OverlaidIs(req.uri, start.uri, k.uri + [0]);
    case AtEnd =>
      OverlaidIs(recv, Overlay(start.recv, k.verb), VersionLeft(k.version));
      OverlaidIs(req.uri, start.uri, k.uri + [0]);
  }

  method Store(a: array<byte>, i: nat, c: byte, ghost start: seq<byte>, ghost token: seq<byte>)
    requires Overlaid(a, start, token) && i == |token| < a.Length
    modifies a
    ensures Overlaid(a, start, token + [c])
  {
    a[i] := c;
  }

  // Stores a token byte where the state puts it.
  method StoreByte(c: byte, state: State, recvNum: nat, req: Request, recv: array<byte>, ghost k: Tokens,
                   ghost start: Buffers)
    requires recv != req.uri && Buffered(state, recvNum, k, req, recv, start)
    requires IsVisible(c) && !BadFor(state, k, c) && state != AtEnd && Room(state, StoredToken(state, k), c)
    modifies req.uri, recv
    ensures Buffered(state, recvNum + 1, Grow(state, k, c), req, recv, start)
  {
    GrowingToken(state, k, c);
    match state
    case InVerb => Store(recv, recvNum, c, start.recv, k.verb);
    case InUri => Store(req.uri, recvNum, c, start.uri, k.uri);
    case InVersion => Store(recv, recvNum, c, Overlay(start.recv, k.verb), k.version);
  }

  // Ends a token on its separator and goes on to the next state.
  method EndToken(c: byte, state: State, recvNum: nat, req: Request, recv: array<byte>, ghost k: Tokens,
                  ghost start: Buffers)
    requires recv != req.uri && Buffered(state, recvNum, k, req, recv, start)
    requires !IsVisible(c) && !BadFor(state, k, c) && state != AtEnd && Room(state, StoredToken(state, k), c)
    modifies req, req.uri, recv
    ensures Buffered(NextState(state, c), 0, k, req, recv, start)
  {
    GrowingToken(state, k, c);
    match state
    case InVerb =>
      OverlaidIs(recv, start.recv, k.verb);
      req.verb := VerbOf(recv[..]);
    case InUri =>
      Store(req.uri, recvNum, 0, start.uri, k.uri);
      EmptyOverlay(recv, start.recv, k.verb);
    case InVersion => req.major, req.minor := EndVersion(recv, recvNum, Overlay(start.recv, k.verb), k.version);
  }

  method EndVersion(recv: array<byte>, n: nat, ghost start: seq<byte>, ghost version: seq<byte>)
    returns (major: int, minor: int)
    requires Overlaid(recv, start, version) && n == |version| && Visible(version)
    requires n == recv.Length ==> !WritesBehind(version)
    modifies recv
    ensures (major, minor) == VersionOf(version) && Overlaid(recv, start, VersionLeft(version))
  {
    assert recv[..][..n] == version;
    major, minor := ParseVersion(recv, n);
  }

  // The tests read_request_line makes on a byte in each state.
  predicate Refuses(state: State, recvNum: nat, c: byte) {
    match state
    case InVerb => !IsVisible(c) && c != SP
    case InUri => !(IsVisible(c) && recvNum + 1 < URI_LIMIT) && !(c == SP && recvNum + 1 < URI_LIMIT)
    case InVersion => !IsVisible(c) && c != CR
    case AtEnd => c != LF
  }

  // Takes one byte that the state does not refuse.
  method TakeByte(c: byte, state: State, recvNum: nat, req: Request, recv: array<byte>, ghost k: Tokens,
                  ghost start: Buffers)
    returns (state': State, recvNum': nat)
    requires recv != req.uri && Buffered(state, recvNum, k, req, recv, start)
    requires !BadFor(state, k, c) && state != AtEnd && Room(state, StoredToken(state, k), c)
    modifies req, req.uri, recv
    ensures state' == NextState(state, c)
    ensures Buffered(state', recvNum', Grow(state, k, c), req, recv, start)
  {
    state' := NextState(state, c);
    if IsVisible(c) {
      StoreByte(c, state, recvNum, req, recv, k, start);
      recvNum' := recvNum + 1;
    } else {
      EndToken(c, state, recvNum, req, recv, k, start);
      recvNum' := 0;
    }
  }

  // Overrun: the next write would be outside the receive buffer, and nothing is known from there on.
  datatype Verdict = More | Done | Offending | NoMore | Overrun

  ghost predicate Going(stream: seq<byte>, n: nat, state: State, recvNum: nat, k: Tokens, req: Request,
                        recv: array<byte>, start: Buffers)
    reads req, req.uri, recv
  {
    n <= |stream| && stream[..n] == Consumed(state, k) && Buffered(state, recvNum, k, req, recv, start)
  }

  // Where the scan has stopped, in which state and why.
  predicate Halted(verdict: Verdict, stream: seq<byte>, n: nat, state: State, k: Tokens) {
    && n <= |stream| && Partial(state, k) && InBounds(state, k)
    && match verdict
       case More => false
       case NoMore => n == |stream| && stream[..n] == Consumed(state, k)
       case Offending => 0 < n && stream[..n - 1] == Consumed(state, k) && BadFor(state, k, stream[n - 1])
       case Done => 0 < n && stream[..n - 1] == Consumed(state, k) && state == AtEnd && stream[n - 1] == LF
       case Overrun =>
         && 0 < n && stream[..n - 1] == Consumed(state, k) && state != AtEnd && !BadFor(state, k, stream[n - 1])
         && !Room(state, StoredToken(state, k), stream[n - 1])
  }

  ghost predicate Stopped(verdict: Verdict, stream: seq<byte>, n: nat, state: State, k: Tokens, req: Request,
                          recv: array<byte>, start: Buffers)
    reads req, req.uri, recv
  {
    && Halted(verdict, stream, n, state, k)
    && Sized(start) && Buffers(recv[..], req.uri[..]) == LeftBy(state, k, start)
    && (verdict == Done ==>
          req.verb == VerbOf(Overlay(start.recv, k.verb)) && (req.major, req.minor) == VersionOf(k.version))
  }

  /* ---- The scan as a function of the stream. ---- */

  const NO_TOKENS := Tokens([], [], [])

  // The state the scan stops in and the tokens it has then, from byte n on.
  function ScanFrom(stream: seq<byte>, n: nat, state: State, k: Tokens): (State, Tokens)
    requires n <= |stream|
    decreases |stream| - n
  {
    if n == |stream| || state == AtEnd || BadFor(state, k, stream[n]) then (state, k)
    else ScanFrom(stream, n + 1, NextState(state, stream[n]), Grow(state, k, stream[n]))
  }

  // The last byte brought the scan here.
  function Before(state: State, k: Tokens): (State, Tokens) {
    match state
    case InVerb => (InVerb, if k.verb == [] then k else k.(verb := k.verb[..|k.verb| - 1]))
    case InUri => if k.uri == [] then (InVerb, k) else (InUri, k.(uri := k.uri[..|k.uri| - 1]))
    case InVersion => if k.version == [] then (InUri, k) else (InVersion, k.(version := k.version[..|k.version| - 1]))
    case AtEnd => (InVersion, k)
  }

  lemma BeforeLeadsHere(state: State, k: Tokens) returns (c: byte)
    requires Partial(state, k) && Consumed(state, k) != []
    ensures var (state', k') := Before(state, k);
            && Partial(state', k') && state' != AtEnd && !BadFor(state', k', c)
            && NextState(state', c) == state && Grow(state', k', c) == k
            && Consumed(state, k) == Consumed(state', k') + [c]
  {
    var p := Consumed(state, k);
    c := p[|p| - 1];
    BeforeConsumed(state, k, c);
  }

  lemma BeforeConsumed(state: State, k: Tokens, c: byte)
    requires Consumed(state, k) != [] && c == Consumed(state, k)[|Consumed(state, k)| - 1]
    ensures Consumed(state, k) == Consumed(Before(state, k).0, Before(state, k).1) + [c]
  {
  }

  // Whatever begins the stream as a state's tokens do, the scan gets to that state with these tokens.
  lemma {:induction false} ScanReaches(stream: seq<byte>, state: State, k: Tokens)
    requires Partial(state, k) && Consumed(state, k) <= stream
    ensures ScanFrom(stream, 0, InVerb, NO_TOKENS) == ScanFrom(stream, |Consumed(state, k)|, state, k)
    decreases |Consumed(state, k)|
  {
    if Consumed(state, k) != [] {
      var (state', k') := Before(state, k);
      var c := BeforeLeadsHere(state, k);
      var n := |Consumed(state', k')|;
      assert c == Consumed(state, k)[n] == stream[n];
      assert Consumed(state', k') <= stream;
      ScanReaches(stream, state', k');
    }
  }

  // The scan stops there: the stream ends, or goes on with a byte that the state cannot take, or with the last
  // byte that it will take.
  predicate StopsIn(stream: seq<byte>, state: State, k: Tokens) {
    var p := Consumed(state, k);
    Partial(state, k) && p <= stream && (p == stream || state == AtEnd || BadFor(state, k, stream[|p|]))
  }

  lemma StopsHere(stream: seq<byte>, n: nat, state: State, k: Tokens)
    requires n <= |stream| && stream[..n] == Consumed(state, k) && Partial(state, k)
    requires n < |stream| && state != AtEnd ==> BadFor(state, k, stream[n])
    ensures StopsIn(stream, state, k)
  {
    assert Consumed(state, k) <= stream && |Consumed(state, k)| == n;
    assert n == |stream| ==> stream[..n] == stream;
  }

  lemma {:induction false} ScanStops(stream: seq<byte>, n: nat, state: State, k: Tokens)
    requires n <= |stream| && stream[..n] == Consumed(state, k) && Partial(state, k)
    ensures var (state', k') := ScanFrom(stream, n, state, k); StopsIn(stream, state', k')
    decreases |stream| - n
  {
    if n == |stream| || state == AtEnd || BadFor(state, k, stream[n]) {
      StopsHere(stream, n, state, k);
    } else {
      Growing(stream, n, state, k);
      ScanStops(stream, n + 1, NextState(state, stream[n]), Grow(state, k, stream[n]));
    }
  }

  ghost predicate IsStop(stream: seq<byte>, stop: (State, Tokens)) {
    StopsIn(stream, stop.0, stop.1)
  }

  // The state the scan of a stream stops in, and the tokens it has then.
  ghost function StopOf(stream: seq<byte>): (State, Tokens) {
    ScanStops(stream, 0, InVerb, NO_TOKENS);
    assert IsStop(stream, ScanFrom(stream, 0, InVerb, NO_TOKENS));
    var stop :| IsStop(stream, stop);
    stop
  }

  // What reading a request line from the stream leaves in the buffers.
  ghost function After(stream: seq<byte>, start: Buffers): (left: Buffers)
    ensures |left.recv| >= |start.recv| && |left.uri| >= |start.uri|
  {
    LeftBy(StopOf(stream).0, StopOf(stream).1, start)
  }

  lemma StopIsReached(stream: seq<byte>, state: State, k: Tokens)
    requires StopsIn(stream, state, k)
    ensures StopOf(stream) == (state, k)
  {
    assert IsStop(stream, (state, k));
    assert IsStop(stream, StopOf(stream));
    ScanReaches(stream, state, k);
    ScanReaches(stream, StopOf(stream).0, StopOf(stream).1);
  }

  // Every stream stops the scan in one way.
  lemma StopIsUnique(stream: seq<byte>, state: State, k: Tokens)
    ensures StopOf(stream) == (state, k) <==> StopsIn(stream, state, k)
  {
    assert IsStop(stream, StopOf(stream));
    if StopsIn(stream, state, k) {
      StopIsReached(stream, state, k);
    }
  }

  // A stream that starts with a line is scanned to that line's tokens.
  lemma LineStops(stream: seq<byte>, k: Tokens)
    requires StartsWith(stream, k)
    ensures StopOf(stream) == (AtEnd, k)
  {
    Completes(AtEnd, k);
    assert Consumed(AtEnd, k) <= Line(k) <= stream;
    StopIsReached(stream, AtEnd, k);
  }

  lemma HaltIsStop(verdict: Verdict, stream: seq<byte>, n: nat, state: State, k: Tokens)
    requires Halted(verdict, stream, n, state, k) && verdict != Overrun
    ensures StopOf(stream) == (state, k)
  {
    var place := if verdict == NoMore then n else n - 1;
    assert stream[..place] == Consumed(state, k);
    StopIsReached(stream, state, k);
  }

  /* ---- The scan leaves the receive buffer exactly on the streams that do not fit. ---- */

  // Only the verb is there.
  lemma FitsInVerb(stream: seq<byte>, k: Tokens)
    requires RunsOut(k.verb, stream) && |k.verb| <= BUFFSIZE && (|k.verb| < |stream| ==> stream[|k.verb|] != SP)
    ensures Fits(stream)
  {
    forall m | BeginsVerb(stream, m) ensures |m| <= BUFFSIZE {
      LongestToken(k.verb, stream, m);
    }
    forall m, u, v | ReachesVersion(stream, m, u, v) ensures false {
      assert m + [SP] + u + [SP] + v == m + [SP] + (u + [SP] + v);
      TokenThenByte(k.verb, stream, m, SP, u + [SP] + v);
    }
  }

  lemma VerbsFit(stream: seq<byte>, verb: seq<byte>, tail: seq<byte>, m: seq<byte>)
    requires stream == verb + [SP] + tail && Visible(verb) && |verb| <= BUFFSIZE && Visible(m) && m <= stream
    ensures |m| <= BUFFSIZE
  {
    assert stream[|verb|] == SP;
    LongestToken(verb, stream, m);
  }

  // No version is reached when the URI stops first.
  lemma FitsInUri(stream: seq<byte>, k: Tokens, tail: seq<byte>)
    requires stream == k.verb + [SP] + tail && Visible(k.verb) && |k.verb| <= BUFFSIZE
    requires Visible(k.uri) && k.uri <= tail
    requires |k.uri| == URI_LIMIT - 1 || (RunsOut(k.uri, tail) && (|k.uri| < |tail| ==> tail[|k.uri|] != SP))
    ensures Fits(stream)
  {
    forall m | BeginsVerb(stream, m) ensures |m| <= BUFFSIZE {
      VerbsFit(stream, k.verb, tail, m);
    }
    forall m, u, v | ReachesVersion(stream, m, u, v) ensures false {
      assert m + [SP] + u + [SP] + v == m + [SP] + (u + [SP] + v);
      BehindVerb(k.verb, tail, m, u + [SP] + v);
      UriGoesOn(k.uri, tail, u, v);
    }
  }

  lemma UriGoesOn(uri: seq<byte>, tail: seq<byte>, u: seq<byte>, v: seq<byte>)
    requires Visible(uri) && uri <= tail && Visible(u) && |u| <= URI_LIMIT - 2 && u + [SP] + v <= tail
    ensures |uri| < URI_LIMIT - 1
    ensures RunsOut(uri, tail) ==> |uri| < |tail| && tail[|uri|] == SP
  {
    assert (u + [SP] + v)[|u|] == SP == tail[|u|];
    if RunsOut(uri, tail) {
      TokenThenByte(uri, tail, u, SP, v);
    }
    assert |u| < |uri| ==> IsVisible(uri[|u|]);
  }

  lemma TokensLie(stream: seq<byte>, k: Tokens, tail: seq<byte>, m: seq<byte>, u: seq<byte>, v: seq<byte>,
                  rest: seq<byte>)
    requires stream == k.verb + [SP] + k.uri + [SP] + tail && Visible(k.verb) && Visible(k.uri)
    requires Visible(m) && Visible(u) && m + [SP] + u + [SP] + v + rest <= stream
    ensures m == k.verb && u == k.uri && v + rest <= tail
  {
    assert stream == k.verb + [SP] + (k.uri + [SP] + tail);
    assert m + [SP] + u + [SP] + v + rest == m + [SP] + (u + [SP] + (v + rest));
    BehindVerb(k.verb, k.uri + [SP] + tail, m, u + [SP] + (v + rest));
    BehindVerb(k.uri, tail, u, v + rest);
  }

  lemma FitsInVersion(stream: seq<byte>, k: Tokens, tail: seq<byte>)
    requires stream == k.verb + [SP] + k.uri + [SP] + tail && Visible(k.verb) && |k.verb| <= BUFFSIZE
    requires Visible(k.uri) && |k.version| <= BUFFSIZE && RunsOut(k.version, tail)
    requires |k.version| < |tail| && tail[|k.version|] == CR ==> EndFits(k.version)
    ensures Fits(stream)
  {
    forall m | BeginsVerb(stream, m) ensures |m| <= BUFFSIZE {
      assert stream == k.verb + [SP] + (k.uri + [SP] + tail);
      VerbsFit(stream, k.verb, k.uri + [SP] + tail, m);
    }
    forall m, u, v | ReachesVersion(stream, m, u, v) ensures |v| <= BUFFSIZE {
      assert m + [SP] + u + [SP] + v + [] == m + [SP] + u + [SP] + v;
      TokensLie(stream, k, tail, m, u, v, []);
      assert v + [] == v;
      LongestToken(k.version, tail, v);
    }
    forall m, u, v | EndsVersion(stream, m, u, v) ensures EndFits(v) {
      TokensLie(stream, k, tail, m, u, v, [CR]);
      assert v + [CR] == v + [CR] + [];
      TokenThenByte(k.version, tail, v, CR, []);
    }
  }

  lemma OverrunInVerb(verdict: Verdict, stream: seq<byte>, n: nat, k: Tokens)
    requires Halted(verdict, stream, n, InVerb, k)
    ensures verdict == Overrun <==> !Fits(stream)
  {
    if verdict == Overrun {
      var m := k.verb + [stream[n - 1]];
      assert stream[..n] == stream[..n - 1] + [stream[n - 1]] == m;
      assert BeginsVerb(stream, m);
    } else {
      FitsInVerb(stream, k);
    }
  }

  lemma OverrunInUri(verdict: Verdict, stream: seq<byte>, n: nat, k: Tokens)
    requires Halted(verdict, stream, n, InUri, k)
    ensures verdict != Overrun && Fits(stream)
  {
    var p := k.verb + [SP] + k.uri;
    var tail := stream[|k.verb| + 1..];
    assert stream[..|p|] == p;
    assert forall i | 0 <= i < |p| :: stream[i] == p[i];
    assert stream == k.verb + [SP] + tail;
    FitsInUri(stream, k, tail);
  }

  lemma OverrunInVersion(verdict: Verdict, stream: seq<byte>, n: nat, state: State, k: Tokens)
    requires Halted(verdict, stream, n, state, k) && (state == InVersion || state == AtEnd)
    ensures verdict == Overrun <==> !Fits(stream)
  {
    var p := k.verb + [SP] + k.uri + [SP] + k.version;
    assert p <= Consumed(state, k) <= stream;
    if verdict == Overrun {
      VersionOverruns(stream, k);
    } else {
      var tail := stream[|k.verb| + |k.uri| + 2..];
      assert forall i | 0 <= i < |p| :: stream[i] == p[i];
      assert stream == k.verb + [SP] + k.uri + [SP] + tail;
      assert |k.version| < |tail| ==> tail[|k.version|] == stream[|p|];
      assert state == AtEnd ==> stream[|p|] == Consumed(state, k)[|p|];
      FitsInVersion(stream, k, tail);
    }
  }

  lemma VersionOverruns(stream: seq<byte>, k: Tokens)
    requires Visible(k.verb) && Visible(k.uri) && |k.uri| <= URI_LIMIT - 2 && Visible(k.version)
    requires var p := k.verb + [SP] + k.uri + [SP] + k.version;
             p <= stream && |p| < |stream| &&
             (if IsVisible(stream[|p|]) then |k.version| >= BUFFSIZE else stream[|p|] == CR && !EndFits(k.version))
    ensures !Fits(stream)
  {
    var p := k.verb + [SP] + k.uri + [SP] + k.version;
    var c := stream[|p|];
    assert stream[..|p| + 1] == p + [c];
    if IsVisible(c) {
      var v := k.version + [c];
      assert p + [c] == k.verb + [SP] + k.uri + [SP] + v;
      assert ReachesVersion(stream, k.verb, k.uri, v);
    } else {
      assert EndsVersion(stream, k.verb, k.uri, k.version);
    }
  }

  lemma OverrunIsNotFitting(verdict: Verdict, stream: seq<byte>, n: nat, state: State, k: Tokens)
    requires Halted(verdict, stream, n, state, k)
    ensures verdict == Overrun <==> !Fits(stream)
  {
    match state
    case InVerb => OverrunInVerb(verdict, stream, n, k);
    case InUri => OverrunInUri(verdict, stream, n, k);
    case _ => OverrunInVersion(verdict, stream, n, state, k);
  }

  // A verb one byte longer than the receive buffer is written past its end.
  lemma LongVerbOverruns(verb: seq<byte>, rest: seq<byte>)
    requires Visible(verb) && |verb| > BUFFSIZE
    ensures !Fits(verb + rest)
  {
    assert BeginsVerb(verb + rest, verb);
  }

  function Repeated(c: byte, n: nat): (s: seq<byte>)
    ensures |s| == n && forall i | 0 <= i < n :: s[i] == c
  {
    if n == 0 then [] else Repeated(c, n - 1) + [c]
  }

  // The shortest such stream, and the longest of its kind that is safe.
  lemma FirstOverrun()
    ensures !Fits(Repeated(97, BUFFSIZE + 1)) && Fits(Repeated(97, BUFFSIZE))
  {
    var verb := Repeated(97, BUFFSIZE + 1);
    LongVerbOverruns(verb, []);
    assert verb + [] == verb;
    FitsInVerb(Repeated(97, BUFFSIZE), NO_TOKENS.(verb := Repeated(97, BUFFSIZE)));
  }

  // A version of 8192 bytes fits as long as it names no number; with a slash before its last byte the NUL that
  // parse_version writes behind it is outside the buffer.
  lemma FullVersion(k: Tokens)
    requires WellFormed(k) && |k.verb| <= BUFFSIZE && |k.version| == BUFFSIZE
    ensures Fits(Line(k)) <==> !WritesBehind(k.version)
  {
    var tail := k.version + [CR, LF];
    assert Line(k) == k.verb + [SP] + k.uri + [SP] + tail && tail[BUFFSIZE] == CR;
    if WritesBehind(k.version) {
      var p := k.verb + [SP] + k.uri + [SP] + k.version;
      assert Line(k) == p + [CR, LF] && Line(k)[|p|] == CR;
      VersionOverruns(Line(k), k);
    } else {
      FitsInVersion(Line(k), k, tail);
    }
  }

  // What the printer prints always fits.
  lemma PrintedFits(uri: seq<byte>, major: nat, minor: nat, rest: seq<byte>)
    requires Visible(uri) && |uri| <= URI_LIMIT - 2 && major <= INT_MAX && minor <= INT_MAX
    ensures Fits(Line(GetRequest(uri, major, minor)) + rest)
  {
    var g := GetRequest(uri, major, minor);
    PrintedIsWellFormed(uri, major, minor);
    DecIsShort(major, 10);
    DecIsShort(minor, 10);
    var tail := g.version + [CR, LF] + rest;
    assert Line(g) + rest == g.verb + [SP] + g.uri + [SP] + tail;
    assert tail[|g.version|] == CR;
    FitsInVersion(Line(g) + rest, g, tail);
  }

  // One turn of the loop of read_request_line, on byte n of the stream.
  method ScanByte(stream: seq<byte>, n: nat, state: State, recvNum: nat, req: Request, recv: array<byte>,
                  ghost k: Tokens, ghost start: Buffers)
    returns (verdict: Verdict, state': State, recvNum': nat, ghost k': Tokens)
    requires recv != req.uri && n < |stream|
    requires Going(stream, n, state, recvNum, k, req, recv, start)
    modifies req, req.uri, recv
    ensures verdict == More ==> Going(stream, n + 1, state', recvNum', k', req, recv, start)
    ensures verdict != More ==> Stopped(verdict, stream, n + 1, state', k', req, recv, start)
  {
    var c := stream[n];
    BufferedIsLeft(state, recvNum, k, req, recv, start);
    if Refuses(state, recvNum, c) {
      return Offending, state, recvNum, k;
    }
    if state == AtEnd {
      return Done, state, recvNum, k;
    }
    var stored := if state == InUri then [] else recv[..][..recvNum];
    assert stored == StoredToken(state, k);
    if !Room(state, stored, c) {
      return Overrun, state, recvNum, k;
    }
    Growing(stream, n, state, k);
    state', recvNum' := TakeByte(c, state, recvNum, req, recv, k, start);
    verdict, k' := More, Grow(state, k, c);
  }

  method Scan(stream: seq<byte>, req: Request, recv: array<byte>)
    returns (verdict: Verdict, n: nat, ghost state: State, ghost k: Tokens)
    requires req.uri.Length == URI_LIMIT && recv.Length == BUFFSIZE && recv != req.uri
    modifies req, req.uri, recv
    ensures verdict == Overrun <==> !Fits(stream)
    ensures Stopped(verdict, stream, n, state, k, req, recv, Buffers(old(recv[..]), old(req.uri[..])))
  {
    var reqState, recvNum := InVerb, 0;
    state, k := InVerb, Tokens([], [], []);
    ghost var start := Buffers(recv[..], req.uri[..]);
    verdict, n := More, 0;
    while n < |stream|
      invariant reqState == state
      invariant Going(stream, n, state, recvNum, k, req, recv, start)
    {
      verdict, reqState, recvNum, k := ScanByte(stream, n, reqState, recvNum, req, recv, k, start);
      n := n + 1;
      state := reqState;
      if verdict != More {
        OverrunIsNotFitting(verdict, stream, n, state, k);
        return;
      }
    }
    verdict := NoMore;
    BufferedIsLeft(state, recvNum, k, req, recv, start);
    OverrunIsNotFitting(verdict, stream, n, state, k);
  }

  lemma UriIsString(b: seq<byte>, start: seq<byte>, uri: seq<byte>)
    requires b == Overlay(start, uri + [0]) && Visible(uri)
    ensures CString(b) == uri
  {
    assert b[|uri|] == 0 && b[0..|uri|] == uri;
    TokenIsRead(b, 0, |uri|, uri);
    assert b[0..] == b;
  }

  // Reads one request line from the stream. On success the n bytes consumed are exactly the line. On refusal
  // the stream ended early or the n-th byte is the first that the scan cannot take; and that byte is the first
  // to rule every line out exactly when no URI of 1023 bytes stands before it.
  method ReadRequestLine(stream: seq<byte>, req: Request, recv: array<byte>) returns (ok: bool, n: nat)
    requires req.uri.Length == URI_LIMIT && recv.Length == BUFFSIZE && recv != req.uri && Fits(stream)
    modifies req, req.uri, recv
    ensures n <= |stream|
    ensures ok <==> HasLine(stream)
    ensures ok ==> ReadAs(stream, n, old(recv[..]), req.verb, CString(req.uri[..]), (req.major, req.minor))
    ensures !ok ==> StopsAt(stream, n)
    ensures !ok && !Pending(stream[..n]) ==> 0 < n && (FirstToRuleOut(stream, n) <==> !OneTooLong(stream[..n - 1]))
    ensures Buffers(recv[..], req.uri[..]) == After(stream, Buffers(old(recv[..]), old(req.uri[..])))
  {
    ghost var start := Buffers(recv[..], req.uri[..]);
    var verdict: Verdict;
    ghost var state: State, k: Tokens;
    verdict, n, state, k := Scan(stream, req, recv);
    ok := verdict == Done;
    HaltIsStop(verdict, stream, n, state, k);
    match verdict
    case Done =>
      Accepted(stream, n, k, start.recv);
      UriIsString(req.uri[..], start.uri, k.uri);
    case Offending => Refused(stream, n, state, k);
    case NoMore => EndedEarly(stream, n, state, k);
  }

  lemma LongVerb(start: seq<byte>, t: seq<byte>)
    requires |start| >= 3 && |t| >= 3
    ensures VerbOf(Overlay(start, t)) == VerbOf(t)
  {
  }

  // Print, then read: whatever the buffers held, and whatever follows on the connection.
  method PrintThenRead(uri: seq<byte>, major: nat, minor: nat, rest: seq<byte>, req: Request, recv: array<byte>)
    requires Visible(uri) && |uri| <= URI_LIMIT - 2 && major <= INT_MAX && minor <= INT_MAX
    requires req.uri.Length == URI_LIMIT && recv.Length == BUFFSIZE && recv != req.uri
    modifies req, req.uri, recv
    ensures req.verb == GET && CString(req.uri[..]) == uri && req.major == major && req.minor == minor
  {
    var g := GetRequest(uri, major, minor);
    PrintedFits(uri, major, minor, rest);
    PrintedRequestReadsBack(uri, major, minor, rest, g);
    ghost var start := recv[..];
    var ok, n := ReadRequestLine(Line(g) + rest, req, recv);
    LongVerb(start, g.verb);
  }

  /* ---- The query. ---- */

  function BeforeQuery(uri: seq<byte>): seq<byte> {
    uri[..IndexOf(uri, 63)]
  }

  function CutAt(buff: seq<byte>, i: nat): seq<byte> {
    if i < |buff| then buff[i := 0] else buff
  }

  // The scan for '?' stays inside the buffer, cuts the string there, and returns its new length.
  method CutQuery(uri: array<byte>) returns (i: nat)
    requires uri.Length == URI_LIMIT
    modifies uri
    ensures CString(uri[..]) == BeforeQuery(CString(old(uri[..])))
    ensures i == |BeforeQuery(CString(old(uri[..])))|
    ensures uri[..] == CutAt(old(uri[..]), i)
  {
    ghost var before := uri[..];
    ghost var s := CString(before);
    i := 0;
    while i < URI_LIMIT && uri[i] != 0
      invariant 0 <= i <= |s| <= URI_LIMIT && uri[..] == before
      invariant forall j | 0 <= j < i :: s[j] != 63
    {
      if uri[i] == 63 {
        IndexIs(s, 63, i);
        uri[i] := 0;
        break;
      }
      i := i + 1;
    }
    IndexIs(s, 63, i);
    assert forall j | 0 <= j < i :: uri[..][j] == s[j] != 0;
    assert i < URI_LIMIT ==> uri[..][i] == 0;
    IndexIs(uri[..], 0, i);
  }
}
