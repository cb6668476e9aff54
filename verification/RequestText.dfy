/** What a request line is: a declarative grammar, the numbers strtol reads, and a printer.

    A line is a verb, SP, a URI, SP, a version, CR LF. Token bytes are those from 33 to 126, tokens may be
    empty, and a URI has at most 1022 bytes. */
module RequestText {

  type byte = b: int | 0 <= b < 256

  const SP: byte := 32
  const CR: byte := 13
  const LF: byte := 10
  const BUFFSIZE := 8192
  const URI_LIMIT := 1024

  predicate IsVisible(c: byte) {
    33 <= c <= 126
  }

  predicate Visible(s: seq<byte>) {
    forall i | 0 <= i < |s| :: IsVisible(s[i])
  }

  datatype Tokens = Tokens(verb: seq<byte>, uri: seq<byte>, version: seq<byte>)

  function Line(k: Tokens): seq<byte> {
    k.verb + [SP] + k.uri + [SP] + k.version + [CR, LF]
  }

  predicate WellFormed(k: Tokens) {
    Visible(k.verb) && Visible(k.uri) && Visible(k.version) && |k.uri| <= URI_LIMIT - 2
  }

  predicate StartsWith(stream: seq<byte>, k: Tokens) {
    WellFormed(k) && Line(k) <= stream
  }

  ghost predicate HasLine(stream: seq<byte>) {
    exists k :: StartsWith(stream, k)
  }

  // p can still grow into a line.
  ghost predicate Viable(p: seq<byte>) {
    exists k :: Begins(p, k)
  }

  predicate Begins(p: seq<byte>, k: Tokens) {
    WellFormed(k) && p <= Line(k)
  }

  // p ends in a URI one byte longer than any line allows: the scan notices at the next byte only.
  ghost predicate OneTooLong(p: seq<byte>) {
    exists m, u :: IsTooLong(p, m, u)
  }

  predicate IsTooLong(p: seq<byte>, m: seq<byte>, u: seq<byte>) {
    p == m + [SP] + u && Visible(m) && Visible(u) && |u| == URI_LIMIT - 1
  }

  ghost predicate Pending(p: seq<byte>) {
    Viable(p) || OneTooLong(p)
  }

  // A token that runs into a byte that is no token byte is told apart from every other one.
  lemma SameToken(t: seq<byte>, x: byte, u: seq<byte>, y: byte, rest: seq<byte>)
    requires Visible(t) && Visible(u) && !IsVisible(x) && !IsVisible(y)
    requires t + [x] <= u + [y] + rest
    ensures t == u && x == y
  {
    var n := if |t| < |u| then |t| else |u|;
    assert (t + [x])[n] == (u + [y] + rest)[n];
    assert forall i | 0 <= i < n :: t[i] == (t + [x])[i] == (u + [y] + rest)[i] == u[i];
  }

  // What follows the first SP of a line.
  lemma AfterVerb(m: seq<byte>, rest: seq<byte>, k: Tokens)
    requires Visible(m) && WellFormed(k) && m + [SP] + rest <= Line(k)
    ensures k.verb == m && rest <= k.uri + [SP] + k.version + [CR, LF]
  {
    var tail := k.uri + [SP] + k.version + [CR, LF];
    assert Line(k) == k.verb + [SP] + tail;
    assert m + [SP] <= m + [SP] + rest;
    SameToken(m, SP, k.verb, SP, tail);
    assert rest == (m + [SP] + rest)[|m| + 1..];
    assert tail == Line(k)[|m| + 1..];
  }

  lemma AfterUri(m: seq<byte>, u: seq<byte>, rest: seq<byte>, k: Tokens)
    requires Visible(m) && Visible(u) && WellFormed(k) && m + [SP] + u + [SP] + rest <= Line(k)
    ensures k.verb == m && k.uri == u && rest <= k.version + [CR, LF]
  {
    assert m + [SP] + u + [SP] + rest == m + [SP] + (u + [SP] + rest);
    AfterVerb(m, u + [SP] + rest, k);
    var tail := k.version + [CR, LF];
    assert k.uri + [SP] + k.version + [CR, LF] == k.uri + [SP] + tail;
    SameToken(u, SP, k.uri, SP, tail);
    assert rest == (u + [SP] + rest)[|u| + 1..];
    assert tail == (k.uri + [SP] + tail)[|u| + 1..];
  }

  lemma AfterVersion(m: seq<byte>, u: seq<byte>, v: seq<byte>, rest: seq<byte>, k: Tokens)
    requires Visible(m) && Visible(u) && Visible(v) && WellFormed(k)
    requires m + [SP] + u + [SP] + v + [CR] + rest <= Line(k)
    ensures k == Tokens(m, u, v) && |rest| <= 1 && (rest != [] ==> rest[0] == LF)
  {
    assert m + [SP] + u + [SP] + v + [CR] + rest == m + [SP] + u + [SP] + (v + [CR] + rest);
    AfterUri(m, u, v + [CR] + rest, k);
    assert k.version + [CR, LF] == k.version + [CR] + [LF];
    assert v + [CR] <= v + [CR] + rest;
    SameToken(v, CR, k.version, CR, [LF]);
    assert rest == (v + [CR] + rest)[|v| + 1..];
    assert [LF] == (k.version + [CR] + [LF])[|v| + 1..];
    assert rest <= [LF];
  }

  // What follows the first SP when the URI has run one byte too long.
  lemma LongUri(m: seq<byte>, rest: seq<byte>)
    requires Visible(m) && OneTooLong(m + [SP] + rest)
    ensures Visible(rest) && |rest| == URI_LIMIT - 1
  {
    var n, v :| IsTooLong(m + [SP] + rest, n, v);
    assert n + [SP] <= m + [SP] + rest;
    SameToken(n, SP, m, SP, rest);
    assert v == (m + [SP] + rest)[|m| + 1..] == rest;
  }

  lemma NoSpace(u: seq<byte>, rest: seq<byte>)
    ensures !Visible(u + [SP] + rest)
  {
    assert (u + [SP] + rest)[|u|] == SP;
  }

  // No line is a proper prefix of another, so a stream starts with at most one.
  lemma LineIsUnique(stream: seq<byte>, j: Tokens, k: Tokens)
    requires StartsWith(stream, j) && StartsWith(stream, k)
    ensures j == k
    decreases |Line(k)| < |Line(j)|
  {
    if |Line(k)| < |Line(j)| {
      LineIsUnique(stream, k, j);
    } else {
      assert Line(j) <= Line(k);
      assert Line(j) == j.verb + [SP] + j.uri + [SP] + j.version + [CR] + [LF];
      AfterVersion(j.verb, j.uri, j.version, [LF], k);
    }
  }

  /* ---- The four ways to be refused. ---- */

  lemma BadInVerb(m: seq<byte>, c: byte)
    requires Visible(m) && !IsVisible(c) && c != SP
    ensures !Pending(m + [c])
  {
    forall k | Begins(m + [c], k) ensures false {
      var tail := k.uri + [SP] + k.version + [CR, LF];
      assert Line(k) == k.verb + [SP] + tail;
      SameToken(m, c, k.verb, SP, tail);
    }
    forall n, u | IsTooLong(m + [c], n, u) ensures false {
      assert n + [SP] <= m + [c] + [] == m + [c];
      SameToken(n, SP, m, c, []);
    }
  }

  // Either the byte cannot stand in a URI, or the URI is already as long as the buffer.
  lemma BadInUri(m: seq<byte>, u: seq<byte>, c: byte)
    requires Visible(m) && Visible(u)
    requires |u| == URI_LIMIT - 1 || (|u| < URI_LIMIT - 1 && !IsVisible(c) && c != SP)
    ensures !Pending(m + [SP] + (u + [c]))
  {
    forall k | Begins(m + [SP] + (u + [c]), k) ensures false {
      AfterVerb(m, u + [c], k);
      BadUriToken(u, c, k);
    }
    if OneTooLong(m + [SP] + (u + [c])) {
      LongUri(m, u + [c]);
      LastIsVisible(u, c);
    }
  }

  lemma LastIsVisible(u: seq<byte>, c: byte)
    requires Visible(u + [c])
    ensures IsVisible(c)
  {
    assert (u + [c])[|u|] == c;
  }

  lemma BadUriToken(u: seq<byte>, c: byte, k: Tokens)
    requires Visible(u) && WellFormed(k)
    requires |u| == URI_LIMIT - 1 || (|u| < URI_LIMIT - 1 && !IsVisible(c) && c != SP)
    ensures !(u + [c] <= k.uri + [SP] + k.version + [CR, LF])
  {
    var tail := k.version + [CR, LF];
    assert k.uri + [SP] + k.version + [CR, LF] == k.uri + [SP] + tail;
    assert (k.uri + [SP] + tail)[|k.uri|] == SP;
    assert |k.uri| < |u| ==> (u + [c])[|k.uri|] == u[|k.uri|];
    if u + [c] <= k.uri + [SP] + tail && |u| <= |k.uri| {
      SameToken(u, c, k.uri, SP, tail);
    }
  }

  lemma BadInVersion(m: seq<byte>, u: seq<byte>, v: seq<byte>, c: byte)
    requires Visible(m) && Visible(u) && Visible(v) && !IsVisible(c) && c != CR
    ensures !Pending(m + [SP] + u + [SP] + (v + [c]))
  {
    forall k | Begins(m + [SP] + u + [SP] + (v + [c]), k) ensures false {
      AfterUri(m, u, v + [c], k);
      assert k.version + [CR, LF] == k.version + [CR] + [LF];
      SameToken(v, c, k.version, CR, [LF]);
    }
    NotOneTooLong(m, u, v + [c]);
  }

  lemma BadAtEnd(m: seq<byte>, u: seq<byte>, v: seq<byte>, c: byte)
    requires Visible(m) && Visible(u) && Visible(v) && c != LF
    ensures !Pending(m + [SP] + u + [SP] + v + [CR] + [c])
  {
    forall k | Begins(m + [SP] + u + [SP] + v + [CR] + [c], k) ensures false {
      AfterVersion(m, u, v, [c], k);
    }
    assert m + [SP] + u + [SP] + v + [CR] + [c] == m + [SP] + u + [SP] + (v + [CR] + [c]);
    NotOneTooLong(m, u, v + [CR] + [c]);
  }

  lemma NotOneTooLong(m: seq<byte>, u: seq<byte>, rest: seq<byte>)
    requires Visible(m)
    ensures !OneTooLong(m + [SP] + u + [SP] + rest)
  {
    assert m + [SP] + u + [SP] + rest == m + [SP] + (u + [SP] + rest);
    if OneTooLong(m + [SP] + (u + [SP] + rest)) {
      LongUri(m, u + [SP] + rest);
      NoSpace(u, rest);
    }
  }

  lemma LongUriInNoLine(u: seq<byte>, k: Tokens)
    requires Visible(u) && |u| == URI_LIMIT - 1 && WellFormed(k)
    ensures !(u <= k.uri + [SP] + k.version + [CR, LF])
  {
    assert (k.uri + [SP] + k.version + [CR, LF])[|k.uri|] == SP && IsVisible(u[|k.uri|]);
  }

  // Every other refusal comes at the first byte that rules a line out; a URI of 1023 bytes has ruled it out
  // already, and is refused at the byte behind it, whichever that is.
  lemma NoticedOneByteLate(p: seq<byte>, c: byte)
    requires OneTooLong(p)
    ensures !Viable(p) && !Pending(p + [c])
  {
    var m, u :| IsTooLong(p, m, u);
    BadInUri(m, u, c);
    assert p + [c] == m + [SP] + (u + [c]);
    forall k | Begins(m + [SP] + u, k) ensures false {
      AfterVerb(m, u, k);
      LongUriInNoLine(u, k);
    }
  }

  lemma UriIsViable(m: seq<byte>, u: seq<byte>)
    requires Visible(m) && Visible(u) && |u| <= URI_LIMIT - 2
    ensures Viable(m + [SP] + u)
  {
    var k := Tokens(m, u, []);
    assert Line(k) == m + [SP] + u + ([SP] + k.version + [CR, LF]);
    assert Begins(m + [SP] + u, k);
  }

  lemma ViablePrefix(p: seq<byte>, q: seq<byte>)
    requires p <= q && Viable(q)
    ensures Viable(p)
  {
    var k :| Begins(q, k);
    assert Begins(p, k);
  }

  // What can still be scanned could be scanned all the way.
  lemma PendingPrefix(p: seq<byte>, q: seq<byte>)
    requires p <= q && Pending(q)
    ensures Pending(p)
  {
    if Viable(q) {
      ViablePrefix(p, q);
    } else if p != q {
      var m, u :| IsTooLong(q, m, u);
      UriIsViable(m, u[..|u| - 1]);
      assert q[..|q| - 1] == m + [SP] + u[..|u| - 1];
      ViablePrefix(p, q[..|q| - 1]);
    }
  }

  // The byte on which the scan gives up is the first that rules a line out, except behind a URI of 1023 bytes.
  lemma FirstRefusal(stream: seq<byte>, n: nat)
    requires 0 < n <= |stream| && Pending(stream[..n - 1]) && !Pending(stream[..n])
    ensures Viable(stream[..n - 1]) && !Viable(stream[..n]) <==> !OneTooLong(stream[..n - 1])
  {
    if OneTooLong(stream[..n - 1]) {
      NoticedOneByteLate(stream[..n - 1], stream[n - 1]);
    }
  }

  /* ---- Numbers, as strtol and the conversion to int read them. ---- */

  predicate IsDigit(c: byte) {
    48 <= c <= 57
  }

  function LeadingDigits(s: seq<byte>): seq<byte> {
    if s == [] || !IsDigit(s[0]) then [] else [s[0]] + LeadingDigits(s[1..])
  }

  function Value(digits: seq<byte>): int {
    if digits == [] then 0 else 10 * Value(digits[..|digits| - 1]) + digits[|digits| - 1] - 48
  }

  const LONG_MAX := 0x7fff_ffff_ffff_ffff
  const INT_MAX := 0x7fff_ffff

  // strtol(s, NULL, 10) on a 64-bit long, for text without leading white space.
  function StrToL(s: seq<byte>): int {
    var signed := s != [] && (s[0] == 45 || s[0] == 43);
    var v := Value(LeadingDigits(if signed then s[1..] else s));
    if signed && s[0] == 45 then (if v > LONG_MAX + 1 then -LONG_MAX - 1 else -v)
    else (if v > LONG_MAX then LONG_MAX else v)
  }

  // Conversion of a long to a 32-bit int.
  function ToInt(x: int): int {
    (x + INT_MAX + 1) % 0x1_0000_0000 - INT_MAX - 1
  }

  function IndexOf(s: seq<byte>, c: byte): (i: nat)
    ensures i <= |s| && c !in s[..i] && (i < |s| ==> s[i] == c)
  {
    if s == [] || s[0] == c then 0 else 1 + IndexOf(s[1..], c)
  }

  lemma {:induction false} IndexIs(s: seq<byte>, c: byte, i: nat)
    requires i <= |s| && (forall j | 0 <= j < i :: s[j] != c) && (i < |s| ==> s[i] == c)
    ensures IndexOf(s, c) == i
  {
    if i > 0 {
      IndexIs(s[1..], c, i - 1);
    }
  }

  // The numbers on the two sides of the first dot; -1 stands for none.
  function NumbersOf(s: seq<byte>): (int, int) {
    var dot := IndexOf(s, 46);
    if dot == |s| then (-1, -1)
    else
      var major := ToInt(StrToL(s[..dot]));
      (major, if dot + 1 < |s| && major != -1 then ToInt(StrToL(s[dot + 1..])) else -1)
  }

  function AfterSlash(t: seq<byte>): seq<byte> {
    var slash := IndexOf(t, 47);
    if slash < |t| then t[slash + 1..] else []
  }

  // The major and minor number of a version token: those after its first slash.
  function VersionOf(t: seq<byte>): (int, int) {
    NumbersOf(AfterSlash(t))
  }

  datatype Verb = GET | POST | OTHER

  function Lower(c: byte): byte {
    if 65 <= c <= 90 then c + 32 else c
  }

  // parse_method looks at the first three bytes of the buffer, whatever the length of the token.
  function VerbOf(buff: seq<byte>): Verb
    requires |buff| >= 3
  {
    if buff[0] == 71 && Lower(buff[1]) == 101 && Lower(buff[2]) == 116 then GET
    else if buff[0] == 80 && Lower(buff[1]) == 111 && Lower(buff[2]) == 115 then POST
    else OTHER
  }

  // The verb of a token written into a zeroed buffer.
  function FreshVerb(token: seq<byte>): Verb {
    if |token| >= 3 then VerbOf(token) else OTHER
  }

  const STATISTICS: seq<byte> := [115, 116, 97, 116, 105, 115, 116, 105, 99, 115]

  // strcasecmp(a, b) == 0 for C strings.
  predicate SameIgnoringCase(a: seq<byte>, b: seq<byte>) {
    |a| == |b| && forall i | 0 <= i < |a| :: Lower(a[i]) == Lower(b[i])
  }

  predicate AsksStatistics(uri: seq<byte>) {
    uri != [] && SameIgnoringCase(STATISTICS, uri[1..])
  }

  /* ---- The printer, and what reading its lines gives back. ---- */

  function Dec(n: nat): seq<byte> {
    if n < 10 then [48 + n] else Dec(n / 10) + [48 + n % 10]
  }

  const GET_TOKEN: seq<byte> := [71, 69, 84]
  const HTTP_SLASH: seq<byte> := [72, 84, 84, 80, 47]

  function VersionToken(major: nat, minor: nat): seq<byte> {
    HTTP_SLASH + Dec(major) + [46] + Dec(minor)
  }

  function GetRequest(uri: seq<byte>, major: nat, minor: nat): Tokens {
    Tokens(GET_TOKEN, uri, VersionToken(major, minor))
  }

  lemma {:induction false} DecReadsBack(n: nat)
    ensures Dec(n) != [] && (forall i | 0 <= i < |Dec(n)| :: IsDigit(Dec(n)[i])) && Value(Dec(n)) == n
  {
    if n >= 10 {
      DecReadsBack(n / 10);
      assert Dec(n)[..|Dec(n)| - 1] == Dec(n / 10);
    }
  }

  lemma {:induction false} AllDigitsLead(s: seq<byte>)
    requires forall i | 0 <= i < |s| :: IsDigit(s[i])
    ensures LeadingDigits(s) == s
  {
    if s != [] {
      AllDigitsLead(s[1..]);
    }
  }

  lemma NumberReadsBack(n: nat)
    requires n <= INT_MAX
    ensures ToInt(StrToL(Dec(n))) == n
  {
    DecReadsBack(n);
    AllDigitsLead(Dec(n));
  }

  lemma VersionReadsBack(major: nat, minor: nat)
    requires major <= INT_MAX && minor <= INT_MAX
    ensures VersionOf(VersionToken(major, minor)) == (major, minor)
  {
    var t := VersionToken(major, minor);
    var rest := Dec(major) + [46] + Dec(minor);
    DecReadsBack(major);
    DecReadsBack(minor);
    assert t == HTTP_SLASH + rest;
    assert t[0] == 72 && t[1] == 84 && t[2] == 84 && t[3] == 80 && t[4] == 47;
    IndexIs(t, 47, 4);
    assert t[5..] == rest;
    assert rest[..|Dec(major)|] == Dec(major);
    assert forall i | 0 <= i < |Dec(major)| :: rest[i] == Dec(major)[i];
    assert rest[|Dec(major)|] == 46;
    IndexIs(rest, 46, |Dec(major)|);
    assert rest[|Dec(major)| + 1..] == Dec(minor);
    NumberReadsBack(major);
    NumberReadsBack(minor);
  }

  function TenTo(places: nat): nat {
    if places == 0 then 1 else 10 * TenTo(places - 1)
  }

  lemma {:induction false} DecIsShort(n: nat, places: nat)
    requires places > 0 && n < TenTo(places)
    ensures |Dec(n)| <= places
  {
    if n >= 10 {
      DecIsShort(n / 10, places - 1);
    }
  }

  lemma PrintedIsWellFormed(uri: seq<byte>, major: nat, minor: nat)
    requires Visible(uri) && |uri| <= URI_LIMIT - 2
    ensures WellFormed(GetRequest(uri, major, minor))
  {
    DecReadsBack(major);
    DecReadsBack(minor);
    assert Visible(Dec(major)) && Visible(Dec(minor)) && Visible(HTTP_SLASH);
  }

  // Printing a GET request and reading the line gives the verb, the URI and both numbers back.
  lemma PrintedRequestReadsBack(uri: seq<byte>, major: nat, minor: nat, rest: seq<byte>, k: Tokens)
    requires Visible(uri) && |uri| <= URI_LIMIT - 2 && major <= INT_MAX && minor <= INT_MAX
    ensures StartsWith(Line(GetRequest(uri, major, minor)) + rest, k) <==> k == GetRequest(uri, major, minor)
    ensures VerbOf(GET_TOKEN) == GET
    ensures VersionOf(GetRequest(uri, major, minor).version) == (major, minor)
  {
    var g := GetRequest(uri, major, minor);
    VersionReadsBack(major, minor);
    PrintedIsWellFormed(uri, major, minor);
    assert Line(g) <= Line(g) + rest;
    assert StartsWith(Line(g) + rest, g);
    if StartsWith(Line(g) + rest, k) {
      LineIsUnique(Line(g) + rest, g, k);
    }
  }

  /* ---- What the buffers must hold. ---- */

  // parse_version ends the number it reads last with a NUL behind the token, unless no digit can be left there.
  predicate WritesBehind(version: seq<byte>) {
    !ReadsToTheEnd(AfterSlash(version))
  }

  // Behind the slash there is nothing, or nothing behind its dot.
  predicate ReadsToTheEnd(numbers: seq<byte>) {
    numbers == [] || IndexOf(numbers, 46) + 1 == |numbers|
  }

  // The version token fits the receive buffer, and so does what parse_version writes behind it.
  predicate EndFits(version: seq<byte>) {
    |version| < BUFFSIZE || (|version| == BUFFSIZE && !WritesBehind(version))
  }

  // The stream starts with these tokens, the last of which may go on.
  predicate ReachesVersion(s: seq<byte>, m: seq<byte>, u: seq<byte>, v: seq<byte>) {
    Visible(m) && Visible(u) && |u| <= URI_LIMIT - 2 && Visible(v) && m + [SP] + u + [SP] + v <= s
  }

  predicate EndsVersion(s: seq<byte>, m: seq<byte>, u: seq<byte>, v: seq<byte>) {
    ReachesVersion(s, m, u, v) && m + [SP] + u + [SP] + v + [CR] <= s
  }

  predicate BeginsVerb(s: seq<byte>, m: seq<byte>) {
    Visible(m) && m <= s
  }

  // No verb and no version token that the stream begins is longer than the receive buffer, and one that ends
  // leaves parse_version the room it needs.
  ghost predicate Fits(s: seq<byte>) {
    && (forall m | BeginsVerb(s, m) :: |m| <= BUFFSIZE)
    && (forall m, u, v | ReachesVersion(s, m, u, v) :: |v| <= BUFFSIZE)
    && (forall m, u, v | EndsVersion(s, m, u, v) :: EndFits(v))
  }

  // What follows the first SP of a stream.
  lemma BehindVerb(m: seq<byte>, tail: seq<byte>, n: seq<byte>, rest: seq<byte>)
    requires Visible(m) && Visible(n) && n + [SP] + rest <= m + [SP] + tail
    ensures n == m && rest <= tail
  {
    assert n + [SP] <= n + [SP] + rest;
    SameToken(n, SP, m, SP, tail);
    assert rest == (n + [SP] + rest)[|n| + 1..];
    assert tail == (m + [SP] + tail)[|n| + 1..];
  }

  // A token that runs into the end of the text, or into a byte that is no token byte.
  predicate RunsOut(t: seq<byte>, text: seq<byte>) {
    Visible(t) && t <= text && (|t| < |text| ==> !IsVisible(text[|t|]))
  }

  lemma LongestToken(t: seq<byte>, text: seq<byte>, u: seq<byte>)
    requires RunsOut(t, text) && Visible(u) && u <= text
    ensures |u| <= |t|
  {
    assert forall i | 0 <= i < |u| :: text[i] == u[i];
  }

  lemma TokenThenByte(t: seq<byte>, text: seq<byte>, u: seq<byte>, c: byte, rest: seq<byte>)
    requires RunsOut(t, text) && Visible(u) && !IsVisible(c) && u + [c] + rest <= text
    ensures u == t && |t| < |text| && text[|t|] == c
  {
    assert u <= u + [c] + rest && (u + [c] + rest)[|u|] == c;
    LongestToken(t, text, u);
    assert text[|u|] == c;
    assert forall i | 0 <= i < |t| :: text[i] == t[i];
  }
}
