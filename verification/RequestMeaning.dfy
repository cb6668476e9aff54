/** What a request line asks for, spelled out on its tokens: none of this says how a token is taken apart. */
module RequestMeaning {
  import opened RequestLine
  import opened RequestText

  // A letter in lower or in upper case; any other character as it is.
  predicate SameLetter(c: byte, letter: char) {
    c == letter as int || ('a' <= letter <= 'z' && c == letter as int - 32)
  }

  predicate Spells(t: seq<byte>, word: string) {
    |t| == |word| && forall i | 0 <= i < |t| :: SameLetter(t[i], word[i])
  }

  // The G is a capital one, and what follows the third byte does not matter.
  predicate IsGet(verb: seq<byte>) {
    |verb| >= 3 && verb[0] == 'G' as int && SameLetter(verb[1], 'e') && SameLetter(verb[2], 't')
  }

  // Only the first three letters are compared.
  predicate IsPost(verb: seq<byte>) {
    |verb| >= 3 && verb[0] == 'P' as int && SameLetter(verb[1], 'o') && SameLetter(verb[2], 's')
  }

  // front is the part of the text before the first c, or the whole text.
  predicate IsUpTo(front: seq<byte>, text: seq<byte>, c: byte) {
    front <= text && c !in front && (front == text || text[|front|] == c)
  }

  // p / major . rest, divided at the first slash and at the first dot behind it.
  predicate HasParts(version: seq<byte>, p: seq<byte>, major: seq<byte>, rest: seq<byte>) {
    version == p + [47] + major + [46] + rest && 47 !in p && 46 !in major
  }

  // The text between the slash and the dot is there, and is not read as -1.
  ghost predicate IsAccepted(version: seq<byte>) {
    exists p, major, rest :: HasParts(version, p, major, rest) && ToInt(StrToL(major)) != -1
  }

  predicate WantsStatistics(uri: seq<byte>) {
    uri != [] && Spells(uri[1..], "statistics")
  }

  predicate WantsScript(uri: seq<byte>) {
    |uri| > 5 && Spells(uri[1..5], "bash") && uri[5] == '/' as int
  }

  // There is something before the query.
  predicate HasPath(uri: seq<byte>) {
    uri != [] && uri[0] != '?' as int
  }

  /* ---- The program's own tests amount to these. ---- */

  lemma VerbIsGetExactly(buff: seq<byte>)
    requires |buff| >= 3
    ensures VerbOf(buff) == GET <==> IsGet(buff)
    ensures VerbOf(buff) == POST <==> IsPost(buff)
  {
  }

  lemma FreshVerbIsGetExactly(verb: seq<byte>)
    ensures FreshVerb(verb) == GET <==> IsGet(verb)
  {
  }

  lemma StatisticsExactly(uri: seq<byte>)
    ensures AsksStatistics(uri) <==> WantsStatistics(uri)
  {
    if uri != [] && |uri| == 11 {
      var t, word := uri[1..], "statistics";
      forall i | 0 <= i < 10 ensures Lower(STATISTICS[i]) == Lower(t[i]) <==> SameLetter(t[i], word[i]) {
        assert STATISTICS[i] == word[i] as int && 'a' <= word[i] <= 'z';
      }
    }
  }

  lemma UpToExactly(front: seq<byte>, text: seq<byte>, c: byte)
    ensures front == text[..IndexOf(text, c)] <==> IsUpTo(front, text, c)
  {
    var i := IndexOf(text, c);
    assert c !in text[..i];
    if IsUpTo(front, text, c) {
      assert forall j | 0 <= j < |front| :: text[j] == front[j];
      assert |front| == i;
    }
  }

  lemma PathExactly(front: seq<byte>, uri: seq<byte>)
    ensures BeforeQuery(uri) == front <==> IsUpTo(front, uri, 63)
    ensures BeforeQuery(uri) != [] <==> HasPath(uri)
  {
    UpToExactly(front, uri, 63);
  }

  // The numbers of a version that has the parts, and of one that has not.
  lemma VersionByParts(version: seq<byte>, p: seq<byte>, major: seq<byte>, rest: seq<byte>)
    requires HasParts(version, p, major, rest)
    ensures VersionOf(version) ==
            (ToInt(StrToL(major)),
             if rest != [] && ToInt(StrToL(major)) != -1 then ToInt(StrToL(rest)) else -1)
  {
    var numbers := major + [46] + rest;
    assert version == p + [47] + numbers;
    assert forall i | 0 <= i < |p| :: version[i] == p[i];
    IndexIs(version, 47, |p|);
    assert version[|p| + 1..] == numbers;
    NumbersByParts(numbers, major, rest);
  }

  lemma NumbersByParts(numbers: seq<byte>, major: seq<byte>, rest: seq<byte>)
    requires numbers == major + [46] + rest && 46 !in major
    ensures NumbersOf(numbers) ==
            (ToInt(StrToL(major)),
             if rest != [] && ToInt(StrToL(major)) != -1 then ToInt(StrToL(rest)) else -1)
  {
    assert forall i | 0 <= i < |major| :: numbers[i] == major[i];
    IndexIs(numbers, 46, |major|);
    assert numbers[..|major|] == major && numbers[|major| + 1..] == rest;
  }

  lemma SplitAt(text: seq<byte>, c: byte) returns (front: seq<byte>, back: seq<byte>)
    requires IndexOf(text, c) < |text|
    ensures text == front + [c] + back && c !in front
    ensures back == text[IndexOf(text, c) + 1..]
  {
    var i := IndexOf(text, c);
    front, back := text[..i], text[i + 1..];
  }

  lemma PartsAreThere(version: seq<byte>) returns (p: seq<byte>, major: seq<byte>, rest: seq<byte>)
    requires IndexOf(version, 47) < |version| && IndexOf(AfterSlash(version), 46) < |AfterSlash(version)|
    ensures HasParts(version, p, major, rest)
  {
    var numbers;
    p, numbers := SplitAt(version, 47);
    assert numbers == AfterSlash(version);
    major, rest := SplitAt(numbers, 46);
    PartsTogether(p, major, rest);
  }

  lemma PartsTogether(p: seq<byte>, major: seq<byte>, rest: seq<byte>)
    ensures p + [47] + (major + [46] + rest) == p + [47] + major + [46] + rest
  {
  }

  lemma NoDotNoNumbers(numbers: seq<byte>)
    requires IndexOf(numbers, 46) == |numbers|
    ensures NumbersOf(numbers) == (-1, -1)
  {
  }

  lemma VersionWithoutParts(version: seq<byte>)
    requires forall p, major, rest :: !HasParts(version, p, major, rest)
    ensures VersionOf(version) == (-1, -1)
  {
    var numbers := AfterSlash(version);
    if IndexOf(numbers, 46) < |numbers| {
      var p, major, rest := PartsAreThere(version);
    }
    NoDotNoNumbers(numbers);
  }

  lemma AcceptedExactly(version: seq<byte>)
    ensures VersionOf(version).0 != -1 <==> IsAccepted(version)
  {
    if p, major, rest :| HasParts(version, p, major, rest) {
      VersionByParts(version, p, major, rest);
      forall q, m, r | HasParts(version, q, m, r) ensures ToInt(StrToL(m)) == VersionOf(version).0 {
        VersionByParts(version, q, m, r);
      }
    } else {
      VersionWithoutParts(version);
    }
  }

  lemma {:induction false} DigitsLead(digits: seq<byte>, behind: seq<byte>)
    requires (forall i | 0 <= i < |digits| :: IsDigit(digits[i])) && (behind != [] ==> !IsDigit(behind[0]))
    ensures LeadingDigits(digits + behind) == digits
  {
    if digits == [] {
      assert digits + behind == behind;
    } else {
      assert (digits + behind)[1..] == digits[1..] + behind;
      DigitsLead(digits[1..], behind);
    }
  }

  /* ---- Any text as a number. ---- */

  // A sign or none, digits or none, and the rest.
  ghost predicate IsNumeral(text: seq<byte>, sign: seq<byte>, digits: seq<byte>, behind: seq<byte>) {
    && text == sign + digits + behind
    && (sign == [] || sign == [43] || sign == [45])
    && (forall i | 0 <= i < |digits| :: IsDigit(digits[i]))
    && (behind != [] ==> !IsDigit(behind[0]))
    && (sign == [] && text != [] ==> text[0] != 43 && text[0] != 45)
  }

  function Clamped(x: int): int {
    if x > LONG_MAX then LONG_MAX else if x < -LONG_MAX - 1 then -LONG_MAX - 1 else x
  }

  // Out of range the nearest long is read; without digits, zero.
  lemma NumeralIsRead(text: seq<byte>, sign: seq<byte>, digits: seq<byte>, behind: seq<byte>)
    requires IsNumeral(text, sign, digits, behind)
    ensures StrToL(text) == Clamped(if sign == [45] then -Value(digits) else Value(digits))
  {
    var back := digits + behind;
    assert text == sign + back;
    DigitsLead(digits, behind);
    ValueIsNatural(digits);
    if sign == [] {
      assert text == back;
    } else {
      assert text[1..] == back;
    }
  }

  lemma {:induction false} ValueIsNatural(digits: seq<byte>)
    requires forall i | 0 <= i < |digits| :: IsDigit(digits[i])
    ensures Value(digits) >= 0
  {
    if digits != [] {
      ValueIsNatural(digits[..|digits| - 1]);
    }
  }

  lemma NumeralIsThere(text: seq<byte>) returns (sign: seq<byte>, digits: seq<byte>, behind: seq<byte>)
    ensures IsNumeral(text, sign, digits, behind)
  {
    sign := if text != [] && (text[0] == 43 || text[0] == 45) then [text[0]] else [];
    var back := text[|sign|..];
    digits, behind := SplitDigits(back);
    assert text == sign + back;
  }

  lemma {:induction false} SplitDigits(text: seq<byte>) returns (digits: seq<byte>, behind: seq<byte>)
    ensures text == digits + behind && (forall i | 0 <= i < |digits| :: IsDigit(digits[i]))
    ensures behind != [] ==> !IsDigit(behind[0])
  {
    if text == [] || !IsDigit(text[0]) {
      return [], text;
    }
    digits, behind := SplitDigits(text[1..]);
    digits := [text[0]] + digits;
  }

  // The int is the one that differs from the long by a multiple of 2^32.
  lemma IntByWrap(x: int, r: int)
    ensures ToInt(x) == r <==> -INT_MAX - 1 <= r <= INT_MAX && (x - r) % 0x1_0000_0000 == 0
  {
    var y := x + INT_MAX + 1;
    assert y == 0x1_0000_0000 * (y / 0x1_0000_0000) + y % 0x1_0000_0000;
    assert x - ToInt(x) == 0x1_0000_0000 * (y / 0x1_0000_0000);
    if -INT_MAX - 1 <= r <= INT_MAX && (x - r) % 0x1_0000_0000 == 0 {
      var k := (x - r) / 0x1_0000_0000;
      assert x - r == 0x1_0000_0000 * k;
    }
  }
}
