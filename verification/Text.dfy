/** Go strings as the adoption files use them: a `string` here is a sequence of
    bytes, one `char` per byte, so a length is a byte count and white space outside
    ASCII appears as its UTF-8 encoding. */
module Text {

  import opened Basics

  // ---- white space: unicode.IsSpace on UTF-8 bytes ----

  predicate AsciiSpace(c: char) {
    '\t' <= c <= '\r' || c == ' '
  }

  /** U+0085 and U+00A0. */
  predicate TwoByteSpace(a: char, b: char) {
    a == '\U{C2}' && (b == '\U{85}' || b == '\U{A0}')
  }

  /** U+1680, U+2000..U+200A, U+2028, U+2029, U+202F, U+205F and U+3000. */
  predicate ThreeByteSpace(a: char, b: char, c: char) {
    || (a == '\U{E1}' && b == '\U{9A}' && c == '\U{80}')
    || (a == '\U{E2}' && b == '\U{80}' && ('\U{80}' <= c <= '\U{8A}' || c == '\U{A8}' || c == '\U{A9}' || c == '\U{AF}'))
    || (a == '\U{E2}' && b == '\U{81}' && c == '\U{9F}')
    || (a == '\U{E3}' && b == '\U{80}' && c == '\U{80}')
  }

  /** How many bytes of white space the text starts with, counting one rune. */
  function LeadingSpace(s: string): (n: nat)
    ensures n <= |s|
  {
    if |s| >= 1 && AsciiSpace(s[0]) then 1
    else if |s| >= 2 && TwoByteSpace(s[0], s[1]) then 2
    else if |s| >= 3 && ThreeByteSpace(s[0], s[1], s[2]) then 3
    else 0
  }

  /** How many bytes of white space the text ends with, counting one rune. */
  function TrailingSpace(s: string): (n: nat)
    ensures n <= |s|
  {
    var n := |s|;
    if n >= 1 && AsciiSpace(s[n - 1]) then 1
    else if n >= 2 && TwoByteSpace(s[n - 2], s[n - 1]) then 2
    else if n >= 3 && ThreeByteSpace(s[n - 3], s[n - 2], s[n - 1]) then 3
    else 0
  }

  function TrimLeft(s: string): (t: string)
    ensures |t| <= |s|
    ensures t == s <==> LeadingSpace(s) == 0
    decreases |s|
  {
    var n := LeadingSpace(s);
    if n == 0 then s else TrimLeft(s[n..])
  }

  function TrimRight(s: string): (t: string)
    ensures |t| <= |s|
    ensures t == s <==> TrailingSpace(s) == 0
    decreases |s|
  {
    var n := TrailingSpace(s);
    if n == 0 then s else TrimRight(s[..|s| - n])
  }

  function TrimSpace(s: string): (t: string)
    ensures t == s <==> LeadingSpace(s) == 0 && TrailingSpace(s) == 0
  {
    TrimRight(TrimLeft(s))
  }

  lemma {:induction false} TrimRightHolds(s: string)
    ensures TrimRight(s) <= s && TrailingSpace(TrimRight(s)) == 0
    decreases |s|
  {
    var n := TrailingSpace(s);
    if n != 0 {
      TrimRightHolds(s[..|s| - n]);
    }
  }

  lemma {:induction false} TrimLeftHolds(s: string)
    ensures LeadingSpace(TrimLeft(s)) == 0
    decreases |s|
  {
    hide TrailingSpace;
    var n := LeadingSpace(s);
    if n != 0 {
      TrimLeftHolds(s[n..]);
    }
  }

  lemma PrefixKeepsLeading(t: string, s: string)
    requires t <= s && LeadingSpace(s) == 0
    ensures LeadingSpace(t) == 0
  {
  }

  /** Trimming a trimmed text changes nothing. */
  lemma TrimTwice(s: string)
    ensures TrimSpace(TrimSpace(s)) == TrimSpace(s)
  {
    hide LeadingSpace, TrailingSpace;
    TrimLeftHolds(s);
    TrimRightHolds(TrimLeft(s));
    PrefixKeepsLeading(TrimSpace(s), TrimLeft(s));
  }

  /** White space from end to end, one rune after another. */
  ghost predicate Spaces(s: string)
    decreases |s|
  {
    s == "" || (LeadingSpace(s) > 0 && Spaces(s[LeadingSpace(s)..]))
  }

  lemma {:induction false} SpacesJoin(a: string, b: string)
    requires Spaces(a) && Spaces(b)
    ensures Spaces(a + b)
    decreases |a|
  {
    if a == "" {
      assert a + b == b;
    } else {
      var n := LeadingSpace(a);
      assert LeadingSpace(a + b) == n && (a + b)[n..] == a[n..] + b;
      SpacesJoin(a[n..], b);
    }
  }

  lemma Regroup(a: string, b: string, c: string)
    ensures a + (b + c) == a + b + c
  {
  }

  lemma CutAndRejoin(s: string, n: nat)
    requires n <= |s|
    ensures s == s[..n] + s[n..]
    ensures n < |s| ==> s == s[..n] + [s[n]] + s[n + 1..]
  {
  }

  lemma FirstRuneIsSpace(s: string)
    ensures Spaces(s[..LeadingSpace(s)])
  {
    var n := LeadingSpace(s);
    var first := s[..n];
    if n != 0 {
      assert LeadingSpace(first) == n;
      assert first[n..] == "";
    }
  }

  lemma {:induction false} LeadingPart(s: string) returns (before: string)
    ensures s == before + TrimLeft(s) && Spaces(before)
    decreases |s|
  {
    var n := LeadingSpace(s);
    if n == 0 {
      before := "";
    } else {
      var head, tail := s[..n], s[n..];
      var rest := LeadingPart(tail);
      FirstRuneIsSpace(s);
      assert TrimLeft(s) == TrimLeft(tail);
      hide LeadingSpace, Spaces, TrimLeft;
      before := head + rest;
      CutAndRejoin(s, n);
      Regroup(head, rest, TrimLeft(tail));
      SpacesJoin(head, rest);
    }
  }

  lemma LastRuneIsSpace(s: string)
    ensures Spaces(s[|s| - TrailingSpace(s)..])
  {
    var n := TrailingSpace(s);
    var last := s[|s| - n..];
    if n != 0 {
      assert LeadingSpace(last) == n;
      assert last[n..] == "";
    }
  }

  lemma {:induction false} TrailingPart(s: string) returns (after: string)
    ensures s == TrimRight(s) + after && Spaces(after)
    decreases |s|
  {
    var n := TrailingSpace(s);
    if n == 0 {
      after := "";
    } else {
      var head, last := s[..|s| - n], s[|s| - n..];
      var rest := TrailingPart(head);
      LastRuneIsSpace(s);
      assert TrimRight(s) == TrimRight(head);
      hide LeadingSpace, TrailingSpace, Spaces, TrimRight;
      after := rest + last;
      CutAndRejoin(s, |s| - n);
      Regroup(TrimRight(head), rest, last);
      SpacesJoin(rest, last);
    }
  }

  /** Trimming takes white space off both ends, all of it and nothing else. */
  lemma TrimSpaceIs(s: string) returns (before: string, after: string)
    ensures s == before + TrimSpace(s) + after && Spaces(before) && Spaces(after)
    ensures LeadingSpace(TrimSpace(s)) == 0 && TrailingSpace(TrimSpace(s)) == 0
  {
    before := LeadingPart(s);
    after := TrailingPart(TrimLeft(s));
    assert s == before + TrimSpace(s) + after;
    TrimTwice(s);
  }

  lemma {:induction false} SpacesTrimAway(s: string)
    requires Spaces(s)
    ensures TrimSpace(s) == ""
    decreases |s|
  {
    if s != "" {
      SpacesTrimAway(s[LeadingSpace(s)..]);
    }
  }

  /** Exactly the texts of white space trim to nothing. */
  lemma BlankIffSpaces(s: string)
    ensures TrimSpace(s) == "" <==> Spaces(s)
  {
    var before, after := TrimSpaceIs(s);
    SpacesJoin(before, after);
    hide LeadingSpace, TrailingSpace, TrimLeft, TrimRight, Spaces;
    if Spaces(s) {
      SpacesTrimAway(s);
    }
    if TrimSpace(s) == "" {
      assert before + "" + after == before + after;
    }
  }

  // ---- splitting ----

  /** Index of the first c in s, or |s| when there is none. */
  function IndexOf(s: string, c: char): (i: nat)
    ensures i <= |s|
    ensures i < |s| ==> s[i] == c
    ensures forall j :: 0 <= j < i ==> s[j] != c
  {
    if s == "" || s[0] == c then 0 else 1 + IndexOf(s[1..], c)
  }

  function Split(s: string, sep: char): (parts: seq<string>)
    ensures parts != []
    ensures forall p <- parts :: |p| <= |s| && sep !in p
    decreases |s|
  {
    var i := IndexOf(s, sep);
    if i == |s| then [s] else [s[..i]] + Split(s[i + 1..], sep)
  }

  /** The first line of a text whose first line is known comes off whole. */
  lemma SplitLine(line: string, rest: string, sep: char)
    requires sep !in line
    ensures Split(line + [sep] + rest, sep) == [line] + Split(rest, sep)
  {
    var s := line + [sep] + rest;
    var i := IndexOf(s, sep);
    assert s[|line|] == sep && forall j :: 0 <= j < |line| ==> s[j] == line[j];
    assert i == |line|;
    assert s[..i] == line && s[i + 1..] == rest;
  }

  /** Parts with the separator between them. */
  function Joined(parts: seq<string>, sep: char): string {
    if parts == [] then "" else if |parts| == 1 then parts[0] else parts[0] + [sep] + Joined(parts[1..], sep)
  }

  lemma JoinedStep(first: string, rest: seq<string>, sep: char)
    requires rest != []
    ensures Joined([first] + rest, sep) == first + [sep] + Joined(rest, sep)
  {
    assert ([first] + rest)[1..] == rest;
  }

  lemma SplitStep(s: string, sep: char)
    requires IndexOf(s, sep) < |s|
    ensures Split(s, sep) == [s[..IndexOf(s, sep)]] + Split(s[IndexOf(s, sep) + 1..], sep)
  {
    hide IndexOf;
  }

  /** Splitting cuts at every separator and loses nothing. */
  lemma {:induction false} SplitJoins(s: string, sep: char)
    ensures Joined(Split(s, sep), sep) == s
    decreases |s|
  {
    hide IndexOf;
    var i := IndexOf(s, sep);
    if i < |s| {
      var first, rest := s[..i], s[i + 1..];
      SplitJoins(rest, sep);
      SplitStep(s, sep);
      hide Split;
      JoinedStep(first, Split(rest, sep), sep);
      hide Joined;
      CutAndRejoin(s, i);
    }
  }

  lemma {:induction false} SplitLoneLine(line: string, sep: char)
    requires sep !in line
    ensures Split(line, sep) == [line]
  {
    assert IndexOf(line, sep) == |line|;
  }

  /** The other way: parts without the separator come back from their joined text. */
  lemma {:induction false} JoinedSplits(parts: seq<string>, sep: char)
    requires parts != [] && forall p <- parts :: sep !in p
    ensures Split(Joined(parts, sep), sep) == parts
  {
    assert parts[0] in parts;
    if |parts| == 1 {
      SplitLoneLine(parts[0], sep);
    } else {
      JoinedSplits(parts[1..], sep);
      SplitLine(parts[0], Joined(parts[1..], sep), sep);
    }
  }

  // ---- hexadecimal ----

  function HexValue(c: char): (v: int)
    ensures -1 <= v < 16
  {
    if '0' <= c <= '9' then c as int - '0' as int
    else if 'a' <= c <= 'f' then c as int - 'a' as int + 10
    else if 'A' <= c <= 'F' then c as int - 'A' as int + 10
    else -1
  }

  /** hex.DecodeString: pairs of digits of either case, nothing else. */
  function HexDecode(s: string): (r: Option<string>)
    ensures r.Some? ==> |s| == 2 * |r.value|
  {
    if s == "" then Some("")
    else if |s| == 1 then None
    else
      var high, low := HexValue(s[0]), HexValue(s[1]);
      var tail := HexDecode(s[2..]);
      if high < 0 || low < 0 || tail.None? then None
      else Some([(16 * high + low) as char] + tail.value)
  }

  lemma {:induction false} HexIsPrintable(s: string)
    requires HexDecode(s).Some?
    ensures forall c <- s :: HexValue(c) >= 0
    decreases |s|
  {
    if |s| >= 2 {
      HexIsPrintable(s[2..]);
      assert s == [s[0], s[1]] + s[2..];
    }
  }

  const HEX_DIGITS := "0123456789abcdef"

  function HexByte(c: char): string {
    [HEX_DIGITS[c as int / 16 % 16], HEX_DIGITS[c as int % 16]]
  }

  function HexEncode(bytes: string): string {
    if bytes == "" then "" else HexByte(bytes[0]) + HexEncode(bytes[1..])
  }

  lemma HexDigitValue(n: nat)
    requires n < 16
    ensures HexValue(HEX_DIGITS[n]) == n
  {
    if n < 8 {
      assert HexValue(HEX_DIGITS[n]) == n;
    }
  }

  lemma HexByteValues(c: char)
    requires c as int < 256
    ensures |HexByte(c)| == 2 && HexValue(HexByte(c)[0]) == c as int / 16 && HexValue(HexByte(c)[1]) == c as int % 16
  {
    var high, low := c as int / 16, c as int % 16;
    assert high < 16 && high % 16 == high;
    HexDigitValue(high);
    HexDigitValue(low);
    hide HexValue, HEX_DIGITS;
  }

  lemma HexPair(c: char, tail: string)
    requires c as int < 256
    ensures HexDecode(HexByte(c) + tail) == if HexDecode(tail).None? then None else Some([c] + HexDecode(tail).value)
  {
    HexByteValues(c);
    hide HexValue, HexByte;
    var s := HexByte(c) + tail;
    assert s[0] == HexByte(c)[0] && s[1] == HexByte(c)[1] && s[2..] == tail;
    assert (16 * (c as int / 16) + c as int % 16) as char == c;
  }

  /** Decoding inverts encoding for all bytes. */
  lemma {:induction false} HexDecodeInvertsEncode(bytes: string)
    requires forall c <- bytes :: c as int < 256
    ensures HexDecode(HexEncode(bytes)) == Some(bytes)
  {
    if bytes != "" {
      assert bytes[0] in bytes && forall c <- bytes[1..] :: c in bytes;
      HexDecodeInvertsEncode(bytes[1..]);
      HexPair(bytes[0], HexEncode(bytes[1..]));
      hide HexDecode, HexByte;
      assert [bytes[0]] + bytes[1..] == bytes;
    }
  }

  /** What decodes is exactly an even number of digits, of either case. */
  lemma {:induction false} HexDecodesIff(s: string)
    ensures HexDecode(s).Some? <==> |s| % 2 == 0 && forall i :: 0 <= i < |s| ==> '0' <= s[i] <= '9' || 'a' <= s[i] <= 'f' || 'A' <= s[i] <= 'F'
    decreases |s|
  {
    if |s| >= 2 {
      HexDecodesIff(s[2..]);
      assert forall i :: 2 <= i < |s| ==> s[i] == s[2..][i - 2];
      assert forall i :: 0 <= i < |s| - 2 ==> s[2..][i] == s[i + 2];
    }
  }
}
