/** Texts as sequences of runes: white space, case and the comparison keys made of them. */
module Runes {

  /** unicode.IsSpace. */
  predicate IsSpace(c: char) {
    || '\t' <= c <= '\r' || c == ' ' || c == '\U{85}' || c == '\U{A0}' || c == '\U{1680}'
    || '\U{2000}' <= c <= '\U{200A}' || c == '\U{2028}' || c == '\U{2029}' || c == '\U{202F}'
    || c == '\U{205F}' || c == '\U{3000}'
  }

  function TrimSpace(s: string): (t: string)
    ensures |t| <= |s|
    decreases |s|
  {
    if s == "" then s
    else if IsSpace(s[0]) then TrimSpace(s[1..])
    else if IsSpace(s[|s| - 1]) then TrimSpace(s[..|s| - 1])
    else s
  }

  lemma {:induction false} TrimTwice(s: string)
    ensures TrimSpace(TrimSpace(s)) == TrimSpace(s)
    decreases |s|
  {
    if s != "" {
      if IsSpace(s[0]) {
        TrimTwice(s[1..]);
      } else if IsSpace(s[|s| - 1]) {
        TrimTwice(s[..|s| - 1]);
      }
    }
  }

  /** One text is another without so much white space at either end. */
  ghost predicate Inside(t: string, s: string, before: nat, after: nat) {
    && before + |t| + after == |s| && t == s[before..|s| - after]
    && forall i :: 0 <= i < before || |s| - after <= i < |s| ==> IsSpace(s[i])
  }

  lemma InsideTail(t: string, s: string, before: nat, after: nat)
    requires s != "" && IsSpace(s[0]) && Inside(t, s[1..], before, after)
    ensures Inside(t, s, before + 1, after)
  {
    hide IsSpace;
    assert forall i :: 1 <= i < |s| ==> s[i] == s[1..][i - 1];
    assert s[1..][before..|s| - 1 - after] == s[before + 1..|s| - after];
  }

  lemma InsideHead(t: string, s: string, before: nat, after: nat)
    requires s != "" && IsSpace(s[|s| - 1]) && Inside(t, s[..|s| - 1], before, after)
    ensures Inside(t, s, before, after + 1)
  {
    hide IsSpace;
    assert s[..|s| - 1][before..|s| - 1 - after] == s[before..|s| - 1 - after];
  }

  /** Trimming takes white space off both ends, all of it and nothing else. */
  lemma {:induction false} TrimSpaceIs(s: string) returns (before: nat, after: nat)
    ensures Inside(TrimSpace(s), s, before, after)
    ensures TrimSpace(s) != "" ==> !IsSpace(TrimSpace(s)[0]) && !IsSpace(TrimSpace(s)[|TrimSpace(s)| - 1])
    decreases |s|
  {
    hide IsSpace;
    if s != "" && IsSpace(s[0]) {
      before, after := TrimSpaceIs(s[1..]);
      hide Inside;
      InsideTail(TrimSpace(s[1..]), s, before, after);
      before := before + 1;
    } else if s != "" && IsSpace(s[|s| - 1]) {
      before, after := TrimSpaceIs(s[..|s| - 1]);
      hide Inside;
      InsideHead(TrimSpace(s[..|s| - 1]), s, before, after);
      after := after + 1;
    } else {
      before, after := 0, 0;
    }
  }

  /** strings.ToLower on ASCII letters; other letters keep their case. */
  function ToLower(s: string): (t: string)
    ensures |t| == |s|
    ensures forall i :: 0 <= i < |s| ==> t[i] == if 'A' <= s[i] <= 'Z' then s[i] + 32 as char else s[i]
  {
    if s == "" then "" else [if 'A' <= s[0] <= 'Z' then s[0] + 32 as char else s[0]] + ToLower(s[1..])
  }

  /** Names are compared trimmed and in lower case. */
  function Normal(s: string): string {
    ToLower(TrimSpace(s))
  }

  // ---- comparison keys ----

  lemma LowerKeepsSpace(s: string, i: nat)
    requires i < |s|
    ensures IsSpace(ToLower(s)[i]) == IsSpace(s[i])
  {
  }

  lemma {:induction false} TrimAndLowerCommute(s: string)
    ensures TrimSpace(ToLower(s)) == ToLower(TrimSpace(s))
    decreases |s|
  {
    hide IsSpace, ToLower;
    if s != "" {
      var t := ToLower(s);
      LowerKeepsSpace(s, 0);
      LowerKeepsSpace(s, |s| - 1);
      if IsSpace(s[0]) {
        assert t[1..] == ToLower(s[1..]);
        TrimAndLowerCommute(s[1..]);
      } else if IsSpace(s[|s| - 1]) {
        assert t[..|s| - 1] == ToLower(s[..|s| - 1]);
        TrimAndLowerCommute(s[..|s| - 1]);
      }
    }
  }

  /** A comparison key compares as itself, and trimming a name keeps its key. */
  lemma NormalTwice(s: string)
    ensures Normal(Normal(s)) == Normal(s) && Normal(TrimSpace(s)) == Normal(s)
  {
    hide TrimSpace;
    TrimTwice(s);
    TrimAndLowerCommute(TrimSpace(s));
    assert ToLower(ToLower(TrimSpace(s))) == ToLower(TrimSpace(s));
  }

  predicate HasPrefix(s: string, prefix: string) {
    |prefix| <= |s| && s[..|prefix|] == prefix
  }
}
