/** The order in which bridge members claim ports: uplink first, then virtual interfaces by
    kind and number, then the rest, whatever order a map is walked in. */
module MemberOrder {
  import opened Basics
  import opened Runes

  // ---- comparing texts ----

  /** Byte order of texts. */
  predicate TextBefore(a: string, b: string)
    decreases |a|
  {
    b != "" && (a == "" || a[0] < b[0] || (a[0] == b[0] && TextBefore(a[1..], b[1..])))
  }

  lemma {:induction false} TextsCompare(a: string, b: string)
    ensures !(TextBefore(a, b) && TextBefore(b, a))
    ensures TextBefore(a, b) || TextBefore(b, a) <==> a != b
    decreases |a|
  {
    if a != "" && b != "" {
      TextsCompare(a[1..], b[1..]);
      assert a == [a[0]] + a[1..] && b == [b[0]] + b[1..];
    }
  }

  lemma {:induction false} TextsChain(a: string, b: string, c: string)
    requires TextBefore(a, b) && TextBefore(b, c)
    ensures TextBefore(a, c)
    decreases |a|
  {
    if a != "" && a[0] == b[0] && b[0] == c[0] {
      TextsChain(a[1..], b[1..], c[1..]);
    }
  }

  // ---- sort keys ----

  datatype Key = Key(rank: int, number: int, name: string)

  predicate KeyBefore(a: Key, b: Key) {
    if a.rank != b.rank then a.rank < b.rank
    else if a.number != b.number then a.number < b.number
    else TextBefore(a.name, b.name)
  }

  lemma KeysCompare(a: Key, b: Key)
    ensures !(KeyBefore(a, b) && KeyBefore(b, a))
    ensures KeyBefore(a, b) || KeyBefore(b, a) <==> a != b
  {
    TextsCompare(a.name, b.name);
  }

  lemma KeysChain(a: Key, b: Key, c: Key)
    requires KeyBefore(a, b) && KeyBefore(b, c)
    ensures KeyBefore(a, c)
  {
    if a.rank == b.rank == c.rank && a.number == b.number == c.number {
      TextsChain(a.name, b.name, c.name);
    }
  }

  predicate IsDigit(c: char) {
    '0' <= c <= '9'
  }

  /** The run of digits a text starts with. */
  function Digits(s: string): string {
    if s == "" || !IsDigit(s[0]) then "" else [s[0]] + Digits(s[1..])
  }

  function Decimal(digits: string): nat
    requires forall c <- digits :: IsDigit(c)
  {
    if digits == "" then 0
    else
      var last := digits[|digits| - 1];
      assert IsDigit(last);
      10 * Decimal(digits[..|digits| - 1]) + (last as int - '0' as int)
  }

  lemma {:induction false} DigitsAreDigits(s: string)
    ensures forall c <- Digits(s) :: IsDigit(c)
  {
    if s != "" && IsDigit(s[0]) {
      DigitsAreDigits(s[1..]);
    }
  }

  /** The first number in a text, or zero when there is none or it does not fit 64 bits. */
  function FirstNumber(s: string): int {
    if s == "" then 0
    else if !IsDigit(s[0]) then FirstNumber(s[1..])
    else
      DigitsAreDigits(s);
      var n := Decimal(Digits(s));
      if n > 0x7FFF_FFFF_FFFF_FFFF then 0 else n
  }

  predicate IsUplinkDevice(name: string, iface: string) {
    Normal(name) != "" && Normal(name) == Normal(iface)
  }

  predicate IsBridgeDevice(name: string, bridge: string) {
    Normal(name) != "" && Normal(name) == Normal(bridge)
  }

  function Rank(name: string, iface: string, bridge: string): int {
    if IsUplinkDevice(name, iface) then 0
    else if IsBridgeDevice(name, bridge) then 90
    else if HasPrefix(name, "tap") then 10
    else if HasPrefix(name, "veth") then 20
    else if HasPrefix(name, "fwln") || HasPrefix(name, "fwpr") || HasPrefix(name, "fwbr") then 30
    else 50
  }

  function SortKey(device: string, iface: string, bridge: string): Key {
    var name := Normal(device);
    Key(Rank(name, iface, bridge), FirstNumber(name), name)
  }

  predicate Before(a: string, b: string, iface: string, bridge: string) {
    KeyBefore(SortKey(a, iface, bridge), SortKey(b, iface, bridge))
  }

  /** On names that differ after trimming and lower-casing the sort key is a strict total order. */
  lemma NamesCompare(a: string, b: string, iface: string, bridge: string)
    ensures !(Before(a, b, iface, bridge) && Before(b, a, iface, bridge))
    ensures Normal(a) != Normal(b) ==> Before(a, b, iface, bridge) || Before(b, a, iface, bridge)
  {
    hide Rank, FirstNumber, KeyBefore;
    KeysCompare(SortKey(a, iface, bridge), SortKey(b, iface, bridge));
  }

  lemma NamesChain(a: string, b: string, c: string, iface: string, bridge: string)
    requires !Before(b, a, iface, bridge) && !Before(c, b, iface, bridge)
    ensures !Before(c, a, iface, bridge)
  {
    hide SortKey, KeyBefore;
    var first, second, third := SortKey(a, iface, bridge), SortKey(b, iface, bridge), SortKey(c, iface, bridge);
    KeysCompare(first, second);
    if KeyBefore(third, first) && first != second {
      KeysChain(third, first, second);
    }
  }

  // ---- the order in terms of the names ----

  /** Text order: a proper prefix, or the smaller rune at the first difference. */
  ghost predicate Alphabetic(a: string, b: string) {
    a < b || exists i :: 0 <= i < |a| && i < |b| && a[..i] == b[..i] && a[i] < b[i]
  }

  lemma AlphabeticFrom(x: char, c: string, d: string, i: nat)
    requires i < |c| && i < |d| && c[..i] == d[..i] && c[i] < d[i]
    ensures Alphabetic([x] + c, [x] + d)
  {
    var a, b := [x] + c, [x] + d;
    assert a[..i + 1] == [x] + c[..i] && b[..i + 1] == [x] + d[..i];
    assert a[i + 1] < b[i + 1];
  }

  lemma AlphabeticTail(x: char, c: string, d: string)
    ensures Alphabetic([x] + c, [x] + d) <==> Alphabetic(c, d)
  {
    var a, b := [x] + c, [x] + d;
    assert a[1..] == c && b[1..] == d && a[0] == x && b[0] == x;
    if Alphabetic(c, d) && !(c < d) {
      var i :| 0 <= i < |c| && i < |d| && c[..i] == d[..i] && c[i] < d[i];
      AlphabeticFrom(x, c, d, i);
    }
    if Alphabetic(a, b) && !(a < b) {
      var i :| 0 <= i < |a| && i < |b| && a[..i] == b[..i] && a[i] < b[i];
      assert i > 0;
      assert c[..i - 1] == a[..i][1..] && d[..i - 1] == b[..i][1..] && c[i - 1] < d[i - 1];
    }
  }

  lemma HeadsDecide(a: string, b: string)
    requires a != "" && b != "" && a[0] != b[0]
    ensures Alphabetic(a, b) <==> a[0] < b[0]
  {
    if a[0] < b[0] {
      assert a[..0] == b[..0];
    }
    assert forall i :: 0 < i < |a| && i < |b| ==> a[..i][0] == a[0] && b[..i][0] == b[0];
  }

  lemma {:induction false} TextBeforeIff(a: string, b: string)
    ensures TextBefore(a, b) <==> Alphabetic(a, b)
    decreases |a|
  {
    if a != "" && b != "" {
      if a[0] == b[0] {
        TextBeforeIff(a[1..], b[1..]);
        AlphabeticTail(a[0], a[1..], b[1..]);
        assert a == [a[0]] + a[1..] && b == [b[0]] + b[1..];
      } else {
        HeadsDecide(a, b);
      }
      hide Alphabetic;
    }
  }

  /** Digits read from the left. */
  ghost function Numeral(digits: string, acc: nat): nat
    requires forall c <- digits :: IsDigit(c)
  {
    if digits == "" then acc
    else
      assert IsDigit(digits[0]) && forall c <- digits[1..] :: c in digits;
      Numeral(digits[1..], 10 * acc + (digits[0] as int - '0' as int))
  }

  lemma {:induction false} NumeralEnds(digits: string, acc: nat)
    requires digits != "" && forall c <- digits :: IsDigit(c)
    ensures var rest, last := digits[..|digits| - 1], digits[|digits| - 1];
            (forall c <- rest :: IsDigit(c)) && IsDigit(last) && Numeral(digits, acc) == 10 * Numeral(rest, acc) + (last as int - '0' as int)
    decreases |digits|
  {
    var rest, last := digits[..|digits| - 1], digits[|digits| - 1];
    assert forall c <- rest :: c in digits;
    assert last in digits && digits[0] in digits;
    if |digits| > 1 {
      var tail := digits[1..];
      assert forall c <- tail :: c in digits;
      NumeralEnds(tail, 10 * acc + (digits[0] as int - '0' as int));
      assert tail[..|tail| - 1] == rest[1..];
    } else {
      assert rest == "" && digits[1..] == "";
    }
  }

  lemma {:induction false} DecimalIs(digits: string)
    requires forall c <- digits :: IsDigit(c)
    ensures Decimal(digits) == Numeral(digits, 0)
    decreases |digits|
  {
    if digits != "" {
      assert forall c <- digits[..|digits| - 1] :: c in digits;
      DecimalIs(digits[..|digits| - 1]);
      NumeralEnds(digits, 0);
    }
  }

  lemma {:induction false} DigitsOf(digits: string, after: string)
    requires (forall c <- digits :: IsDigit(c)) && (after == "" || !IsDigit(after[0]))
    ensures Digits(digits + after) == digits
    decreases |digits|
  {
    var s := digits + after;
    if digits == "" {
      assert s == after;
    } else {
      assert digits[0] in digits && forall c <- digits[1..] :: c in digits;
      assert s[1..] == digits[1..] + after;
      DigitsOf(digits[1..], after);
    }
  }

  /** The number of a name is the value of its first run of digits, however many other runs
      follow; a run too long for 64 bits counts as zero. */
  lemma {:induction false} FirstNumberIs(before: string, digits: string, after: string)
    requires (forall c <- before :: !IsDigit(c)) && digits != "" && (forall c <- digits :: IsDigit(c))
    requires after == "" || !IsDigit(after[0])
    ensures FirstNumber(before + digits + after)
         == if Numeral(digits, 0) > 0x7FFF_FFFF_FFFF_FFFF then 0 else Numeral(digits, 0)
    decreases |before|
  {
    var s := before + digits + after;
    if before == "" {
      assert s == digits + after && digits[0] in digits;
      DigitsOf(digits, after);
      DecimalIs(digits);
    } else {
      assert before[0] in before && forall c <- before[1..] :: c in before;
      assert s[1..] == before[1..] + digits + after;
      FirstNumberIs(before[1..], digits, after);
    }
  }

  lemma {:induction false} NoNumberIsZero(s: string)
    requires forall c <- s :: !IsDigit(c)
    ensures FirstNumber(s) == 0
  {
    if s != "" {
      assert s[0] in s && forall c <- s[1..] :: c in s;
      NoNumberIsZero(s[1..]);
    }
  }

  /** Taps, then virtual Ethernet pairs, then firewall links, then the rest. */
  ghost function KindOf(name: string): int {
    if "tap" <= name then 1
    else if "veth" <= name then 2
    else if "fwln" <= name || "fwpr" <= name || "fwbr" <= name then 3
    else 4
  }

  /** The order of two names, both trimmed and in lower case: the uplink's name comes first and
      the bridge's last; in between the kind decides, then the number, then the text. */
  ghost predicate Precedes(a: string, b: string, iface: string, bridge: string) {
    var x, y, up, br := Normal(a), Normal(b), Normal(iface), Normal(bridge);
    && x != y
    && if up != "" && up in {x, y} then x == up
       else if br != "" && br in {x, y} then y == br
       else if KindOf(x) != KindOf(y) then KindOf(x) < KindOf(y)
       else if FirstNumber(x) != FirstNumber(y) then FirstNumber(x) < FirstNumber(y)
       else Alphabetic(x, y)
  }

  lemma BeforeIff(a: string, b: string, iface: string, bridge: string)
    ensures Before(a, b, iface, bridge) <==> Precedes(a, b, iface, bridge)
  {
    NormalTwice(a);
    NormalTwice(b);
    TextBeforeIff(Normal(a), Normal(b));
    TextsCompare(Normal(a), Normal(b));
    hide Normal, FirstNumber, Alphabetic, TextBefore;
  }

  /** The members of a family are in numeric order: with the same digit-free beginning, the
      smaller number comes first whatever follows it, so tap2 precedes tap10. */
  lemma NumericOrder(stem: string, low: string, high: string, a: string, b: string, iface: string, bridge: string)
    requires (forall c <- stem :: !IsDigit(c)) && stem != "" && KindOf(stem) < 4
    requires low != "" && high != "" && (forall c <- low + high :: IsDigit(c))
    requires (a == "" || !IsDigit(a[0])) && (b == "" || !IsDigit(b[0]))
    requires Numeral(low, 0) < Numeral(high, 0) <= 0x7FFF_FFFF_FFFF_FFFF
    requires Normal(stem + low + a) == stem + low + a && Normal(stem + high + b) == stem + high + b
    requires Normal(iface) !in {stem + low + a, stem + high + b} && Normal(bridge) !in {stem + low + a, stem + high + b}
    ensures Precedes(stem + low + a, stem + high + b, iface, bridge)
  {
    Halves(low, high);
    hide Normal, FirstNumber, KindOf, Numeral, IsDigit, Precedes;
    FirstNumberIs(stem, low, a);
    FirstNumberIs(stem, high, b);
    KindOfFamily(stem, stem + low + a);
    KindOfFamily(stem, stem + high + b);
    ByNumber(stem + low + a, stem + high + b, iface, bridge);
  }

  lemma ByNumber(a: string, b: string, iface: string, bridge: string)
    requires Normal(a) == a && Normal(b) == b && KindOf(a) == KindOf(b) && FirstNumber(a) < FirstNumber(b)
    requires Normal(iface) !in {a, b} && Normal(bridge) !in {a, b}
    ensures Precedes(a, b, iface, bridge)
  {
    hide Normal, FirstNumber, KindOf, Alphabetic;
  }

  lemma Halves(low: string, high: string)
    requires forall c <- low + high :: IsDigit(c)
    ensures (forall c <- low :: IsDigit(c)) && forall c <- high :: IsDigit(c)
  {
    hide IsDigit;
    assert forall c :: (c in low ==> c in low + high) && (c in high ==> c in low + high);
  }

  lemma KindOfFamily(stem: string, name: string)
    requires stem <= name && KindOf(stem) < 4
    ensures KindOf(name) == KindOf(stem)
  {
    assert |stem| >= 3 && name[0] == stem[0] && name[1] == stem[1] && name[2] == stem[2];
    assert |stem| >= 4 ==> name[3] == stem[3];
  }

  // ---- sorting ----

  /** No name comes before an earlier one. */
  ghost predicate Ordered(names: seq<string>, iface: string, bridge: string) {
    forall i, j :: 0 <= i < j < |names| ==> !Before(names[j], names[i], iface, bridge)
  }

  /** No two names are the same once trimmed and in lower case. */
  ghost predicate Apart(names: set<string>) {
    forall a, b :: a in names && b in names && Normal(a) == Normal(b) ==> a == b
  }

  /** Each name once. */
  ghost predicate Lists(names: seq<string>, keys: set<string>) {
    multiset(names) == multiset(keys)
  }

  /** Each name precedes the later ones, unless they differ in case and outer blanks only. */
  ghost predicate InOrder(names: seq<string>, iface: string, bridge: string) {
    forall i, j :: 0 <= i < j < |names| ==> Precedes(names[i], names[j], iface, bridge) || Normal(names[i]) == Normal(names[j])
  }

  lemma InOrderIff(names: seq<string>, iface: string, bridge: string)
    ensures Ordered(names, iface, bridge) <==> InOrder(names, iface, bridge)
  {
    hide Before, Precedes, Normal;
    forall i, j | 0 <= i < j < |names|
      ensures !Before(names[j], names[i], iface, bridge) <==> Precedes(names[i], names[j], iface, bridge) || Normal(names[i]) == Normal(names[j])
    {
      BeforeOrSame(names[i], names[j], iface, bridge);
    }
  }

  lemma BeforeOrSame(a: string, b: string, iface: string, bridge: string)
    ensures !Before(b, a, iface, bridge) <==> Precedes(a, b, iface, bridge) || Normal(a) == Normal(b)
  {
    NamesCompare(a, b, iface, bridge);
    BeforeIff(a, b, iface, bridge);
    BeforeIff(b, a, iface, bridge);
    hide Before, Normal, KindOf, FirstNumber, Alphabetic;
  }

  function Insert(name: string, names: seq<string>, iface: string, bridge: string): seq<string> {
    if names == [] then [name]
    else if Before(name, names[0], iface, bridge) then [name] + names
    else [names[0]] + Insert(name, names[1..], iface, bridge)
  }

  lemma {:induction false} InsertHolds(name: string, names: seq<string>, iface: string, bridge: string)
    ensures multiset(Insert(name, names, iface, bridge)) == multiset(names) + multiset{name}
    decreases |names|
  {
    hide Before;
    if names != [] {
      assert names == [names[0]] + names[1..];
      if !Before(name, names[0], iface, bridge) {
        InsertHolds(name, names[1..], iface, bridge);
      }
    }
  }

  lemma PutFirst(name: string, names: seq<string>, iface: string, bridge: string)
    requires Ordered(names, iface, bridge) && forall n <- names :: !Before(n, name, iface, bridge)
    ensures Ordered([name] + names, iface, bridge)
  {
    hide Before;
    var out := [name] + names;
    assert forall j :: 0 < j < |out| ==> out[j] == names[j - 1] && names[j - 1] in names;
  }

  lemma {:induction false} InsertOrders(name: string, names: seq<string>, iface: string, bridge: string)
    requires Ordered(names, iface, bridge)
    ensures Ordered(Insert(name, names, iface, bridge), iface, bridge)
    decreases |names|
  {
    hide Before;
    if names != [] {
      var first := names[0];
      NamesCompare(name, first, iface, bridge);
      if Before(name, first, iface, bridge) {
        forall n | n in names
          ensures !Before(n, name, iface, bridge)
        {
          var j :| 0 <= j < |names| && names[j] == n;
          if j > 0 { NamesChain(name, first, n, iface, bridge); }
        }
        PutFirst(name, names, iface, bridge);
      } else {
        var rest := Insert(name, names[1..], iface, bridge);
        InsertOrders(name, names[1..], iface, bridge);
        InsertHolds(name, names[1..], iface, bridge);
        forall n | n in rest
          ensures !Before(n, first, iface, bridge)
        {
          assert n in multiset(rest);
          assert n == name || n in names[1..];
        }
        PutFirst(first, rest, iface, bridge);
      }
    }
  }

  lemma OrderedHeads(a: seq<string>, b: seq<string>, iface: string, bridge: string)
    requires Ordered(a, iface, bridge) && Ordered(b, iface, bridge) && a != [] && b != []
    requires a[0] in b && b[0] in a && (Normal(a[0]) == Normal(b[0]) ==> a[0] == b[0])
    ensures a[0] == b[0]
  {
    hide Before;
    var i :| 0 <= i < |a| && a[i] == b[0];
    var j :| 0 <= j < |b| && b[j] == a[0];
    NamesCompare(a[0], b[0], iface, bridge);
    assert i != 0 ==> !Before(a[i], a[0], iface, bridge);
    assert j != 0 ==> !Before(b[j], b[0], iface, bridge);
  }

  lemma TailsMatch(a: seq<string>, b: seq<string>)
    requires a != [] && b != [] && a[0] == b[0] && multiset(a) == multiset(b)
    ensures multiset(a[1..]) == multiset(b[1..])
  {
    assert a == [a[0]] + a[1..] && b == [b[0]] + b[1..];
    assert multiset(a) == multiset{a[0]} + multiset(a[1..]);
    assert multiset(b) == multiset{a[0]} + multiset(b[1..]);
    assert multiset(a[1..]) == multiset(a) - multiset{a[0]};
  }

  lemma {:induction false} OrderedIsUnique(a: seq<string>, b: seq<string>, keys: set<string>, iface: string, bridge: string)
    requires Ordered(a, iface, bridge) && Ordered(b, iface, bridge) && multiset(a) == multiset(b)
    requires Apart(keys) && forall name <- a :: name in keys
    ensures a == b
    decreases |a|
  {
    hide Before, Normal;
    assert |multiset(a)| == |a| && |multiset(b)| == |b|;
    if a != [] {
      assert a[0] in multiset(a) && b[0] in multiset(b);
      OrderedHeads(a, b, iface, bridge);
      TailsMatch(a, b);
      OrderedIsUnique(a[1..], b[1..], keys, iface, bridge);
      assert a == [a[0]] + a[1..] && b == [b[0]] + b[1..];
    }
  }

  /** Whatever order a map with distinct names is walked in, and however its names are sorted,
      the result is the same list. */
  lemma SortingIgnoresOrder(keys: set<string>, a: seq<string>, b: seq<string>, iface: string, bridge: string)
    requires Apart(keys) && Lists(a, keys) && Lists(b, keys)
    requires Ordered(a, iface, bridge) && Ordered(b, iface, bridge)
    ensures a == b
  {
    hide Before, Normal;
    forall name | name in a
      ensures name in keys
    {
      assert name in multiset(a);
    }
    OrderedIsUnique(a, b, keys, iface, bridge);
  }

  /** The keys in whatever order the map yields them, then sorted. */
  method SortedDeviceNames(devices: set<string>, iface: string, bridge: string) returns (names: seq<string>)
    ensures Lists(names, devices) && Ordered(names, iface, bridge) && InOrder(names, iface, bridge)
  {
    hide Before, Insert, Precedes, Normal;
    var walk, left := [], devices;
    while left != {}
      invariant left <= devices && multiset(walk) == multiset(devices - left)
      decreases |left|
    {
      var device :| device in left;
      assert devices - (left - {device}) == (devices - left) + {device};
      walk, left := walk + [device], left - {device};
    }
    assert devices - left == devices;
    names := [];
    for i := 0 to |walk|
      invariant multiset(names) == multiset(walk[..i]) && Ordered(names, iface, bridge)
    {
      InsertHolds(walk[i], names, iface, bridge);
      InsertOrders(walk[i], names, iface, bridge);
      assert walk[..i + 1] == walk[..i] + [walk[i]];
      names := Insert(walk[i], names, iface, bridge);
    }
    assert walk[..|walk|] == walk;
    InOrderIff(names, iface, bridge);
  }
}
