/** Printing and parsing of based Ada literals (Ada Reference Manual, section
    2.4.2) in base 16: 16#0123_0000#. */
module AdaHex {
  import opened Wrappers

  // ----- digits -----

  function Digit(d: nat): char
    requires d < 16
  {
    if d < 10 then ('0' as int + d) as char else ('a' as int + d - 10) as char
  }

  function DigitValue(c: char): Option<nat> {
    if '0' <= c <= '9' then Some(c as int - '0' as int)
    else if 'a' <= c <= 'f' then Some(c as int - 'a' as int + 10)
    else if 'A' <= c <= 'F' then Some(c as int - 'A' as int + 10)
    else None
  }

  /** hex without its prefix and without leading zeros; nothing for 0. */
  function Hex(n: nat): string {
    if n == 0 then "" else Hex(n / 16) + [Digit(n % 16)]
  }

  predicate AllDigits(s: string) {
    forall c :: c in s ==> DigitValue(c).Some?
  }

  function Value(s: string): nat
    requires AllDigits(s)
  {
    if s == "" then 0 else Value(s[..|s| - 1]) * 16 + DigitValue(s[|s| - 1]).value
  }

  lemma DigitRead(d: nat)
    requires d < 16
    ensures DigitValue(Digit(d)) == Some(d) && Digit(d) != '_' && !('A' <= Digit(d) <= 'F')
    ensures d > 0 ==> Digit(d) != '0'
  {
  }

  lemma ValueSnoc(s: string, c: char)
    requires AllDigits(s) && DigitValue(c).Some?
    ensures AllDigits(s + [c]) && Value(s + [c]) == Value(s) * 16 + DigitValue(c).value
  {
    assert (s + [c])[..|s|] == s;
    hide DigitValue;
  }

  lemma {:induction false} HexValue(n: nat)
    ensures AllDigits(Hex(n)) && Value(Hex(n)) == n
    ensures n > 0 ==> Hex(n) != "" && Hex(n)[0] != '0'
    ensures forall c :: c in Hex(n) ==> c != '_' && !('A' <= c <= 'F')
  {
    hide Value, AllDigits, Digit, DigitValue;
    if n == 0 {
      NoDigits();
    } else {
      HexValue(n / 16);
      DigitRead(n % 16);
      ValueSnoc(Hex(n / 16), Digit(n % 16));
    }
  }

  lemma NoDigits()
    ensures AllDigits("") && Value("") == 0
  {
  }

  // ----- printing -----

  function Zeros(n: nat): string {
    if n == 0 then "" else Zeros(n - 1) + "0"
  }

  /** Padding on the left to full groups of four. */
  function Padded(s: string): string {
    Zeros(Missing(|s|)) + s
  }

  function Missing(n: nat): nat {
    (4 - n % 4) % 4
  }

  /** An underscore ahead of every group of four but the first. */
  function Grouped(s: string): string {
    if s == "" then ""
    else
      var i := |s| - 1;
      Grouped(s[..i]) + Separator(i) + [s[i]]
  }

  function Separator(i: nat): string {
    if i % 4 == 0 && i != 0 then "_" else ""
  }

  method IntToAdaHex(n: nat) returns (s: string)
    ensures s == "16#" + Grouped(Padded(Hex(n))) + "#"
  {
    var digits := Padded(Hex(n));
    s := "16#";
    for i := 0 to |digits|
      invariant s == "16#" + Grouped(digits[..i])
    {
      assert digits[..i + 1][..i] == digits[..i];
      if i % 4 == 0 && i != 0 {
        s := s + "_";
      }
      s := s + [digits[i]];
    }
    assert digits[..|digits|] == digits;
    s := s + "#";
  }

  // ----- parsing -----

  function Without(s: string, c: char): string {
    if s == "" then ""
    else Without(s[..|s| - 1], c) + (if s[|s| - 1] == c then "" else [s[|s| - 1]])
  }

  /** The text between the third character and the last one, as a number; fails
      on anything but digits, and on no digits at all. */
  function AdaHexToInt(s: string): Option<nat> {
    var t := Without(s, '_');
    var digits := if |t| <= 4 then "" else t[3..|t| - 1];
    if digits == "" || !AllDigits(digits) then None else Some(Value(digits))
  }

  lemma {:induction false} WithoutCat(a: string, b: string, c: char)
    ensures Without(a + b, c) == Without(a, c) + Without(b, c)
  {
    if b == "" {
      assert a + b == a && Without(a, c) + "" == Without(a, c);
    } else {
      var front := b[..|b| - 1];
      assert (a + b)[..|a + b| - 1] == a + front;
      WithoutCat(a, front, c);
    }
  }

  lemma WithoutOne(x: char, c: char)
    ensures Without([x], c) == (if x == c then "" else [x]) && Without("", c) == ""
  {
    assert [x][..0] == "";
  }

  lemma WithoutSeparator(i: nat)
    ensures Without(Separator(i), '_') == ""
  {
    WithoutOne('_', '_');
  }

  lemma {:induction false} GroupedPlain(s: string)
    requires '_' !in s
    ensures Without(Grouped(s), '_') == s
  {
    if s == "" {
      assert Grouped(s) == "";
    } else {
      hide *;
      var i := |s| - 1;
      SplitLast(s);
      GroupedPlain(s[..i]);
      GroupedLast(s);
      WithoutOne(s[i], '_');
      WithoutSeparator(i);
      WithoutCat(Grouped(s[..i]) + Separator(i), [s[i]], '_');
      WithoutCat(Grouped(s[..i]), Separator(i), '_');
      NoSeparator(s[..i]);
    }
  }

  lemma SplitLast(s: string)
    requires s != ""
    ensures s[..|s| - 1] + [s[|s| - 1]] == s && s[|s| - 1] in s
    ensures '_' !in s ==> '_' !in s[..|s| - 1]
  {
  }

  lemma GroupedLast(s: string)
    requires s != ""
    ensures Grouped(s) == Grouped(s[..|s| - 1]) + Separator(|s| - 1) + [s[|s| - 1]]
  {
  }

  lemma ZerosDigits(n: nat, s: string)
    ensures AllDigits(s) ==> AllDigits(Zeros(n) + s)
    ensures '_' !in s ==> '_' !in Zeros(n) + s
  {
    ZerosOnly(n);
    hide Zeros;
  }

  lemma {:induction false} ZerosAlone(n: nat)
    ensures AllDigits(Zeros(n)) && Value(Zeros(n)) == 0
  {
    ZerosOnly(n);
    if n > 0 {
      ZerosAlone(n - 1);
      assert Zeros(n)[..n - 1] == Zeros(n - 1);
    }
  }

  lemma {:induction false} ZerosAdd(n: nat, s: string)
    requires AllDigits(s)
    ensures AllDigits(Zeros(n) + s) && Value(Zeros(n) + s) == Value(s)
    ensures '_' !in s ==> '_' !in Zeros(n) + s
  {
    ZerosDigits(n, s);
    if s == "" {
      assert Zeros(n) + s == Zeros(n);
      ZerosAlone(n);
    } else {
      var front := s[..|s| - 1];
      ZerosAdd(n, front);
      assert (Zeros(n) + s)[..|Zeros(n) + s| - 1] == Zeros(n) + front;
      hide Zeros, AllDigits, DigitValue;
    }
  }

  lemma {:induction false} NoUnderscore(s: string)
    ensures '_' !in s ==> Without(s, '_') == s
    decreases s
  {
    if s == "" {
      assert Without(s, '_') == "";
    } else {
      hide *;
      SplitLast(s);
      NoUnderscore(s[..|s| - 1]);
      WithoutCat(s[..|s| - 1], [s[|s| - 1]], '_');
      WithoutOne(s[|s| - 1], '_');
    }
  }

  function Printed(n: nat): string {
    "16#" + Grouped(Padded(Hex(n))) + "#"
  }

  lemma PaddedIs(s: string)
    ensures Padded(s) == Zeros(Missing(|s|)) + s
  {
  }

  lemma PaddedValue(n: nat)
    ensures AllDigits(Padded(Hex(n))) && Value(Padded(Hex(n))) == n
    ensures '_' !in Padded(Hex(n))
  {
    hide *;
    HexValue(n);
    PaddedIs(Hex(n));
    ZerosAdd(Missing(|Hex(n)|), Hex(n));
    ZerosOnly(Missing(|Hex(n)|));
  }

  lemma PrintedPlain(n: nat)
    ensures Without(Printed(n), '_') == "16#" + Padded(Hex(n)) + "#"
    ensures AllDigits(Padded(Hex(n))) && Value(Padded(Hex(n))) == n
  {
    var g := Grouped(Padded(Hex(n)));
    assert Printed(n) == "16#" + g + "#";
    assert '_' !in "16#" && '_' !in "#";
    hide *;
    PaddedValue(n);
    GroupedPlain(Padded(Hex(n)));
    WithoutCat("16#" + g, "#", '_');
    WithoutCat("16#", g, '_');
    NoUnderscore("16#");
    NoUnderscore("#");
  }

  /** Parsing what was printed gives the number back, exactly for the positive
      ones: zero is printed without a digit. */
  lemma RoundTripIffPositive(n: nat)
    ensures AdaHexToInt(Printed(n)) == Some(n) <==> n > 0
    ensures n == 0 ==> Printed(n) == "16##" && AdaHexToInt(Printed(n)) == None
  {
    PrintedPlain(n);
    HexValue(n);
    var p := Padded(Hex(n));
    var t := "16#" + p + "#";
    assert t[3..|t| - 1] == p;
    if n == 0 {
      assert p == "" by { assert Zeros(0) == ""; }
    }
    hide Hex, Value, Padded, Without, Grouped;
  }

  // ----- the printed form -----

  /** Groups of four, separated by single underscores. */
  function Quads(p: string): string
    requires |p| % 4 == 0
  {
    if |p| <= 4 then p else Quads(p[..|p| - 4]) + "_" + p[|p| - 4..]
  }

  /** The rest of a group has no separators. */
  lemma {:induction false} GroupedRest(s: string, t: string)
    requires 0 < |s| % 4 && |s| % 4 + |t| <= 4
    ensures Grouped(s + t) == Grouped(s) + t
  {
    if t == "" {
      NoSeparator(s);
      NoSeparator(Grouped(s));
    } else {
      var front, c := t[..|t| - 1], t[|t| - 1];
      GroupedRest(s, front);
      InsideGroup(|s|, |front|);
      hide *;
      GroupedSnoc(s + front, c);
      NoSeparator(Grouped(s) + front);
      LastApart(s, t);
      LastApart(Grouped(s), t);
    }
  }

  lemma LastApart(s: string, t: string)
    requires t != ""
    ensures s + t[..|t| - 1] + [t[|t| - 1]] == s + t
  {
  }

  lemma InsideGroup(n: nat, k: nat)
    requires 0 < n % 4 && n % 4 + k < 4
    ensures Separator(n + k) == ""
  {
  }

  lemma GroupBegins(n: nat)
    requires n % 4 == 0
    ensures Separator(n) == (if n == 0 then "" else "_") && (n + 1) % 4 == 1
  {
  }

  lemma GroupedFour(a: string, q: string)
    requires |a| % 4 == 0 && |q| == 4
    ensures Grouped(a + q) == Grouped(a) + (if a == "" then "" else "_") + q
  {
    GroupBegins(|a|);
    hide *;
    var a', b := a + [q[0]], Grouped(a) + Separator(|a|);
    GroupedSnoc(a, q[0]);
    assert |a'| == |a| + 1;
    GroupedRest(a', q[1..]);
    FirstApart(a, q);
    FirstApart(b, q);
  }

  lemma FirstApart(a: string, q: string)
    requires q != ""
    ensures a + [q[0]] + q[1..] == a + q
  {
  }

  lemma GroupedSnoc(s: string, c: char)
    ensures Grouped(s + [c]) == Grouped(s) + Separator(|s|) + [c]
  {
    assert (s + [c])[..|s|] == s;
  }

  lemma NoSeparator(s: string)
    ensures s + "" == s
  {
  }

  lemma {:induction false} GroupedIsQuads(p: string)
    requires |p| % 4 == 0
    ensures Grouped(p) == Quads(p)
  {
    if p != "" {
      var a, q := p[..|p| - 4], p[|p| - 4..];
      assert p == a + q;
      GroupedFour(a, q);
      GroupedIsQuads(a);
      hide Grouped;
    }
  }

  predicate Lower(s: string) {
    AllDigits(s) && forall c :: c in s ==> !('A' <= c <= 'F')
  }

  /** The digits of a literal in canonical form: full groups of four, the first
      one not all zeros. */
  predicate FullGroups(p: string) {
    p != "" && |p| % 4 == 0 && Lower(p) && p[..4] != "0000"
  }

  lemma {:induction false} ZerosOnly(n: nat)
    ensures |Zeros(n)| == n && forall k :: 0 <= k < n ==> Zeros(n)[k] == '0'
  {
    if n > 0 {
      ZerosOnly(n - 1);
    }
  }

  lemma PaddedShape(h: string)
    requires Lower(h) && h != "" && h[0] != '0'
    ensures FullGroups(Padded(h))
  {
    var z := Missing(|h|);
    ZerosOnly(z);
    var p := Padded(h);
    assert |p| == z + |h| && |p| % 4 == 0;
    hide Zeros;
    assert p[..4][z] == p[z] == h[0];
    forall c | c in p ensures DigitValue(c).Some? && !('A' <= c <= 'F') {
      var k :| 0 <= k < |p| && p[k] == c;
      assert k >= z ==> p[k] == h[k - z];
    }
  }

  /** Positive numbers are printed in full groups of four digits. */
  lemma PrintedIsCanonical(n: nat)
    requires n > 0
    ensures var p := Padded(Hex(n)); FullGroups(p) && Printed(n) == "16#" + Quads(p) + "#"
  {
    HexValue(n);
    assert Lower(Hex(n));
    hide Hex, Padded;
    PaddedShape(Hex(n));
    GroupedIsQuads(Padded(Hex(n)));
    hide Grouped, Quads;
  }

  lemma LowerSlice(s: string, i: nat, j: nat)
    requires Lower(s) && i <= j <= |s|
    ensures Lower(s[i..j])
  {
    forall c | c in s[i..j] ensures c in s {
    }
  }

  lemma DigitOfValue(c: char)
    requires DigitValue(c).Some? && !('A' <= c <= 'F')
    ensures DigitValue(c).value < 16 && Digit(DigitValue(c).value) == c
    ensures DigitValue(c).value == 0 <==> c == '0'
  {
  }

  lemma {:induction false} HexOfValue(s: string)
    requires Lower(s) && s != "" && s[0] != '0'
    ensures Hex(Value(s)) == s && Value(s) > 0
  {
    var i := |s| - 1;
    var front, d := s[..i], DigitValue(s[i]).value;
    assert s[i] in s;
    LowerSlice(s, 0, i);
    DigitOfValue(s[i]);
    assert Value(s) == Value(front) * 16 + d && Value(s) / 16 == Value(front) && Value(s) % 16 == d;
    assert s == front + [s[i]];
    if front == "" {
      assert Value(front) == 0 && Hex(0) == "";
    } else {
      assert front[0] == s[0];
      HexOfValue(front);
    }
  }

  lemma LeadingZeros(p: string) returns (z: nat)
    requires FullGroups(p)
    ensures z < 4 && p == Zeros(z) + p[z..] && p[z] != '0'
  {
    z := if p[0] != '0' then 0 else if p[1] != '0' then 1 else if p[2] != '0' then 2 else 3;
    assert p[..4] == [p[0]] + [p[1]] + [p[2]] + [p[3]];
    ZerosOnly(z);
    assert p[..z] == Zeros(z);
    assert p == p[..z] + p[z..];
  }

  /** Printing what a literal in canonical form stands for gives the literal
      back. */
  lemma CanonicalRoundTrip(p: string)
    requires FullGroups(p)
    ensures Printed(Value(p)) == "16#" + Quads(p) + "#"
  {
    var z := LeadingZeros(p);
    var s := p[z..];
    assert Lower(p) && |p| % 4 == 0;
    assert Missing(|s|) == z;
    hide *;
    LowerSlice(p, z, |p|);
    SuffixIs(p, z);
    HexOfValue(s);
    LowerDigits(s);
    ZerosAdd(z, s);
    PaddedIs(s);
    GroupedIsQuads(p);
    PrintedIs(Value(p));
  }

  lemma SuffixIs(p: string, z: nat)
    requires z <= |p|
    ensures p[z..|p|] == p[z..]
  {
  }

  lemma PrintedIs(n: nat)
    ensures Printed(n) == "16#" + Grouped(Padded(Hex(n))) + "#"
  {
  }

  lemma LowerDigits(s: string)
    ensures Lower(s) ==> AllDigits(s)
  {
  }
}
