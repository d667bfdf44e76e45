/** The few string operations of Python the shop relies on: `str.split(sep)`,
    `str.strip()`, `str(int)` and ASCII lower-casing. */
module Text {
  /** `c.isspace()` in Python: ASCII and Unicode white space characters. */
  predicate IsSpace(c: char) {
    var n := c as int;
    || n == 32 || 9 <= n <= 13 || 28 <= n <= 31
    || n == 0x85 || n == 0xA0 || n == 0x1680 || 0x2000 <= n <= 0x200A
    || n == 0x2028 || n == 0x2029 || n == 0x202F || n == 0x205F || n == 0x3000
  }

  predicate AllSpace(s: string) {
    forall i :: 0 <= i < |s| ==> IsSpace(s[i])
  }

  /** Number of white space characters of s from index i on. */
  function SpacesFrom(s: string, i: nat): (k: nat)
    requires i <= |s|
    ensures i + k <= |s| && forall j :: i <= j < i + k ==> IsSpace(s[j])
    ensures i + k < |s| ==> !IsSpace(s[i + k])
    decreases |s| - i
  {
    if i == |s| || !IsSpace(s[i]) then 0 else 1 + SpacesFrom(s, i + 1)
  }

  /** Number of white space characters of s just before index e. */
  function SpacesBefore(s: string, e: nat): (k: nat)
    requires e <= |s|
    ensures k <= e && forall j :: e - k <= j < e ==> IsSpace(s[j])
    ensures k < e ==> !IsSpace(s[e - 1 - k])
  {
    if e == 0 || !IsSpace(s[e - 1]) then 0 else 1 + SpacesBefore(s, e - 1)
  }

  /** Number of white space characters at the start of s. */
  function LeadingSpaces(s: string): (k: nat)
    ensures k <= |s| && AllSpace(s[..k])
    ensures k < |s| ==> !IsSpace(s[k])
  {
    SpacesFrom(s, 0)
  }

  /** Number of white space characters at the end of s. */
  function TrailingSpaces(s: string): (k: nat)
    ensures k <= |s| && AllSpace(s[|s| - k..])
    ensures k < |s| ==> !IsSpace(s[|s| - 1 - k])
  {
    SpacesBefore(s, |s|)
  }

  /** `s.strip()`: s without its leading and trailing white space. */
  function Strip(s: string): (r: string)
    ensures exists i, j :: 0 <= i <= j <= |s| && r == s[i..j] && AllSpace(s[..i]) && AllSpace(s[j..])
    ensures r != [] ==> !IsSpace(r[0]) && !IsSpace(r[|r| - 1])
  {
    var i := SpacesFrom(s, 0);
    var e := |s| - SpacesBefore(s, |s|);
    if e <= i then
      assert i == |s|;
      assert AllSpace(s[..|s|]) && s[|s|..] == [];
      []
    else
      assert AllSpace(s[..i]) && AllSpace(s[e..]);
      s[i..e]
  }

  /** The inverse of `Split`: the parts with sep between consecutive ones. */
  function Join(parts: seq<string>, sep: char): string
    requires |parts| >= 1
  {
    if |parts| == 1 then parts[0] else parts[0] + [sep] + Join(parts[1..], sep)
  }

  /** `s.split(sep)` for a one-character separator: the maximal sep-free
      pieces between separators, empty pieces included. */
  function Split(s: string, sep: char): (r: seq<string>)
    ensures |r| >= 1
    ensures forall i :: 0 <= i < |r| ==> sep !in r[i]
    ensures Join(r, sep) == s
  {
    if |s| == 0 then [""]
    else if s[0] == sep then
      var rest := Split(s[1..], sep);
      assert [""] + rest == [""] + rest;
      assert ([""] + rest)[1..] == rest;
      [""] + rest
    else
      var rest := Split(s[1..], sep);
      var r := [[s[0]] + rest[0]] + rest[1..];
      assert r[1..] == rest[1..];
      assert |rest| > 1 ==> Join(rest, sep) == rest[0] + [sep] + Join(rest[1..], sep);
      r
  }

  /** `s.split(sep)[0]`: the longest prefix of s that holds no separator. */
  function FirstField(s: string, sep: char): (r: string)
    ensures |r| <= |s| && r == s[..|r|] && sep !in r
    ensures |r| < |s| ==> s[|r|] == sep
  {
    var parts := Split(s, sep);
    JoinStartsWithFirst(parts, sep);
    parts[0]
  }

  lemma {:induction false} JoinStartsWithFirst(parts: seq<string>, sep: char)
    requires |parts| >= 1
    ensures |parts[0]| <= |Join(parts, sep)| && Join(parts, sep)[..|parts[0]|] == parts[0]
    ensures |parts| > 1 ==> |parts[0]| < |Join(parts, sep)| && Join(parts, sep)[|parts[0]|] == sep
  {
  }

  function DigitChar(d: nat): char
    requires d < 10
  {
    ('0' as int + d) as char
  }

  predicate IsDigit(c: char) {
    '0' <= c <= '9'
  }

  /** `str(n)` for a natural number: decimal digits, no leading zero. */
  function NatToString(n: nat): (r: string)
    ensures |r| >= 1 && forall i :: 0 <= i < |r| ==> IsDigit(r[i])
    ensures |r| > 1 ==> r[0] != '0'
    ensures n < 10 <==> |r| == 1
  {
    if n < 10 then [DigitChar(n)] else NatToString(n / 10) + [DigitChar(n % 10)]
  }

  /** The number a string of decimal digits denotes. */
  function DigitsValue(s: string): nat
    requires forall i :: 0 <= i < |s| ==> IsDigit(s[i])
  {
    if |s| == 0 then 0
    else
      assert IsDigit(s[|s| - 1]);
      10 * DigitsValue(s[..|s| - 1]) + (s[|s| - 1] as int - '0' as int)
  }

  /** Reading back the decimal digits of n gives n. */
  lemma {:induction false} DigitsOfNat(n: nat)
    ensures DigitsValue(NatToString(n)) == n
  {
    if n >= 10 {
      var s := NatToString(n);
      assert s[..|s| - 1] == NatToString(n / 10);
      DigitsOfNat(n / 10);
    }
  }

  /** Digits without a leading zero (or the single digit 0): the form `str`
      gives a natural number. */
  predicate CanonicalDigits(s: string) {
    && |s| >= 1
    && (forall i :: 0 <= i < |s| ==> IsDigit(s[i]))
    && (s[0] != '0' || |s| == 1)
  }

  /** Digits that start with a non-zero digit denote at least 10^(length-1),
      in particular at least 1. */
  lemma {:induction false} LeadingDigitPositive(s: string)
    requires |s| >= 1 && (forall i :: 0 <= i < |s| ==> IsDigit(s[i])) && s[0] != '0'
    ensures DigitsValue(s) >= 1
    ensures |s| > 1 ==> DigitsValue(s) >= 10
  {
    if |s| > 1 {
      var init := s[..|s| - 1];
      assert init[0] == s[0];
      LeadingDigitPositive(init);
    }
  }

  /** Canonical digits are exactly what `str` prints for the number they denote. */
  lemma {:induction false} CanonicalDigitsRoundTrip(s: string)
    requires CanonicalDigits(s)
    ensures NatToString(DigitsValue(s)) == s
  {
    var n := DigitsValue(s);
    var d := s[|s| - 1] as int - '0' as int;
    assert IsDigit(s[|s| - 1]) && 0 <= d < 10;
    assert '0' as int + d == s[|s| - 1] as int;
    assert DigitChar(d) == s[|s| - 1];
    if |s| == 1 {
      assert s[..0] == [];
      assert n == d;
      assert [DigitChar(d)] == s;
    } else {
      var init := s[..|s| - 1];
      assert init[0] == s[0];
      LeadingDigitPositive(s);
      LeadingDigitPositive(init);
      CanonicalDigitsRoundTrip(init);
      assert n == 10 * DigitsValue(init) + d && 0 <= d < 10;
      assert n / 10 == DigitsValue(init) && n % 10 == d;
      assert init + [DigitChar(d)] == s;
    }
  }

  /** Numbers below 1000 have at most three digits. */
  lemma {:induction false} ShortNatToString(n: nat)
    requires n < 1000
    ensures |NatToString(n)| <= 3
  {
    if n >= 10 {
      ShortNatToString(n / 10);
      assert n / 10 < 100;
      assert n / 10 >= 10 ==> n / 100 < 10;
    }
  }

  /** `str(i)` for any integer. */
  function IntToString(i: int): string {
    if i < 0 then "-" + NatToString(-i) else NatToString(i)
  }

  /** `str(i)` starts with a minus sign exactly when i is negative, and the
      rest is the canonical digits of |i|. */
  lemma IntToStringCanonical(i: int)
    ensures |IntToString(i)| >= 1 && (IntToString(i)[0] == '-' <==> i < 0)
    ensures var digits := if i < 0 then IntToString(i)[1..] else IntToString(i);
      CanonicalDigits(digits) && DigitsValue(digits) == if i < 0 then -i else i
  {
    var magnitude := if i < 0 then -i else i;
    DigitsOfNat(magnitude);
    if i < 0 {
      assert IntToString(i)[1..] == NatToString(magnitude);
    }
  }

  /** The text `"<q> > <s>"` the shop uses to report a quantity above stock. */
  function Shortfall(quantity: int, stock: int): string {
    IntToString(quantity) + " > " + IntToString(stock)
  }

  /** c and d are the upper- and lower-case forms of one ASCII letter. */
  predicate CaseVariants(c: char, d: char) {
    || ('A' <= c <= 'Z' && d as int == c as int + 32)
    || ('A' <= d <= 'Z' && c as int == d as int + 32)
  }

  /** `c.lower()` for ASCII letters: the result is never an upper-case
      letter, and it is c itself or the other case of c. */
  function LowerChar(c: char): (r: char)
    ensures !('A' <= r <= 'Z')
    ensures r == c || CaseVariants(c, r)
  {
    if 'A' <= c <= 'Z' then (c as int + 32) as char else c
  }

  /** Two characters lower to the same character exactly when they are
      equal or the two cases of one letter. */
  lemma LowerCharAgrees(c: char, d: char)
    ensures LowerChar(c) == LowerChar(d) <==> c == d || CaseVariants(c, d)
  {
  }

  function Lower(s: string): (r: string)
    ensures |r| == |s| && forall i :: 0 <= i < |s| ==> r[i] == LowerChar(s[i])
  {
    if |s| == 0 then [] else [LowerChar(s[0])] + Lower(s[1..])
  }

  /** Two strings lower to the same string exactly when they have the same
      length and agree position by position up to the case of ASCII
      letters: the comparison `validate_unique_keys` makes. */
  lemma {:induction false} LowerAgrees(s: string, t: string)
    ensures Lower(s) == Lower(t) <==>
      |s| == |t| && forall i :: 0 <= i < |s| ==> s[i] == t[i] || CaseVariants(s[i], t[i])
  {
    if |s| == |t| {
      forall i | 0 <= i < |s| {
        LowerCharAgrees(s[i], t[i]);
      }
      if Lower(s) == Lower(t) {
        assert forall i :: 0 <= i < |s| ==> LowerChar(s[i]) == LowerChar(t[i]) by {
          forall i | 0 <= i < |s| ensures LowerChar(s[i]) == LowerChar(t[i]) {
            assert Lower(s)[i] == Lower(t)[i];
          }
        }
      }
    }
  }
}
