/** ASCII string helpers shared by the services: Python's `str.strip()`,
    `str.lower()`, `str(n)` for a natural number, `int(digits)`, and the
    substring test behind SQL `LIKE '%term%'`.  Only ASCII whitespace and
    case are modelled. */
module Text {

  /** The ASCII characters Python's `str.strip()` removes: space, tab,
      line feed, vertical tab, form feed, carriage return, and the four
      separators U+001C to U+001F. */
  predicate IsSpace(c: char) {
    c == ' ' || 9 <= c as int <= 13 || 28 <= c as int <= 31
  }

  predicate IsDigit(c: char) {
    '0' <= c <= '9'
  }

  predicate IsUpper(c: char) {
    'A' <= c <= 'Z'
  }

  function LowerChar(c: char): (r: char)
    ensures !IsUpper(r)
    ensures IsUpper(c) ==> r as int == c as int + 32
    ensures !IsUpper(c) ==> r == c
  {
    if IsUpper(c) then (c as int + 32) as char else c
  }

  /** `s.lower()` over ASCII. */
  function Lower(s: string): (r: string)
    ensures |r| == |s|
  {
    seq(|s|, i requires 0 <= i < |s| => LowerChar(s[i]))
  }

  /** Drops leading whitespace. */
  function StripLeft(s: string): string {
    if s != [] && IsSpace(s[0]) then StripLeft(s[1..]) else s
  }

  /** Drops trailing whitespace. */
  function StripRight(s: string): string {
    if s != [] && IsSpace(s[|s| - 1]) then StripRight(s[..|s| - 1]) else s
  }

  /** `s.strip()`. */
  function Strip(s: string): string {
    StripRight(StripLeft(s))
  }

  /** `StripLeft` keeps a suffix that starts with a non-space and removes
      only whitespace before it. */
  lemma {:induction false} StripLeftMeaning(s: string)
    ensures var r := StripLeft(s);
      && |r| <= |s| && r == s[|s| - |r|..]
      && (r == [] || !IsSpace(r[0]))
      && (forall i :: 0 <= i < |s| - |r| ==> IsSpace(s[i]))
  {
    if s != [] && IsSpace(s[0]) {
      StripLeftMeaning(s[1..]);
      var r := StripLeft(s[1..]);
      assert s[1..][|s| - 1 - |r|..] == s[|s| - |r|..];
      forall i | 0 < i < |s| - |r| ensures IsSpace(s[i]) {
        assert s[i] == s[1..][i - 1];
      }
    }
  }

  /** `StripRight` keeps a prefix that ends with a non-space and removes
      only whitespace after it. */
  lemma {:induction false} StripRightMeaning(s: string)
    ensures var r := StripRight(s);
      && |r| <= |s| && r == s[..|r|]
      && (r == [] || !IsSpace(r[|r| - 1]))
      && (forall i :: |r| <= i < |s| ==> IsSpace(s[i]))
  {
    if s != [] && IsSpace(s[|s| - 1]) {
      StripRightMeaning(s[..|s| - 1]);
      var r := StripRight(s[..|s| - 1]);
      assert s[..|s| - 1][..|r|] == s[..|r|];
      forall i | |r| <= i < |s| - 1 ensures IsSpace(s[i]) {
        assert s[i] == s[..|s| - 1][i];
      }
    }
  }

  /** `s.strip()` is the slice of `s` after its leading whitespace, minus
      its trailing whitespace: it starts and ends with a non-space, and only
      whitespace lies on either side of it. */
  lemma StripMeaning(s: string)
    ensures var r := Strip(s); var lo := |s| - |StripLeft(s)|;
      && 0 <= lo <= |s| - |r| && r == s[lo..lo + |r|]
      && (forall i :: 0 <= i < lo ==> IsSpace(s[i]))
      && (forall i :: lo + |r| <= i < |s| ==> IsSpace(s[i]))
      && (r == [] || (!IsSpace(r[0]) && !IsSpace(r[|r| - 1])))
  {
    var l := StripLeft(s);
    var r := StripRight(l);
    StripLeftMeaning(s);
    StripRightMeaning(l);
    var lo := |s| - |l|;
    assert l == s[lo..];
    assert r == l[..|r|];
    assert s[lo..][..|r|] == s[lo..lo + |r|];
    forall i | lo + |r| <= i < |s| ensures IsSpace(s[i]) {
      assert s[i] == l[i - lo];
    }
  }

  /** Stripping twice is stripping once. */
  lemma StripIdempotent(s: string)
    ensures Strip(Strip(s)) == Strip(s)
  {
    var r := Strip(s);
    StripMeaning(s);
    if r != [] {
      assert StripLeft(r) == r;
      assert StripRight(r) == r;
    }
  }

  /** Decimal digit value of a digit character. */
  function DigitValue(c: char): (d: nat)
    requires IsDigit(c)
    ensures d < 10
  {
    c as int - '0' as int
  }

  function DigitChar(d: nat): (c: char)
    requires d < 10
    ensures IsDigit(c) && DigitValue(c) == d
  {
    ('0' as int + d) as char
  }

  predicate AllDigits(s: string) {
    forall i :: 0 <= i < |s| ==> IsDigit(s[i])
  }

  /** `int(s)` for a string of ASCII digits. */
  function DecimalValue(s: string): nat
    requires AllDigits(s)
  {
    if s == [] then 0 else 10 * DecimalValue(s[..|s| - 1]) + DigitValue(s[|s| - 1])
  }

  /** `str(n)` for a natural number, without leading zeros. */
  function NatToDecimal(n: nat): (s: string)
    ensures |s| >= 1 && AllDigits(s)
    ensures |s| > 1 ==> s[0] != '0'
  {
    if n < 10 then [DigitChar(n)] else NatToDecimal(n / 10) + [DigitChar(n % 10)]
  }

  /** Reading back the digits gives the number. */
  lemma {:induction false} DecimalRoundTrip(n: nat)
    ensures DecimalValue(NatToDecimal(n)) == n
  {
    var s := NatToDecimal(n);
    if n >= 10 {
      DecimalRoundTrip(n / 10);
      assert s[..|s| - 1] == NatToDecimal(n / 10);
    }
  }

  /** A number with `k` digits lies in [10^(k-1), 10^k). */
  lemma {:induction false} DecimalLength(n: nat)
    ensures |NatToDecimal(n)| == 6 <==> 100000 <= n < 1000000
  {
    if n >= 10 {
      DecimalLength(n / 10);
      DecimalLengthFive(n / 10);
    }
  }

  lemma {:induction false} DecimalLengthFive(n: nat)
    ensures |NatToDecimal(n)| == 5 <==> 10000 <= n < 100000
  {
    if n >= 10 {
      DecimalLengthFour(n / 10);
    }
  }

  lemma {:induction false} DecimalLengthFour(n: nat)
    ensures |NatToDecimal(n)| == 4 <==> 1000 <= n < 10000
  {
    if n >= 10 {
      DecimalLengthThree(n / 10);
    }
  }

  lemma {:induction false} DecimalLengthThree(n: nat)
    ensures |NatToDecimal(n)| == 3 <==> 100 <= n < 1000
  {
    if n >= 10 {
      DecimalLengthTwo(n / 10);
    }
  }

  lemma {:induction false} DecimalLengthTwo(n: nat)
    ensures |NatToDecimal(n)| == 2 <==> 10 <= n < 100
  {
    if n >= 10 {
      assert |NatToDecimal(n / 10)| == 1 <==> n / 10 < 10;
    }
  }

  /** Different numbers print differently, so the answer keys "0", "1", ...
      of a quiz are pairwise distinct. */
  lemma DecimalInjective(m: nat, n: nat)
    requires NatToDecimal(m) == NatToDecimal(n)
    ensures m == n
  {
    DecimalRoundTrip(m);
    DecimalRoundTrip(n);
  }

  /** `needle` occurs in `hay` starting at offset `i`. */
  predicate OccursAt(hay: string, needle: string, i: int) {
    0 <= i <= |hay| - |needle| && hay[i..i + |needle|] == needle
  }

  /** SQL `hay LIKE '%needle%'` for a needle without wildcards. */
  predicate Contains(hay: string, needle: string) {
    exists i | 0 <= i <= |hay| :: OccursAt(hay, needle, i)
  }
}
