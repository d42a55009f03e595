/** String helpers: the Python `str` operations the core relies on
    (`startswith`, `endswith`, `in`, `replace`, `str(int)`, zero padding). */
module Text {

  predicate StartsWith(s: string, prefix: string) {
    |prefix| <= |s| && s[..|prefix|] == prefix
  }

  predicate EndsWith(s: string, suffix: string) {
    |suffix| <= |s| && s[|s| - |suffix|..] == suffix
  }

  /** `p` occurs in `s` starting at index `i`. */
  predicate OccursAt(s: string, p: string, i: int) {
    0 <= i && i + |p| <= |s| && s[i..i + |p|] == p
  }

  /** Python's substring test `p in s`. */
  predicate Contains(s: string, p: string) {
    exists i | 0 <= i <= |s| - |p| :: OccursAt(s, p, i)
  }

  predicate IsDigit(c: char) {
    '0' <= c <= '9'
  }

  predicate AllDigits(s: string) {
    forall i :: 0 <= i < |s| ==> IsDigit(s[i])
  }

  function Digit(n: int): (c: char)
    requires 0 <= n < 10
    ensures IsDigit(c)
    ensures DigitValue(c) == n
  {
    (48 + n) as char
  }

  function DigitValue(c: char): int {
    c as int - 48
  }

  /** Two-digit zero-padded decimal, as `%m`, `%d` and `str.zfill(2)` print it. */
  function Pad2(n: int): (s: string)
    requires 0 <= n < 100
    ensures |s| == 2 && AllDigits(s)
    ensures Decode2(s) == n
  {
    [Digit(n / 10), Digit(n % 10)]
  }

  /** Four-digit zero-padded decimal, as `%Y` prints a year. */
  function Pad4(n: int): (s: string)
    requires 0 <= n < 10000
    ensures |s| == 4 && AllDigits(s)
    ensures Decode4(s) == n
  {
    Pad2(n / 100) + Pad2(n % 100)
  }

  function Decode2(s: string): int
    requires |s| == 2
  {
    10 * DigitValue(s[0]) + DigitValue(s[1])
  }

  function Decode4(s: string): int
    requires |s| == 4
  {
    1000 * DigitValue(s[0]) + 100 * DigitValue(s[1]) + 10 * DigitValue(s[2]) + DigitValue(s[3])
  }

  /** Python's `str(n)` for a non-negative integer: decimal, no leading zeros. */
  function NatToString(n: nat): (s: string)
    ensures 0 < |s| && AllDigits(s)
    ensures n < 10 ==> |s| == 1
    ensures 10 <= n ==> s[0] != '0'
    ensures DecodeDigits(s) == n
  {
    if n < 10 then [Digit(n)] else NatToString(n / 10) + [Digit(n % 10)]
  }

  /** Value of a decimal digit string (the inverse of `NatToString`). */
  function DecodeDigits(s: string): int {
    if s == [] then 0 else 10 * DecodeDigits(s[..|s| - 1]) + DigitValue(s[|s| - 1])
  }

  /** For four-digit numbers `str(n)` and `%04d` print the same text. */
  lemma FourDigitNatToString(n: nat)
    requires 1000 <= n <= 9999
    ensures NatToString(n) == Pad4(n)
  {
    var hi, lo := n / 100, n % 100;
    assert n == 100 * hi + lo;
    assert n / 10 == 10 * hi + lo / 10 && n % 10 == lo % 10;
    assert hi / 10 == n / 1000;
    var ds := [Digit(hi / 10), Digit(hi % 10), Digit(lo / 10), Digit(lo % 10)];
    assert NatToString(hi / 10) == [Digit(hi / 10)];
    assert NatToString(hi) == [Digit(hi / 10), Digit(hi % 10)];
    assert (n / 10) / 10 == hi && (n / 10) % 10 == lo / 10;
    assert NatToString(n / 10) == [Digit(hi / 10), Digit(hi % 10), Digit(lo / 10)];
    assert NatToString(n) == ds;
    assert Pad4(n) == ds;
  }

  /** Python's `s.replace(a, b)` for single characters. */
  function ReplaceChar(s: string, a: char, b: char): (r: string)
    ensures |r| == |s|
    ensures forall i :: 0 <= i < |s| ==> r[i] == (if s[i] == a then b else s[i])
  {
    if s == [] then [] else [if s[0] == a then b else s[0]] + ReplaceChar(s[1..], a, b)
  }

  /** A text `str(y) + "-" + zfill2(w)` determines both numbers. */
  lemma {:induction false} DashKeyInjective(ya: nat, wa: int, yb: nat, wb: int)
    requires 0 <= wa < 100 && 0 <= wb < 100
    requires NatToString(ya) + "-" + Pad2(wa) == NatToString(yb) + "-" + Pad2(wb)
    ensures ya == yb && wa == wb
  {
    var sa, sb := NatToString(ya), NatToString(yb);
    var t := sa + "-" + Pad2(wa);
    assert sa == t[..|sa|] == sb;
    assert Pad2(wa) == t[|sa| + 1..] == Pad2(wb);
  }
}
