/** Decimal digits, most significant first. */
module Digits {

  predicate IsDigit(c: char) {
    '0' <= c <= '9'
  }

  function DigitValue(c: char): (v: nat)
    requires IsDigit(c)
    ensures v < 10
  {
    c as nat - '0' as nat
  }

  predicate AllDigits(s: string) {
    forall i :: 0 <= i < |s| ==> IsDigit(s[i])
  }

  function NumberOf(s: string): nat
    requires AllDigits(s)
  {
    if s == [] then 0 else 10 * NumberOf(s[..|s| - 1]) + DigitValue(s[|s| - 1])
  }

  function DigitChar(v: nat): (c: char)
    requires v < 10
    ensures IsDigit(c) && DigitValue(c) == v
  {
    (v + '0' as nat) as char
  }

  /** The digits of v without leading zeros; "0" for 0. */
  function Decimal(v: nat): (s: string)
    ensures s != [] && AllDigits(s)
  {
    if v < 10 then [DigitChar(v)] else Decimal(v / 10) + [DigitChar(v % 10)]
  }

  /** Reading undoes printing. */
  lemma {:induction false} NumberOfDecimal(v: nat)
    ensures NumberOf(Decimal(v)) == v
  {
    if v >= 10 {
      NumberOfDecimal(v / 10);
      assert Decimal(v)[..|Decimal(v)| - 1] == Decimal(v / 10);
    } else {
      assert Decimal(v)[..0] == [];
    }
  }

  /** x followed by n zeros. */
  function Shift(x: nat, n: nat): (r: nat)
    ensures x <= r
  {
    if n == 0 then x else 10 * Shift(x, n - 1)
  }

  lemma {:induction false} DecimalLength(v: nat, n: nat)
    requires 0 < n && v < Shift(1, n)
    ensures |Decimal(v)| <= n
  {
    if v >= 10 { DecimalLength(v / 10, n - 1); }
  }

  /** A number is its leading digits, shifted, plus less than one unit of their last place. */
  lemma {:induction false} NumberOfPrefix(s: string, k: nat)
    requires AllDigits(s) && k <= |s|
    ensures AllDigits(s[..k])
    ensures Shift(NumberOf(s[..k]), |s| - k) <= NumberOf(s) < Shift(NumberOf(s[..k]) + 1, |s| - k)
    decreases |s|
  {
    if k == |s| {
      assert s[..k] == s;
    } else {
      var t := s[..|s| - 1];
      NumberOfPrefix(t, k);
      assert t[..k] == s[..k];
    }
  }

  /** How many digits s begins with. */
  function DigitRun(s: string): (n: nat)
    ensures n <= |s| && AllDigits(s[..n])
    ensures n < |s| ==> !IsDigit(s[n])
  {
    if s == [] || !IsDigit(s[0]) then 0
    else
      var n := DigitRun(s[1..]);
      assert s[..1 + n] == [s[0]] + s[1..][..n];
      1 + n
  }

  lemma {:induction false} DigitRunOf(digits: string, rest: string)
    requires AllDigits(digits) && (rest == [] || !IsDigit(rest[0]))
    ensures DigitRun(digits + rest) == |digits|
  {
    if digits == [] {
      assert digits + rest == rest;
    } else {
      DigitRunOf(digits[1..], rest);
      assert (digits + rest)[1..] == digits[1..] + rest;
    }
  }
}
