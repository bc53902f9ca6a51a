/** Model of capacity/capacity.go and capacity/format.go: sizes in units of 1024, printed from the tail
    of a 32-byte buffer and parsed as a sum of terms, all in 64-bit arithmetic that wraps around. Bytes
    of a string are characters below 256, letters are ASCII. */
module Capacity {
  import opened Wrappers
  import opened Digits

  const MAX: int := 0x7FFF_FFFF_FFFF_FFFF      // 1<<63 - 1
  const TWO64: int := 0x1_0000_0000_0000_0000

  /** What an int64 variable holds after x has been assigned to it. */
  function Wrap(x: int): (w: int)
    ensures -MAX - 1 <= w <= MAX
    ensures -MAX - 1 <= x <= MAX ==> w == x
  {
    var m := x % TWO64;
    if m > MAX then m - TWO64 else m
  }

  /** The tests for overflow after the fact rely on this: one overflow makes the sum negative. */
  lemma WrapDetects(x: int)
    requires 0 <= x <= 2 * MAX + 1
    ensures Wrap(x) < 0 <==> x > MAX
  {
  }

  // ----- numbers

  /** leadingInt, on the value of the digits it consumes. */
  function LeadingIntOf(s: string): (r: Option<(int, string)>)
    ensures r.Some? ==> 0 <= r.value.0 <= MAX && |r.value.1| <= |s|
  {
    var n := DigitRun(s);
    if NumberOf(s[..n]) > MAX then None else Some((NumberOf(s[..n]), s[n..]))
  }

  /** leadingInt: no overflow is missed, and nothing that fits is refused. */
  method LeadingInt(s: string) returns (r: Option<(int, string)>)
    ensures r == LeadingIntOf(s)
  {
    var i, x := 0, 0;
    while i < |s|
      invariant 0 <= i <= DigitRun(s) && AllDigits(s[..i])
      invariant x == NumberOf(s[..i]) <= MAX
    {
      var c := s[i];
      RunStops(s, i);
      if !IsDigit(c) {
        break;
      }
      NextDigit(s, i);
      if x > MAX / 10 {
        return None;
      }
      WrapDetects(10 * x + DigitValue(c));
      x := Wrap(x * 10 + c as int - '0' as int);
      if x < 0 {
        return None;
      }
      i := i + 1;
    }
    RunStops(s, i);
    return Some((x, s[i..]));
  }

  lemma RunStops(s: string, i: nat)
    requires i <= DigitRun(s)
    ensures i == DigitRun(s) <==> i == |s| || !IsDigit(s[i])
  {
    if i < DigitRun(s) { assert IsDigit(s[..DigitRun(s)][i]); }
  }

  lemma NextDigit(s: string, i: nat)
    requires i < DigitRun(s) && AllDigits(s[..i])
    ensures IsDigit(s[i]) && AllDigits(s[..i + 1])
    ensures NumberOf(s[..i + 1]) == 10 * NumberOf(s[..i]) + DigitValue(s[i])
    ensures NumberOf(s[..i + 1]) <= NumberOf(s[..DigitRun(s)])
  {
    var run := s[..DigitRun(s)];
    assert run[..i + 1] == s[..i + 1] && s[..i + 1][..i] == s[..i] && run[i] == s[i];
    NumberOfPrefix(run, i + 1);
  }

  /** How many digits of a run are accumulated before the value stops fitting. */
  function FittingDigits(run: string): (k: nat)
    requires AllDigits(run)
    ensures k <= |run| && NumberOf(run[..k]) <= MAX
  {
    if run == [] then 0
    else
      var k := FittingDigits(run[..|run| - 1]);
      assert run[..|run|] == run && run[..|run| - 1][..k] == run[..k];
      if k == |run| - 1 && NumberOf(run) <= MAX then |run| else k
  }

  /** leadingFraction, with the scale kept as a power of ten. */
  function FractionOf(s: string): (int, nat, string) {
    var run := s[..DigitRun(s)];
    (NumberOf(run[..FittingDigits(run)]), FittingDigits(run), s[DigitRun(s)..])
  }

  /** leadingFraction consumes every leading digit, even after precision has stopped accumulating, and
      x / 10^k is the fraction rounded down in its k-th place, as far as 63 bits go. */
  lemma FractionIsRoundedDown(s: string)
    ensures var (x, k, rem) := FractionOf(s);
            var n := DigitRun(s);
            && rem == s[n..] && k <= n && 0 <= x <= MAX
            && Shift(x, n - k) <= NumberOf(s[..n]) < Shift(x + 1, n - k)
            && (k < n ==> NumberOf(s[..n]) > MAX)
  {
    var run := s[..DigitRun(s)];
    NumberOfPrefix(run, FittingDigits(run));
    FittingIsMaximal(run);
  }

  lemma {:induction false} FittingIsMaximal(run: string)
    requires AllDigits(run)
    ensures FittingDigits(run) == |run| <==> NumberOf(run) <= MAX
  {
    if run != [] {
      FittingIsMaximal(run[..|run| - 1]);
      NumberOfPrefix(run, |run| - 1);
      assert run[..|run|] == run;
    }
  }

  lemma FittingNext(s: string, i: nat, k: nat)
    requires i < |s| && AllDigits(s[..i + 1]) && AllDigits(s[..i]) && k == FittingDigits(s[..i])
    ensures k < i ==> FittingDigits(s[..i + 1]) == k && s[..i + 1][..k] == s[..i][..k]
    ensures k == i ==> FittingDigits(s[..i + 1]) == if NumberOf(s[..i + 1]) <= MAX then i + 1 else i
    ensures k == i ==> s[..i][..k] == s[..i] && s[..i + 1][..i + 1] == s[..i + 1] && s[..i + 1][..i] == s[..i]
  {
    assert s[..i + 1][..i] == s[..i];
  }

  method LeadingFraction(s: string) returns (x: int, k: nat, rem: string)
    ensures (x, k, rem) == FractionOf(s)
  {
    var i, overflow := 0, false;
    x, k := 0, 0;
    assert s[..0] == [] && FittingDigits([]) == NumberOf([]) == 0;
    hide FittingDigits, NumberOf;
    while i < |s|
      invariant 0 <= i <= DigitRun(s) && AllDigits(s[..i])
      invariant k == FittingDigits(s[..i]) && x == NumberOf(s[..i][..k])
      invariant if overflow then k < i else k == i
    {
      var c := s[i];
      RunStops(s, i);
      if !IsDigit(c) {
        break;
      }
      NextDigit(s, i);
      FittingNext(s, i, k);
      i := i + 1;
      if overflow {
        continue;
      }
      if x > MAX / 10 {
        overflow := true;
        continue;
      }
      WrapDetects(10 * x + DigitValue(c));
      var y := Wrap(x * 10 + c as int - '0' as int);
      if y < 0 {
        overflow := true;
        continue;
      }
      x, k := y, k + 1;
    }
    RunStops(s, i);
    rem := s[i..];
  }

  // ----- units

  function Lower(c: char): char {
    if 'A' <= c <= 'Z' then (c as int + 32) as char else c
  }

  function ToLower(s: string): (r: string)
    ensures |r| == |s|
  {
    seq(|s|, i requires 0 <= i < |s| => Lower(s[i]))
  }

  /** unitMap. */
  function UnitOf(u: string): (r: Option<int>)
    ensures r.Some? ==> 0 < r.value <= 0x100_0000_0000
  {
    var l := ToLower(u);
    if l == "b" then Some(1)
    else if l == "kb" || l == "k" then Some(0x400)
    else if l == "mb" || l == "m" then Some(0x10_0000)
    else if l == "gb" || l == "g" then Some(0x4000_0000)
    else if l == "tb" || l == "t" then Some(0x100_0000_0000)
    else None
  }

  predicate StartsNumber(c: char) {
    c == '.' || IsDigit(c)
  }

  /** How many characters come before the next number. */
  function UnitRun(s: string): (n: nat)
    ensures n <= |s| && (forall i :: 0 <= i < n ==> !StartsNumber(s[i]))
    ensures n < |s| ==> StartsNumber(s[n])
  {
    if s == [] || StartsNumber(s[0]) then 0 else 1 + UnitRun(s[1..])
  }

  // ----- parsing

  lemma Times(x: int, y: int, z: int)
    requires x <= y && z >= 0
    ensures x * z <= y * z && z * x <= z * y
  {
  }

  /** Division finds products that are too large. */
  lemma QuotientTest(v: int, unit: int)
    requires v >= 0 && unit > 0
    ensures v > MAX / unit <==> v * unit > MAX
    ensures v * unit >= v
  {
    var q := MAX / unit;
    assert MAX == q * unit + MAX % unit && 0 <= MAX % unit < unit;
    if v > q {
      Times(q + 1, v, unit);
      assert (q + 1) * unit == q * unit + unit;
    } else {
      Times(v, q, unit);
    }
    Times(1, unit, v);
  }

  /** One turn of the loop of ParseCapacities: the amount of the first term, or None for an error, and the
      text behind it. `frac(f, k, unit)` is int64(float64(f) * (float64(unit) / 10^k)). */
  function FirstTerm(s: string, frac: (int, nat, int) -> int): (r: Option<(int, string)>)
    requires s != []
    ensures r.Some? ==> 0 <= r.value.0 <= MAX && |r.value.1| < |s|
  {
    if !StartsNumber(s[0]) then None
    else
      match LeadingIntOf(s)
      case None => None
      case Some((v, s1)) =>
        var dot := s1 != [] && s1[0] == '.';
        var (f, k, s2) := if dot then FractionOf(s1[1..]) else (0, 0, s1);
        var pre, post := |s1| != |s|, dot && |s2| != |s1[1..]|;
        var i := UnitRun(s2);
        if (!pre && !post) || i == 0 then None
        else
          match UnitOf(s2[..i])
          case None => None
          case Some(unit) =>
            QuotientTest(v, unit);
            if v > MAX / unit then None
            else
              var amount := if f > 0 then Wrap(v * unit + frac(f, k, unit)) else v * unit;
              if amount < 0 then None else Some((amount, s2[i..]))
  }

  /** The loop, from the accumulator d on. */
  function ParseTerms(s: string, d: int, frac: (int, nat, int) -> int): Option<int>
    decreases |s|
  {
    if s == [] then Some(d)
    else
      match FirstTerm(s, frac)
      case None => None
      case Some((v, rest)) => if Wrap(d + v) < 0 then None else ParseTerms(rest, Wrap(d + v), frac)
  }

  /** ParseCapacities. */
  function Parse(s: string, frac: (int, nat, int) -> int): Option<int> {
    var signed := s != [] && (s[0] == '-' || s[0] == '+');
    var body := if signed then s[1..] else s;
    if body == "0" then Some(0)
    else if body == [] then None
    else
      match ParseTerms(body, 0, frac)
      case None => None
      case Some(d) => Some(if signed && s[0] == '-' then Wrap(-d) else d)
  }

  method ParseCapacities(orig: string, frac: (int, nat, int) -> int) returns (r: Option<int>)
    ensures r == Parse(orig, frac)
  {
    hide LeadingIntOf, FractionOf, UnitOf, UnitRun, Wrap;
    var s, neg, d := orig, false, 0;
    if s != [] {
      var c := s[0];
      if c == '-' || c == '+' {
        neg := c == '-';
        s := s[1..];
      }
    }
    if s == "0" {
      return Some(0);
    }
    if s == [] {
      return None;
    }
    ghost var body := s;
    while s != []
      invariant ParseTerms(body, 0, frac) == ParseTerms(s, d, frac)
      decreases |s|
    {
      ghost var before := s;
      var f, k := 0, 0;
      if !StartsNumber(s[0]) {
        return None;
      }
      var pl := |s|;
      var lead := LeadingInt(s);
      if lead.None? {
        return None;
      }
      var v := lead.value.0;
      s := lead.value.1;
      var pre := pl != |s|;
      var post := false;
      if s != [] && s[0] == '.' {
        s := s[1..];
        var pl2 := |s|;
        f, k, s := LeadingFraction(s);
        post := pl2 != |s|;
      }
      if !pre && !post {
        return None;
      }
      var i := UnitLength(s);
      if i == 0 {
        return None;
      }
      var unit := UnitOf(s[..i]);
      s := s[i..];
      if unit.None? {
        return None;
      }
      if v > MAX / unit.value {
        return None;
      }
      assert v * unit.value >= 0;
      v := v * unit.value;
      if f > 0 {
        v := Wrap(v + frac(f, k, unit.value));
        if v < 0 {
          return None;
        }
      }
      assert FirstTerm(before, frac) == Some((v, s));
      d := Wrap(d + v);
      if d < 0 {
        return None;
      }
    }
    return Some(if neg then Wrap(-d) else d);
  }

  method UnitLength(s: string) returns (i: nat)
    ensures i == UnitRun(s)
  {
    i := 0;
    while i < |s|
      invariant i <= |s| && UnitRun(s) == i + UnitRun(s[i..])
    {
      if StartsNumber(s[i]) {
        break;
      }
      assert s[i..][1..] == s[i + 1..];
      i := i + 1;
    }
  }
}
