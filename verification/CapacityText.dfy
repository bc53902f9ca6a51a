/** What the capacity parser accepts, stated by a grammar of its own: a sign and terms of a number and a
    unit. And the printer of capacity/capacity.go, whose output is such a text. */
module CapacityText {
  import opened Wrappers
  import opened Digits
  import opened Capacity

  // ----- texts without fractions

  datatype Term = Term(digits: string, unit: string)

  predicate GoodTerm(t: Term) {
    t.digits != [] && AllDigits(t.digits) && UnitOf(t.unit).Some?
  }

  predicate GoodTerms(ts: seq<Term>) {
    forall i :: 0 <= i < |ts| ==> GoodTerm(ts[i])
  }

  function Text(ts: seq<Term>): string {
    if ts == [] then "" else ts[0].digits + ts[0].unit + Text(ts[1..])
  }

  function TermAmount(t: Term): nat
    requires GoodTerm(t)
  {
    NumberOf(t.digits) * UnitOf(t.unit).value
  }

  /** The sum in unbounded arithmetic. */
  function Amount(ts: seq<Term>): nat
    requires GoodTerms(ts)
  {
    if ts == [] then 0 else TermAmount(ts[0]) + Amount(ts[1..])
  }

  /** Units are letters. */
  lemma UnitsAreLetters(u: string)
    requires UnitOf(u).Some?
    ensures u != [] && forall i :: 0 <= i < |u| ==> !StartsNumber(u[i])
  {
    var l := ToLower(u);
    forall i | 0 <= i < |u|
      ensures !StartsNumber(u[i])
    {
      assert l[i] == Lower(u[i]);
    }
  }

  lemma {:induction false} UnitRunOf(unit: string, rest: string)
    requires forall i :: 0 <= i < |unit| ==> !StartsNumber(unit[i])
    requires rest == [] || StartsNumber(rest[0])
    ensures UnitRun(unit + rest) == |unit|
  {
    if unit == [] {
      assert unit + rest == rest;
    } else {
      UnitRunOf(unit[1..], rest);
      assert (unit + rest)[1..] == unit[1..] + rest;
    }
  }

  lemma TextStartsNumber(ts: seq<Term>)
    requires GoodTerms(ts)
    ensures Text(ts) == [] <==> ts == []
    ensures ts != [] ==> IsDigit(Text(ts)[0])
  {
    if ts != [] { assert Text(ts)[0] == ts[0].digits[0]; }
  }

  lemma LeadingIntReads(digits: string, tail: string)
    requires AllDigits(digits) && (tail == [] || !IsDigit(tail[0]))
    ensures LeadingIntOf(digits + tail) == if NumberOf(digits) > MAX then None else Some((NumberOf(digits), tail))
  {
    DigitRunOf(digits, tail);
    assert (digits + tail)[..|digits|] == digits && (digits + tail)[|digits|..] == tail;
  }

  /** The first term of a text is read back, or refused because it does not fit. */
  lemma FirstTermOf(t: Term, rest: string, frac: (int, nat, int) -> int)
    requires GoodTerm(t) && (rest == [] || IsDigit(rest[0]))
    ensures FirstTerm(t.digits + (t.unit + rest), frac) ==
            if TermAmount(t) > MAX then None else Some((TermAmount(t), rest))
  {
    hide UnitOf, LeadingIntOf, UnitRun, FractionOf, NumberOf;
    var tail := t.unit + rest;
    UnitsAreLetters(t.unit);
    LeadingIntReads(t.digits, tail);
    UnitRunOf(t.unit, rest);
    assert tail[..|t.unit|] == t.unit && tail[|t.unit|..] == rest;
    QuotientTest(NumberOf(t.digits), UnitOf(t.unit).value);
  }

  lemma {:induction false} TermsParse(ts: seq<Term>, d: int, frac: (int, nat, int) -> int)
    requires GoodTerms(ts) && 0 <= d <= MAX
    ensures ParseTerms(Text(ts), d, frac) == if d + Amount(ts) > MAX then None else Some(d + Amount(ts))
    decreases |ts|
  {
    hide FirstTerm;
    TextStartsNumber(ts);
    if ts != [] {
      var v := TermAmount(ts[0]);
      TextStartsNumber(ts[1..]);
      FirstTermOf(ts[0], Text(ts[1..]), frac);
      assert Text(ts) == ts[0].digits + (ts[0].unit + Text(ts[1..]));
      if v <= MAX {
        WrapDetects(d + v);
        if d + v <= MAX { TermsParse(ts[1..], d + v, frac); }
      }
    }
  }

  function Signed(neg: bool, x: int): int {
    if neg then -x else x
  }

  predicate IsSign(sign: string) {
    sign == "" || sign == "+" || sign == "-"
  }

  /** Every text of one or more terms, with or without a sign, has exactly the signed sum as its value if
      the sum without the sign fits into 63 bits, and is refused otherwise. */
  lemma WellFormedTextParses(sign: string, ts: seq<Term>, frac: (int, nat, int) -> int)
    requires IsSign(sign) && GoodTerms(ts) && ts != []
    ensures Parse(sign + Text(ts), frac) ==
            if Amount(ts) > MAX then None else Some(Signed(sign == "-", Amount(ts)))
  {
    hide Text, ParseTerms, Amount;
    TextStartsNumber(ts);
    TermsParse(ts, 0, frac);
    LongText(ts);
    var s := sign + Text(ts);
    if sign == "" { assert s == Text(ts); } else { assert s[1..] == Text(ts); }
  }

  lemma LongText(ts: seq<Term>)
    requires GoodTerms(ts) && ts != []
    ensures |Text(ts)| >= 2
  {
    UnitsAreLetters(ts[0].unit);
  }

  // ----- and nothing else is accepted

  /** A term that is read without a decimal point is a number and a unit. */
  lemma FirstTermIsGood(s: string, frac: (int, nat, int) -> int) returns (t: Term)
    requires s != [] && '.' !in s && FirstTerm(s, frac).Some?
    ensures GoodTerm(t) && s == t.digits + t.unit + FirstTerm(s, frac).value.1
  {
    hide UnitOf, NumberOf, FractionOf, UnitRun, DigitRun;
    var n := DigitRun(s);
    var s1 := s[n..];
    assert s1 != [] ==> s1[0] in s;
    var i := UnitRun(s1);
    t := Term(s[..n], s1[..i]);
    CutTwice(s, n, i);
  }

  lemma CutTwice(s: string, n: nat, i: nat)
    requires n + i <= |s|
    ensures s == s[..n] + s[n..][..i] + s[n..][i..]
  {
  }

  lemma {:induction false} AcceptedTerms(s: string, d: int, frac: (int, nat, int) -> int) returns (ts: seq<Term>)
    requires '.' !in s && ParseTerms(s, d, frac).Some?
    ensures GoodTerms(ts) && Text(ts) == s
    decreases |s|
  {
    hide FirstTerm;
    if s == [] {
      ts := [];
    } else {
      var (v, rest) := FirstTerm(s, frac).value;
      var t := FirstTermIsGood(s, frac);
      assert forall c :: c in rest ==> c in s;
      var more := AcceptedTerms(rest, Wrap(d + v), frac);
      ts := [t] + more;
      assert ts[1..] == more;
    }
  }

  /** A text without decimal points that is accepted is "0" or a sequence of terms, behind a sign. */
  lemma AcceptedIsWellFormed(s: string, frac: (int, nat, int) -> int) returns (sign: string, ts: seq<Term>)
    requires '.' !in s && Parse(s, frac).Some?
    ensures IsSign(sign) && GoodTerms(ts)
    ensures s == sign + (if ts == [] then "0" else Text(ts))
  {
    hide ParseTerms, Text;
    var signed := s != [] && (s[0] == '-' || s[0] == '+');
    sign := if signed then [s[0]] else "";
    var body := if signed then s[1..] else s;
    assert s == sign + body;
    ts := [];
    if body != "0" {
      assert forall c :: c in body ==> c in s;
      ts := AcceptedTerms(body, 0, frac);
      TextStartsNumber(ts);
    }
  }

  // ----- printing

  function Unit(k: nat): (u: string)
    requires k < 5
    ensures |u| == if k == 0 then 1 else 2
  {
    ["B", "KB", "MB", "GB", "TB"][k]
  }

  /** The text for u units of 1024^k: the higher units first, zeros left out, nothing beyond terabytes. */
  function Rendered(u: nat, k: nat): string
    requires k <= 5
    decreases 5 - k
  {
    if k == 5 || u == 0 then ""
    else Rendered(u / 1024, k + 1) + if u % 1024 > 0 then Decimal(u % 1024) + Unit(k) else ""
  }

  /** Capacities.String; None is the nil receiver. */
  function Shown(c: Option<int>): string {
    match c
    case None => ""
    case Some(v) => (if v < 0 then "-" else "") + Rendered(if v < 0 then -v else v, 0)
  }

  /** buf has `text` at index `from`. */
  ghost predicate Reads(buf: array<char>, from: nat, text: string)
    reads buf
  {
    from + |text| <= buf.Length && forall i :: from <= i < from + |text| ==> buf[i] == text[i - from]
  }

  lemma ReadsNothing(buf: array<char>)
    ensures Reads(buf, buf.Length, "")
  {
  }

  lemma ReadsTail(buf: array<char>, from: nat, head: string, tail: string)
    requires Reads(buf, from, head + tail)
    ensures Reads(buf, from + |head|, tail)
  {
    forall i | from + |head| <= i < from + |head| + |tail|
      ensures buf[i] == tail[i - from - |head|]
    {
      assert (head + tail)[i - from] == tail[i - from - |head|];
    }
  }

  lemma ReadsToEnd(buf: array<char>, from: nat, text: string)
    requires Reads(buf, from, text) && from + |text| == buf.Length
    ensures buf[from..] == text
  {
  }

  /** fmtInt: v in decimal, at the tail of buf[..end]. */
  method FmtInt(buf: array<char>, end: nat, v: nat, ghost rest: string) returns (w: nat)
    requires |Decimal(v)| <= end && Reads(buf, end, rest)
    modifies buf
    ensures w == end - |Decimal(v)| && Reads(buf, w, Decimal(v) + rest)
    ensures forall i :: 0 <= i < buf.Length && !(w <= i < end) ==> buf[i] == old(buf[i])
  {
    hide Decimal;
    Zero();
    w := end;
    if v == 0 {
      w := w - 1;
      buf[w] := '0';
    } else {
      var u := v;
      ghost var tail := "";
      while u > 0
        invariant 0 <= w == end - |tail| && (u > 0 ==> |Decimal(u)| <= w)
        invariant Decimal(v) == (if u > 0 then Decimal(u) else "") + tail
        invariant Reads(buf, w, tail)
        invariant forall i :: 0 <= i < buf.Length && !(w <= i < end) ==> buf[i] == old(buf[i])
      {
        w := w - 1;
        buf[w] := DigitChar(u % 10);
        LastDigit(u, tail);
        tail := [DigitChar(u % 10)] + tail;
        u := u / 10;
      }
    }
  }

  lemma Zero()
    ensures Decimal(0) == "0"
  {
  }

  lemma LastDigit(u: nat, tail: string)
    requires u > 0
    ensures |Decimal(u)| == 1 + if u / 10 > 0 then |Decimal(u / 10)| else 0
    ensures Decimal(u) + tail == (if u / 10 > 0 then Decimal(u / 10) else "") + ([DigitChar(u % 10)] + tail)
  {
  }

  /** The unit's bytes, at buf[w..]. */
  method PutUnit(buf: array<char>, w: nat, unit: string, ghost rest: string)
    requires Reads(buf, w + |unit|, rest)
    modifies buf
    ensures Reads(buf, w, unit + rest)
    ensures forall i :: 0 <= i < buf.Length && !(w <= i < w + |unit|) ==> buf[i] == old(buf[i])
  {
    for i := 0 to |unit|
      invariant forall j :: w <= j < w + i ==> buf[j] == unit[j - w]
      invariant forall j :: 0 <= j < buf.Length && !(w <= j < w + i) ==> buf[j] == old(buf[j])
    {
      buf[w + i] := unit[i];
    }
  }

  /** `done` behind the text for v units, if there are any. */
  function WithTerm(v: nat, k: nat, done: string): string
    requires k < 5
  {
    if v > 0 then Decimal(v) + (Unit(k) + done) else done
  }

  /** One turn of the loop of String: the unit is written first, and given up again for zero. */
  method PutTerm(buf: array<char>, end: nat, v: nat, k: nat, ghost done: string) returns (w: nat)
    requires v < 1024 && k < 5 && |Unit(k)| + 4 <= end && end + |done| == buf.Length && Reads(buf, end, done)
    modifies buf
    ensures w + |WithTerm(v, k, done)| == buf.Length && Reads(buf, w, WithTerm(v, k, done))
    ensures w >= end - |Unit(k)| - 4
  {
    hide Decimal, Unit, Reads;
    var unit := Unit(k);
    w := end - |unit|;
    PutUnit(buf, w, unit, done);
    if v > 0 {
      DecimalLength(v, 4);
      w := FmtInt(buf, w, v, unit + done);
    } else {
      ReadsTail(buf, w, unit, done);
      w := w + |unit|;
    }
  }

  /** Capacities.String, in its buffer of 32 bytes. */
  method String(c: Option<int>) returns (text: string)
    requires c.Some? ==> -MAX - 1 <= c.value <= MAX
    ensures text == Shown(c)
  {
    hide Decimal, Unit, Rendered, Reads, WithTerm;
    var buf := new char[32];
    var w := 32;
    ReadsNothing(buf);
    if c.None? {
      return "";
    }
    var u := c.value % TWO64;  // uint64(*c)
    var neg := c.value < 0;
    if neg {
      u := (TWO64 - u) % TWO64;
    }
    assert u == if neg then -c.value else c.value;
    ghost var start, done := u, "";
    var k := 0;
    while k < 5
      invariant 0 <= k <= 5 && u >= 0 && 0 <= w == 32 - |done| && Reads(buf, w, done)
      invariant w >= 32 - (if k == 0 then 0 else 6 * k - 1)
      invariant Rendered(start, 0) == Rendered(u, k) + done
    {
      if u > 0 {
        RenderedStep(u, k, done);
        w := PutTerm(buf, w, u % 1024, k, done);
        done := WithTerm(u % 1024, k, done);
        u := u / 1024;
      } else {
        break;
      }
      k := k + 1;
    }
    RenderedNothing(u, k);
    if neg {
      w := w - 1;
      PutUnit(buf, w, "-", done);
      done := "-" + done;
    }
    ReadsToEnd(buf, w, done);
    return buf[w..];
  }

  lemma RenderedNothing(u: nat, k: nat)
    requires k <= 5 && (k == 5 || u == 0)
    ensures Rendered(u, k) == ""
  {
  }

  lemma RenderedStep(u: nat, k: nat, done: string)
    requires u > 0 && k < 5
    ensures Rendered(u, k) + done ==
            Rendered(u / 1024, k + 1) + WithTerm(u % 1024, k, done)
  {
  }

  // ----- what is printed is read back

  /** The terms that Rendered prints. */
  function TermsOf(u: nat, k: nat): seq<Term>
    requires k <= 5
    decreases 5 - k
  {
    if k == 5 || u == 0 then []
    else TermsOf(u / 1024, k + 1) + if u % 1024 > 0 then [Term(Decimal(u % 1024), Unit(k))] else []
  }

  function UnitSize(k: nat): nat
    requires k < 5
  {
    [1, 0x400, 0x10_0000, 0x4000_0000, 0x100_0000_0000][k]
  }

  /** What is left of u units of 1024^k when multiples of 1024^5 are dropped, in bytes. */
  function Printed(u: nat, k: nat): nat
    requires k <= 5
    decreases 5 - k
  {
    if k == 5 || u == 0 then 0 else Printed(u / 1024, k + 1) + u % 1024 * UnitSize(k)
  }

  lemma UnitsFit(k: nat)
    requires k < 5
    ensures UnitOf(Unit(k)) == Some(UnitSize(k))
  {
    assert ToLower("B") == "b" && ToLower("KB") == "kb" && ToLower("MB") == "mb";
    assert ToLower("GB") == "gb" && ToLower("TB") == "tb";
  }

  lemma {:induction false} TextSnoc(ts: seq<Term>, t: Term)
    ensures Text(ts + [t]) == Text(ts) + (t.digits + t.unit)
  {
    if ts == [] {
      assert (ts + [t])[1..] == [];
    } else {
      TextSnoc(ts[1..], t);
      assert (ts + [t])[1..] == ts[1..] + [t];
    }
  }

  lemma {:induction false} AmountSnoc(ts: seq<Term>, t: Term)
    requires GoodTerms(ts) && GoodTerm(t)
    ensures GoodTerms(ts + [t]) && Amount(ts + [t]) == Amount(ts) + TermAmount(t)
  {
    if ts == [] {
      assert (ts + [t])[1..] == [];
    } else {
      AmountSnoc(ts[1..], t);
      assert (ts + [t])[1..] == ts[1..] + [t];
    }
  }

  /** One more term for v units. */
  lemma TermAdded(ts: seq<Term>, v: nat, k: nat)
    requires GoodTerms(ts) && v > 0 && k < 5
    ensures var more := ts + [Term(Decimal(v), Unit(k))];
            && GoodTerms(more) && Text(more) == Text(ts) + (Decimal(v) + Unit(k))
            && Amount(more) == Amount(ts) + v * UnitSize(k) && v * UnitSize(k) > 0
  {
    hide Decimal, UnitOf, Unit, UnitSize, NumberOf, Text, Amount;
    var t := Term(Decimal(v), Unit(k));
    UnitsFit(k);
    NumberOfDecimal(v);
    TextSnoc(ts, t);
    AmountSnoc(ts, t);
    UnitIsPositive(k);
  }

  /** The printer prints terms, and they add up to what it does not drop. */
  lemma {:induction false} RenderedIsText(u: nat, k: nat)
    requires k <= 5
    ensures GoodTerms(TermsOf(u, k)) && Text(TermsOf(u, k)) == Rendered(u, k)
    ensures Amount(TermsOf(u, k)) == Printed(u, k)
    ensures TermsOf(u, k) == [] <==> Printed(u, k) == 0
    decreases 5 - k
  {
    if k == 5 || u == 0 {
      NoText();
    } else {
      Unfolded(u, k);
      hide *;
      RenderedIsText(u / 1024, k + 1);
      if u % 1024 > 0 { TermAdded(TermsOf(u / 1024, k + 1), u % 1024, k); }
    }
  }

  /** One step of the three functions. */
  lemma Unfolded(u: nat, k: nat)
    requires k < 5 && u > 0
    ensures TermsOf(u, k) ==
            var more := TermsOf(u / 1024, k + 1);
            if u % 1024 > 0 then more + [Term(Decimal(u % 1024), Unit(k))] else more
    ensures Rendered(u, k) ==
            var more := Rendered(u / 1024, k + 1);
            if u % 1024 > 0 then more + (Decimal(u % 1024) + Unit(k)) else more
    ensures Printed(u, k) ==
            Printed(u / 1024, k + 1) + if u % 1024 > 0 then u % 1024 * UnitSize(k) else 0
  {
    hide Decimal, Unit, UnitSize;
  }

  lemma UnitIsPositive(k: nat)
    requires k < 5
    ensures UnitSize(k) > 0
  {
  }

  lemma NoText()
    ensures GoodTerms([]) && Text([]) == "" && Amount([]) == 0
  {
  }

  const PETABYTE: int := 0x4_0000_0000_0000   // 1024^5

  lemma PrintedIsRemainder(u: nat)
    ensures Printed(u, 0) == u % PETABYTE
  {
    var q1 := u / 1024;
    var q2 := q1 / 1024;
    var q3 := q2 / 1024;
    var q4 := q3 / 1024;
    var q5 := q4 / 1024;
    assert Printed(q4, 4) == q4 % 1024 * 0x100_0000_0000;
    assert Printed(q3, 3) == Printed(q4, 4) + q3 % 1024 * 0x4000_0000;
    assert Printed(q2, 2) == Printed(q3, 3) + q2 % 1024 * 0x10_0000;
    assert Printed(q1, 1) == Printed(q2, 2) + q1 % 1024 * 0x400;
    assert Printed(u, 0) == Printed(q1, 1) + u % 1024;
    RemainderOf(u, q5, Printed(u, 0));
  }

  lemma RemainderOf(u: int, q: int, r: int)
    requires u == q * PETABYTE + r && 0 <= r < PETABYTE
    ensures u % PETABYTE == r
  {
  }

  /** Parsing what String prints, for every int64: the amount modulo 1024^5 with its sign, or an error
      where that is zero, since then no term is printed. */
  lemma PrintedParses(c: int, frac: (int, nat, int) -> int)
    requires -MAX - 1 <= c <= MAX
    ensures var u := (if c < 0 then -c else c) % PETABYTE;
            Parse(Shown(Some(c)), frac) == if u == 0 then None else Some(Signed(c < 0, u))
  {
    hide Rendered, TermsOf, Printed, Parse, Text;
    var v := if c < 0 then -c else c;
    RenderedIsText(v, 0);
    PrintedIsRemainder(v);
    var sign := if c < 0 then "-" else "";
    if TermsOf(v, 0) != [] {
      WellFormedTextParses(sign, TermsOf(v, 0), frac);
    } else {
      NoText();
      SignAloneIsRefused(frac);
    }
  }

  lemma SignAloneIsRefused(frac: (int, nat, int) -> int)
    ensures Parse("" + "", frac) == Parse("-" + "", frac) == None
  {
  }

  /** Printing and parsing give c back exactly when its magnitude is neither zero nor 1024^5 or more. */
  lemma RoundTripExactly(c: int, frac: (int, nat, int) -> int)
    requires -MAX - 1 <= c <= MAX
    ensures Parse(Shown(Some(c)), frac) == Some(c) <==> c != 0 && -PETABYTE < c < PETABYTE
  {
    hide Parse, Shown;
    PrintedParses(c, frac);
  }
}
