/** The names of the units, and what is parsed and printed in terms of them, with every number written out. */
module CapacityUnits {
  import opened Wrappers
  import opened Digits
  import opened Capacity
  import opened CapacityText

  /** u is `name`, a lower-case word, in letters of either case. */
  predicate Spells(u: string, name: string) {
    |u| == |name| && forall i :: 0 <= i < |u| ==> u[i] == name[i] || u[i] as int + 32 == name[i] as int
  }

  predicate IsWord(name: string) {
    forall i :: 0 <= i < |name| ==> 'a' <= name[i] <= 'z'
  }

  /** The nine names. */
  function SizeOfName(u: string): Option<int> {
    if Spells(u, "b") then Some(1)
    else if Spells(u, "k") || Spells(u, "kb") then Some(1024)
    else if Spells(u, "m") || Spells(u, "mb") then Some(1024 * 1024)
    else if Spells(u, "g") || Spells(u, "gb") then Some(1024 * 1024 * 1024)
    else if Spells(u, "t") || Spells(u, "tb") then Some(1024 * 1024 * 1024 * 1024)
    else None
  }

  lemma LowerSpells(u: string, name: string)
    requires IsWord(name)
    ensures ToLower(u) == name <==> Spells(u, name)
  {
    if ToLower(u) == name {
      assert forall i :: 0 <= i < |u| ==> ToLower(u)[i] == Lower(u[i]);
    }
    if Spells(u, name) { assert forall i :: 0 <= i < |u| ==> ToLower(u)[i] == name[i]; }
  }

  lemma UnitTable(u: string)
    ensures UnitOf(u) == SizeOfName(u)
  {
    hide ToLower, Spells;
    LowerSpells(u, "b");
    LowerSpells(u, "k");
    LowerSpells(u, "kb");
    LowerSpells(u, "m");
    LowerSpells(u, "mb");
    LowerSpells(u, "g");
    LowerSpells(u, "gb");
    LowerSpells(u, "t");
    LowerSpells(u, "tb");
  }

  /** A text without digits and points. */
  predicate IsUnitText(u: string) {
    u != [] && forall i :: 0 <= i < |u| ==> u[i] != '.' && !IsDigit(u[i])
  }

  /** A number, a point and places, and a unit: what the loop of the parser makes of them. Without a point
      `places` is empty. */
  function TermValue(number: int, places: int, k: nat, size: int, frac: (int, nat, int) -> int): Option<int> {
    if number * size > 0x7FFF_FFFF_FFFF_FFFF then None
    else if places == 0 then Some(number * size)
    else
      var sum := Wrap(number * size + frac(places, k, size));
      if sum < 0 then None else Some(sum)
  }

  lemma NoTermsLeft(v: Option<(int, string)>, s: string, frac: (int, nat, int) -> int)
    requires s != [] && FirstTerm(s, frac) == v && (v.Some? ==> v.value.1 == [])
    ensures ParseTerms(s, 0, frac) == if v.None? then None else Some(v.value.0)
  {
    if v.Some? { assert Wrap(0 + v.value.0) == v.value.0; }
  }

  lemma UnsignedParse(s: string, frac: (int, nat, int) -> int)
    requires |s| >= 2 && StartsNumber(s[0])
    ensures Parse(s, frac) == ParseTerms(s, 0, frac)
  {
    hide ParseTerms;
  }

  /** Digits and a unit in letters of either case: the number of the digits times 1, 1024, 1024^2, 1024^3 or
      1024^4, if that is at most 2^63 - 1, and an error otherwise; and an error for any other name. */
  lemma NumberWithUnit(digits: string, u: string, frac: (int, nat, int) -> int)
    requires digits != [] && AllDigits(digits) && IsUnitText(u)
    ensures Parse(digits + u, frac) ==
            match SizeOfName(u)
            case None => None
            case Some(size) => TermValue(NumberOf(digits), 0, 0, size, frac)
  {
    hide UnitOf, LeadingIntOf, UnitRun, FractionOf, NumberOf, ParseTerms, Parse, Wrap;
    var s := digits + u;
    LeadingIntReads(digits, u);
    assert u + [] == u && u[..|u|] == u && u[|u|..] == [];
    UnitRunOf(u, []);
    UnitTable(u);
    if UnitOf(u).Some? { QuotientTest(NumberOf(digits), UnitOf(u).value); }
    hide SizeOfName;
    assert StartsNumber(s[0]) by { assert s[0] == digits[0]; }
    NoTermsLeft(FirstTerm(s, frac), s, frac);
    UnsignedParse(s, frac);
  }

  /** Places, as far as they fit into 63 bits; all of them do if their number does. */
  lemma FractionReads(places: string, u: string)
    requires AllDigits(places) && IsUnitText(u)
    ensures FractionOf(places + u) == (FractionOf(places).0, FractionOf(places).1, u)
    ensures NumberOf(places) <= 0x7FFF_FFFF_FFFF_FFFF ==> FractionOf(places) == (NumberOf(places), |places|, "")
  {
    hide NumberOf;
    DigitRunOf(places, u);
    DigitRunOf(places, []);
    assert places + [] == places && places[..|places|] == places;
    assert (places + u)[..|places|] == places && (places + u)[|places|..] == u;
    FittingIsMaximal(places);
  }

  /** The first term of digits, a point, places and a unit. */
  lemma FirstTermWithPoint(digits: string, places: string, u: string, frac: (int, nat, int) -> int)
    requires AllDigits(digits) && AllDigits(places) && (digits != [] || places != []) && IsUnitText(u)
    ensures var v := FirstTerm(digits + ("." + (places + u)), frac);
            match SizeOfName(u)
            case None => v == None
            case Some(size) =>
              v == match TermValue(NumberOf(digits), FractionOf(places).0, FractionOf(places).1, size, frac)
                   case None => None
                   case Some(amount) => Some((amount, []))
  {
    hide UnitOf, LeadingIntOf, UnitRun, FractionOf, NumberOf, Wrap;
    var tail := "." + (places + u);
    LeadingIntReads(digits, tail);
    FractionReads(places, u);
    FractionIsNatural(places);
    assert tail[1..] == places + u && |tail| == 1 + |places| + |u|;
    assert u + [] == u && u[..|u|] == u && u[|u|..] == [];
    UnitRunOf(u, []);
    UnitTable(u);
    SizeIsPositive(u);
    hide SizeOfName;
    if UnitOf(u).Some? { QuotientTest(NumberOf(digits), UnitOf(u).value); }
    StartsWithNumber(digits, tail);
  }

  lemma FractionIsNatural(places: string)
    ensures FractionOf(places).0 >= 0
  {
  }

  lemma SizeIsPositive(u: string)
    ensures SizeOfName(u).Some? ==> SizeOfName(u).value >= 1
  {
  }

  lemma StartsWithNumber(digits: string, tail: string)
    requires AllDigits(digits) && tail != [] && tail[0] == '.'
    ensures digits + tail != [] && StartsNumber((digits + tail)[0])
  {
    assert digits != [] ==> (digits + tail)[0] == digits[0];
  }

  /** With a point: the places count as frac says, for as many places as there are, or as fit into 63 bits,
      unless they are all zero. */
  lemma FractionWithUnit(digits: string, places: string, u: string, frac: (int, nat, int) -> int)
    requires AllDigits(digits) && AllDigits(places) && (digits != [] || places != []) && IsUnitText(u)
    ensures Parse(digits + ("." + (places + u)), frac) ==
            match SizeOfName(u)
            case None => None
            case Some(size) => TermValue(NumberOf(digits), FractionOf(places).0, FractionOf(places).1, size, frac)
  {
    hide SizeOfName, TermValue, FirstTerm, ParseTerms, Parse, FractionOf, NumberOf;
    var s := digits + ("." + (places + u));
    FirstTermWithPoint(digits, places, u, frac);
    StartsWithNumber(digits, "." + (places + u));
    NoTermsLeft(FirstTerm(s, frac), s, frac);
    UnsignedParse(s, frac);
  }

  /** A zero needs no unit, with or without a sign; without anything there is no number. */
  lemma ZeroParses(frac: (int, nat, int) -> int)
    ensures Parse("0", frac) == Parse("+0", frac) == Parse("-0", frac) == Some(0)
    ensures Parse("", frac) == Parse("+", frac) == Parse("-", frac) == None
  {
    assert "+0"[1..] == "-0"[1..] == "0" && "+"[1..] == "-"[1..] == "";
  }

  // ----- printing

  /** x and its unit; nothing for zero. */
  function Part(x: nat, name: string): string {
    if x == 0 then "" else Decimal(x) + name
  }

  lemma RenderedPart(low: nat, high: nat, k: nat)
    requires low < 1024 && k < 5
    ensures Rendered(1024 * high + low, k) == Rendered(high, k + 1) + Part(low, Unit(k))
  {
    hide Decimal, Unit;
    var u := 1024 * high + low;
    assert u / 1024 == high && u % 1024 == low;
    assert u == 0 ==> Rendered(high, k + 1) == "";
  }

  /** What String prints for t terabytes, g gigabytes, m megabytes, k kilobytes and b bytes. */
  lemma ShownParts(t: nat, g: nat, m: nat, k: nat, b: nat)
    requires t < 1024 && g < 1024 && m < 1024 && k < 1024 && b < 1024
    ensures var c := 1024 * (1024 * (1024 * (1024 * t + g) + m) + k) + b;
            var text := Part(t, "TB") + Part(g, "GB") + Part(m, "MB") + Part(k, "KB") + Part(b, "B");
            && Shown(Some(c)) == text && (c > 0 ==> Shown(Some(-c)) == "-" + text)
  {
    hide Decimal, Rendered, Part;
    RenderedPart(b, 1024 * (1024 * (1024 * t + g) + m) + k, 0);
    RenderedPart(k, 1024 * (1024 * t + g) + m, 1);
    RenderedPart(m, 1024 * t + g, 2);
    RenderedPart(g, t, 3);
    RenderedPart(t, 0, 4);
    RenderedNothing(0, 5);
    assert "" + Part(t, "TB") == Part(t, "TB");
    var c := 1024 * (1024 * (1024 * (1024 * t + g) + m) + k) + b;
    assert "" + Rendered(c, 0) == Rendered(c, 0);
  }

  /** The decimal digits of a number other than zero do not start with a zero. */
  lemma {:induction false} DecimalStarts(v: nat)
    requires v > 0
    ensures Decimal(v)[0] != '0'
  {
    if v >= 10 { DecimalStarts(v / 10); }
  }

  /** Digits stand with the highest place first. */
  lemma DigitsByPlace()
    ensures Decimal(1023) == "1023" && NumberOf("1023") == 1023
  {
    assert Decimal(102) == Decimal(10) + "2" && Decimal(10) == "10" && Decimal(1023) == Decimal(102) + "3";
    NumberOfDecimal(1023);
  }
}
