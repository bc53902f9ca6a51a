/** Sequences without repetitions. */
module Distinct {

  ghost predicate NoRepeats<T(!new)>(s: seq<T>) {
    forall i, j :: 0 <= i < j < |s| ==> s[i] != s[j]
  }

  /** The first occurrence of each element, in order. */
  function FirstOccurrences<T(==,!new)>(s: seq<T>): (r: seq<T>)
    ensures forall x :: x in r <==> x in s
    ensures |r| <= |s|
  {
    if s == [] then []
    else
      var r, x := FirstOccurrences(s[..|s| - 1]), s[|s| - 1];
      assert s == s[..|s| - 1] + [x];
      if x in r then r else r + [x]
  }

  lemma {:induction false} FirstOccurrencesDiffer<T(!new)>(s: seq<T>)
    ensures NoRepeats(FirstOccurrences(s))
  {
    if s != [] { FirstOccurrencesDiffer(s[..|s| - 1]); }
  }

  /** The elements stand in the order in which they first come. */
  lemma {:induction false} FirstOccurrencesInOrder<T(!new)>(s: seq<T>, i: nat, j: nat)
    requires i < j < |FirstOccurrences(s)|
    ensures exists k :: 0 <= k < |s| && FirstOccurrences(s)[i] in s[..k] && FirstOccurrences(s)[j] !in s[..k]
  {
    var init, r := s[..|s| - 1], FirstOccurrences(s);
    if j < |FirstOccurrences(init)| {
      FirstOccurrencesInOrder(init, i, j);
      var k :| 0 <= k < |init| && r[i] in init[..k] && r[j] !in init[..k];
      assert s[..k] == init[..k];
    } else {
      assert r[i] in FirstOccurrences(init) && r[j] !in FirstOccurrences(init);
      assert s[..|s| - 1] == init;
    }
  }

  lemma {:induction false} NoRepeatsIsFixed<T(!new)>(s: seq<T>)
    requires NoRepeats(s)
    ensures FirstOccurrences(s) == s
  {
    if s != [] { NoRepeatsIsFixed(s[..|s| - 1]); }
  }

  lemma {:induction false} FirstOccurrencesGrow<T(!new)>(s: seq<T>, t: seq<T>)
    ensures FirstOccurrences(s) <= FirstOccurrences(s + t)
  {
    if t == [] {
      assert s + t == s;
    } else {
      FirstOccurrencesGrow(s, t[..|t| - 1]);
      assert (s + t)[..|s + t| - 1] == s + t[..|t| - 1];
    }
  }
}
