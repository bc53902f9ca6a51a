/** Model of extLogger.Log in log/ext.go: it compacts the list of keys and values in place before the list
    goes to the logger below. */
module LogExt {

  /** An interface value, as far as the type switch on keys can tell them apart. */
  datatype Any = CallerName | WithPrint | MissingValue | Other(id: int)

  type Pair = (Any, Any)

  // ----- what is passed on

  /** The values of the withPrint pairs, in order. */
  function Printed(ps: seq<Pair>): seq<Any> {
    if ps == [] then []
    else Printed(ps[..|ps| - 1]) + if ps[|ps| - 1].0 == WithPrint then [ps[|ps| - 1].1] else []
  }

  /** The other pairs, in order. */
  function Unprinted(ps: seq<Pair>): seq<Pair> {
    if ps == [] then []
    else Unprinted(ps[..|ps| - 1]) + if ps[|ps| - 1].0 == WithPrint then [] else [ps[|ps| - 1]]
  }

  function WithoutCallers(ps: seq<Pair>): seq<Pair> {
    if ps == [] then []
    else WithoutCallers(ps[..|ps| - 1]) + if ps[|ps| - 1].0 == CallerName then [] else [ps[|ps| - 1]]
  }

  /** The index of the first caller pair, |ps| if there is none. */
  function FirstCaller(ps: seq<Pair>): (i: nat)
    ensures i <= |ps| && (i < |ps| ==> ps[i].0 == CallerName)
    ensures forall k :: 0 <= k < i ==> ps[k].0 != CallerName
  {
    if ps == [] then 0
    else
      var i := FirstCaller(ps[..|ps| - 1]);
      if i == |ps| - 1 && ps[i].0 != CallerName then |ps| else i
  }

  /** The value of the last caller pair. */
  function LastCallerValue(ps: seq<Pair>): Any
    requires FirstCaller(ps) < |ps|
  {
    var p := ps[|ps| - 1];
    if p.0 == CallerName then p.1 else LastCallerValue(ps[..|ps| - 1])
  }

  /** The first caller pair stays in its place with the last caller value; the others are dropped. */
  function Merged(ps: seq<Pair>): seq<Pair> {
    var i := FirstCaller(ps);
    if i == |ps| then ps
    else ps[..i] + [(CallerName, LastCallerValue(ps))] + WithoutCallers(ps[i + 1..])
  }

  lemma WithoutCallersSnoc(ps: seq<Pair>, p: Pair)
    ensures WithoutCallers(ps + [p]) == WithoutCallers(ps) + if p.0 == CallerName then [] else [p]
  {
    assert (ps + [p])[..|ps|] == ps;
  }

  lemma FirstCallerSnoc(ps: seq<Pair>, p: Pair)
    ensures FirstCaller(ps + [p]) ==
            if FirstCaller(ps) < |ps| then FirstCaller(ps) else if p.0 == CallerName then |ps| else |ps| + 1
    ensures FirstCaller(ps) < |ps| ==>
      LastCallerValue(ps + [p]) == if p.0 == CallerName then p.1 else LastCallerValue(ps)
    ensures p.0 == CallerName ==> LastCallerValue(ps + [p]) == p.1 && WithoutCallers([]) == []
  {
    assert (ps + [p])[..|ps|] == ps;
  }

  lemma MergedIs(ps: seq<Pair>)
    ensures var i := FirstCaller(ps);
            Merged(ps) ==
            if i == |ps| then ps else ps[..i] + [(CallerName, LastCallerValue(ps))] + WithoutCallers(ps[i + 1..])
  {
  }

  /** What one more pair does to the merged list. */
  lemma MergedSnoc(ps: seq<Pair>, p: Pair)
    ensures FirstCaller(Merged(ps)) == FirstCaller(ps) <= |Merged(ps)|
    ensures FirstCaller(ps) == |ps| <==> FirstCaller(ps) == |Merged(ps)|
    ensures Merged(ps + [p]) ==
            if p.0 == CallerName && FirstCaller(ps) < |ps| then Merged(ps)[FirstCaller(ps) := (CallerName, p.1)]
            else Merged(ps) + [p]
  {
    var i := FirstCaller(ps);
    FirstCallerSnoc(ps, p);
    MergedFirst(ps);
    MergedIs(ps);
    MergedIs(ps + [p]);
    hide FirstCaller, LastCallerValue, WithoutCallers, Merged;
    if i < |ps| {
      var rest := ps[i + 1..];
      assert (ps + [p])[..i] == ps[..i] && (ps + [p])[i + 1..] == rest + [p];
      WithoutCallersSnoc(rest, p);
    } else if p.0 == CallerName {
      assert (ps + [p])[..i] == ps && (ps + [p])[i + 1..] == [];
      assert Merged(ps + [p]) == ps + [(CallerName, p.1)] + [];
    }
  }

  lemma MergedFirst(ps: seq<Pair>)
    ensures FirstCaller(Merged(ps)) == FirstCaller(ps) <= |Merged(ps)|
  {
    var i, m := FirstCaller(ps), Merged(ps);
    if i < |ps| {
      assert m[i].0 == CallerName;
      assert forall k :: 0 <= k < i ==> m[k] == ps[k];
    }
  }

  // ----- the list of keys and values

  function Flat(ps: seq<Pair>): (kv: seq<Any>)
    ensures |kv| == 2 * |ps|
  {
    if ps == [] then [] else Flat(ps[..|ps| - 1]) + [ps[|ps| - 1].0, ps[|ps| - 1].1]
  }

  function Pairs(kv: seq<Any>): (ps: seq<Pair>)
    requires |kv| % 2 == 0
    ensures 2 * |ps| == |kv|
  {
    if kv == [] then [] else Pairs(kv[..|kv| - 2]) + [(kv[|kv| - 2], kv[|kv| - 1])]
  }

  lemma {:induction false} FlatPairs(kv: seq<Any>)
    requires |kv| % 2 == 0
    ensures Flat(Pairs(kv)) == kv
  {
    if kv != [] {
      var init, ps := kv[..|kv| - 2], Pairs(kv);
      FlatPairs(init);
      assert ps[..|ps| - 1] == Pairs(init);
      assert Flat(ps) == init + [kv[|kv| - 2], kv[|kv| - 1]];
    }
  }

  lemma {:induction false} FlatUpdate(ps: seq<Pair>, i: nat, k: Any, v: Any)
    requires i < |ps| && ps[i].0 == k
    ensures Flat(ps)[2 * i] == k && Flat(ps)[2 * i + 1 := v] == Flat(ps[i := (k, v)])
  {
    var n := |ps| - 1;
    if i < n {
      FlatUpdate(ps[..n], i, k, v);
      assert ps[i := (k, v)][..n] == ps[..n][i := (k, v)];
    } else {
      assert ps[i := (k, v)][..n] == ps[..n];
    }
  }

  lemma {:induction false} FlatIndex(ps: seq<Pair>, i: nat)
    requires i < |ps|
    ensures Flat(ps)[2 * i] == ps[i].0 && Flat(ps)[2 * i + 1] == ps[i].1
    ensures Flat(ps[..i]) == Flat(ps)[..2 * i]
  {
    var n := |ps| - 1;
    if i < n {
      FlatIndex(ps[..n], i);
      assert ps[..n][..i] == ps[..i];
    }
  }

  /** append(keyvals[:i], keyvals[i+2:]...): the tail moves down by two in the same array. */
  method DeletePair(kv: array<Any>, n: nat, i: nat) returns (m: nat)
    requires i + 2 <= n <= kv.Length
    modifies kv
    ensures m == n - 2 && kv[..i] == old(kv[..i]) && kv[i..m] == old(kv[i + 2..n])
  {
    forall j | i <= j < n - 2 {
      kv[j] := kv[j + 2];
    }
    return n - 2;
  }

  /** One more caller pair only replaces the value of the first. */
  lemma CallerReplaced(u: seq<Pair>, p: Pair)
    requires p.0 == CallerName && FirstCaller(u) < |u|
    ensures var was, at := Flat(Merged(u)), 2 * FirstCaller(u) + 1;
            && FirstCaller(u + [p]) == FirstCaller(u)
            && at < |was| && was[at := p.1] == Flat(Merged(u + [p]))
  {
    hide Merged, FirstCaller, Flat, LastCallerValue, WithoutCallers;
    MergedSnoc(u, p);
    FirstCallerSnoc(u, p);
    FirstOfMerged(u);
    FlatUpdate(Merged(u), FirstCaller(u), CallerName, p.1);
  }

  lemma FirstOfMerged(u: seq<Pair>)
    requires FirstCaller(u) < |u|
    ensures FirstCaller(u) < |Merged(u)| && Merged(u)[FirstCaller(u)].0 == CallerName
  {
  }

  /** Any other pair comes at the end. */
  lemma PairAdded(u: seq<Pair>, p: Pair)
    requires p.0 == CallerName ==> FirstCaller(u) == |u|
    ensures Flat(Merged(u + [p])) == Flat(Merged(u)) + [p.0, p.1]
    ensures FirstCaller(u) == |u| ==> |Flat(Merged(u))| == 2 * |u|
    ensures FirstCaller(u + [p]) ==
            if FirstCaller(u) < |u| then FirstCaller(u) else if p.0 == CallerName then |u| else |u| + 1
  {
    hide Merged, FirstCaller, LastCallerValue, WithoutCallers;
    MergedSnoc(u, p);
    FirstCallerSnoc(u, p);
    assert (Merged(u) + [p])[..|Merged(u)|] == Merged(u);
  }

  /** What the first k pairs leave in the list. */
  function LeftBy(orig: seq<Any>, k: nat): seq<Pair>
    requires |orig| % 2 == 0 && 2 * k <= |orig|
  {
    Unprinted(Pairs(orig)[..k])
  }

  function PrintedBy(orig: seq<Any>, k: nat): seq<Any>
    requires |orig| % 2 == 0 && 2 * k <= |orig|
  {
    Printed(Pairs(orig)[..k])
  }

  lemma NextPair(orig: seq<Any>, k: nat)
    requires |orig| % 2 == 0 && 2 * k < |orig|
    ensures var back := orig[2 * k..];
            && |back| >= 2 && back[2..] == orig[2 * (k + 1)..] && back[..2] == [back[0], back[1]]
            && LeftBy(orig, k + 1) == LeftBy(orig, k) + (if back[0] == WithPrint then [] else [(back[0], back[1])])
            && PrintedBy(orig, k + 1) == PrintedBy(orig, k) + (if back[0] == WithPrint then [back[1]] else [])
  {
    var ps := Pairs(orig);
    FlatPairs(orig);
    FlatIndex(ps, k);
    assert ps[..k + 1][..k] == ps[..k];
  }

  /** What the loop has made of the first k pairs: their merged list stands at the front of kv, and the
      rest of the list behind it. */
  ghost predicate Compacting(front: seq<Any>, back: seq<Any>, orig: seq<Any>, k: nat,
                             callerIndex: int, values: seq<Any>)
    requires |orig| % 2 == 0 && 2 * k <= |orig|
  {
    var u := LeftBy(orig, k);
    && front == Flat(Merged(u)) && back == orig[2 * k..]
    && callerIndex == (if FirstCaller(u) < |u| then 2 * FirstCaller(u) else -1)
    && values == PrintedBy(orig, k)
  }

  lemma PrintTurn(front: seq<Any>, back: seq<Any>, orig: seq<Any>, k: nat, callerIndex: int, values: seq<Any>)
    requires |orig| % 2 == 0 && 2 * k < |orig| && Compacting(front, back, orig, k, callerIndex, values)
    requires back[0] == WithPrint
    ensures |back| >= 2 && Compacting(front, back[2..], orig, k + 1, callerIndex, values + [back[1]])
  {
    hide Merged, FirstCaller, Flat, LeftBy, PrintedBy;
    NextPair(orig, k);
    assert LeftBy(orig, k) + [] == LeftBy(orig, k);
  }

  lemma CallerTurn(front: seq<Any>, back: seq<Any>, orig: seq<Any>, k: nat, callerIndex: int, values: seq<Any>)
    requires |orig| % 2 == 0 && 2 * k < |orig| && Compacting(front, back, orig, k, callerIndex, values)
    requires back[0] == CallerName && callerIndex >= 0
    ensures |back| >= 2 && callerIndex + 1 < |front|
    ensures Compacting(front[callerIndex + 1 := back[1]], back[2..], orig, k + 1, callerIndex, values)
  {
    hide Merged, FirstCaller, Flat, LeftBy, PrintedBy;
    NextPair(orig, k);
    CallerReplaced(LeftBy(orig, k), (CallerName, back[1]));
    assert values + [] == values;
  }

  lemma KeepTurn(front: seq<Any>, back: seq<Any>, orig: seq<Any>, k: nat, callerIndex: int, values: seq<Any>)
    requires |orig| % 2 == 0 && 2 * k < |orig| && Compacting(front, back, orig, k, callerIndex, values)
    requires back[0] != WithPrint && (back[0] == CallerName ==> callerIndex < 0)
    ensures |back| >= 2
    ensures Compacting(front + back[..2], back[2..], orig, k + 1,
                       if back[0] == CallerName then |front| else callerIndex, values)
  {
    hide Merged, FirstCaller, Flat, LeftBy, PrintedBy;
    NextPair(orig, k);
    PairAdded(LeftBy(orig, k), (back[0], back[1]));
    assert values + [] == values;
  }

  /** The loop of Log: kv[..n] is the list that is passed on, `values` what is printed after it. */
  method Compact(kv: array<Any>) returns (n: nat, values: seq<Any>)
    requires kv.Length % 2 == 0
    modifies kv
    ensures n <= kv.Length && n % 2 == 0
    ensures kv[..n] == Flat(Merged(Unprinted(Pairs(old(kv[..])))))
    ensures values == Printed(Pairs(old(kv[..])))
  {
    hide *;
    ghost var orig := kv[..];
    ghost var k := 0;
    n, values := kv.Length, [];
    var callerIndex := -1;
    var i := 0;
    CompactingStarts(orig);
    assert kv[..0] == [] && kv[0..n] == orig;
    while i < n
      invariant 0 <= i <= n <= kv.Length && |orig| % 2 == 0 && 2 * k <= |orig|
      invariant n - i == |orig| - 2 * k && i % 2 == 0
      invariant Compacting(kv[..i], kv[i..n], orig, k, callerIndex, values)
      decreases n - i
    {
      ghost var front, back := kv[..i], kv[i..n];
      var key, val := kv[i], kv[i + 1];
      assert back[0] == key && back[1] == val && back[2..] == kv[i + 2..n] && back[..2] == kv[i..i + 2];
      k := k + 1;
      if key == CallerName {
        if callerIndex < 0 {
          KeepTurn(front, back, orig, k - 1, callerIndex, values);
          callerIndex := i;
        } else {
          CallerTurn(front, back, orig, k - 1, callerIndex, values);
          kv[callerIndex + 1] := val;
          assert kv[..i] == front[callerIndex + 1 := val] && kv[i + 2..n] == back[2..];
          n := DeletePair(kv, n, i);
          continue;
        }
      } else if key == WithPrint {
        PrintTurn(front, back, orig, k - 1, callerIndex, values);
        values := values + [val];
        n := DeletePair(kv, n, i);
        continue;
      } else {
        KeepTurn(front, back, orig, k - 1, callerIndex, values);
      }
      assert kv[..i + 2] == front + back[..2];
      i := i + 2;
    }
    CompactingEnds(kv[..i], kv[i..n], orig, k, callerIndex, values);
  }

  lemma CompactingStarts(orig: seq<Any>)
    requires |orig| % 2 == 0
    ensures Compacting([], orig, orig, 0, -1, [])
  {
    assert Pairs(orig)[..0] == [];
  }

  lemma CompactingEnds(front: seq<Any>, back: seq<Any>, orig: seq<Any>, k: nat, callerIndex: int, values: seq<Any>)
    requires |orig| % 2 == 0 && 2 * k == |orig| && Compacting(front, back, orig, k, callerIndex, values)
    ensures front == Flat(Merged(Unprinted(Pairs(orig)))) && values == Printed(Pairs(orig))
  {
    assert Pairs(orig)[..k] == Pairs(orig);
  }

  function Completed(keyvals: seq<Any>): (kv: seq<Any>)
    ensures |kv| % 2 == 0
  {
    if |keyvals| % 2 != 0 then keyvals + [MissingValue] else keyvals
  }

  /** Nothing is dropped, and a dangling key gets the missing value. */
  lemma CompletedKeeps(keyvals: seq<Any>)
    ensures keyvals <= Completed(keyvals) && |Completed(keyvals)| == |keyvals| + |keyvals| % 2
    ensures |keyvals| % 2 != 0 ==> Completed(keyvals)[|keyvals|] == MissingValue
  {
  }

  /** Pair k of a list is made of its elements 2k and 2k + 1. */
  lemma PairAt(kv: seq<Any>, k: nat)
    requires |kv| % 2 == 0 && 2 * k < |kv|
    ensures Pairs(kv)[k] == (kv[2 * k], kv[2 * k + 1])
  {
    FlatPairs(kv);
    FlatIndex(Pairs(kv), k);
  }

  /** How many withPrint pairs there are. */
  function PrintCount(ps: seq<Pair>): (n: nat)
    ensures n <= |ps|
  {
    if ps == [] then 0 else PrintCount(ps[..|ps| - 1]) + if ps[|ps| - 1].0 == WithPrint then 1 else 0
  }

  /** Where each pair goes: the value of a withPrint pair to the printed values, any other pair to the list, behind
      those that came before it. */
  lemma {:induction false} PairGoes(ps: seq<Pair>, k: nat)
    requires k < |ps|
    ensures |Printed(ps)| == PrintCount(ps) && |Unprinted(ps)| == |ps| - PrintCount(ps)
    ensures PrintCount(ps[..k]) <= k && (ps[k].0 == WithPrint ==> PrintCount(ps[..k]) < PrintCount(ps))
    ensures ps[k].0 == WithPrint ==> Printed(ps)[PrintCount(ps[..k])] == ps[k].1
    ensures ps[k].0 != WithPrint ==>
      k - PrintCount(ps[..k]) < |Unprinted(ps)| && Unprinted(ps)[k - PrintCount(ps[..k])] == ps[k]
  {
    var n := |ps| - 1;
    var init := ps[..n];
    if k < n {
      PairGoes(init, k);
      assert init[..k] == ps[..k];
    } else {
      PrintSizes(init);
    }
  }

  lemma {:induction false} PrintSizes(ps: seq<Pair>)
    ensures |Printed(ps)| == PrintCount(ps) && |Unprinted(ps)| == |ps| - PrintCount(ps)
  {
    if ps != [] { PrintSizes(ps[..|ps| - 1]); }
  }

  /** The merged list by an example: the first caller pair stays where it is, with the last value. */
  lemma MergedExample()
    ensures Merged([(Other(1), Other(2)), (CallerName, Other(3)), (Other(4), Other(5)), (CallerName, Other(6))]) ==
            [(Other(1), Other(2)), (CallerName, Other(6)), (Other(4), Other(5))]
  {
    var a: seq<Pair> := [(Other(1), Other(2))];
    assert Merged(a) == a && FirstCaller(a) == 1;
    MergedSnoc(a, (CallerName, Other(3)));
    var b := a + [(CallerName, Other(3))];
    assert FirstCaller(b) == 1 by { FirstCallerSnoc(a, (CallerName, Other(3))); }
    hide Merged, FirstCaller;
    MergedSnoc(b, (Other(4), Other(5)));
    var c := b + [(Other(4), Other(5))];
    FirstCallerSnoc(b, (Other(4), Other(5)));
    MergedSnoc(c, (CallerName, Other(6)));
    assert c + [(CallerName, Other(6))] ==
           [(Other(1), Other(2)), (CallerName, Other(3)), (Other(4), Other(5)), (CallerName, Other(6))];
  }

  /** extLogger.Log up to its call of the logger below, which gets `passed`; `values` are printed then. A
      list of even length is the caller's own array. */
  method Log(keyvals: array<Any>) returns (passed: seq<Any>, values: seq<Any>)
    modifies keyvals
    ensures var ps := Pairs(Completed(old(keyvals[..])));
            passed == Flat(Merged(Unprinted(ps))) && values == Printed(ps)
  {
    var kv := keyvals;
    if keyvals.Length % 2 != 0 {
      var n := keyvals.Length;
      kv := new Any[n + 1](i requires 0 <= i <= n reads keyvals => if i < n then keyvals[i] else MissingValue);
      assert kv[..] == keyvals[..] + [MissingValue];
    }
    var n;
    n, values := Compact(kv);
    passed := kv[..n];
  }

  // ----- what that list contains

  lemma {:induction false} WithoutCallersHasNone(ps: seq<Pair>)
    ensures forall i :: 0 <= i < |WithoutCallers(ps)| ==> WithoutCallers(ps)[i].0 != CallerName
  {
    if ps != [] { WithoutCallersHasNone(ps[..|ps| - 1]); }
  }

  lemma WithoutCallersAround(a: seq<Pair>, c: Pair, b: seq<Pair>)
    requires c.0 == CallerName
    ensures WithoutCallers(a + [c] + b) == WithoutCallers(a) + WithoutCallers(b)
  {
    WithoutCallersConcat(a + [c], b);
    WithoutCallersSnoc(a, c);
  }

  /** Before the first caller pair of a merged list there is none, and behind it neither. */
  lemma OneCaller(a: seq<Pair>, c: Pair, b: seq<Pair>)
    requires forall i :: 0 <= i < |a| ==> a[i].0 != CallerName
    requires forall i :: 0 <= i < |b| ==> b[i].0 != CallerName
    ensures var m := a + [c] + b;
            forall i, k :: 0 <= i < k < |m| ==> !(m[i].0 == m[k].0 == CallerName)
  {
    var m := a + [c] + b;
    assert forall i :: 0 <= i < |m| && i != |a| ==> m[i].0 != CallerName;
  }

  /** At most one caller pair is left, and without it the pairs are the ones there were, in order. */
  lemma MergedKeepsTheRest(ps: seq<Pair>)
    ensures WithoutCallers(Merged(ps)) == WithoutCallers(ps)
    ensures forall i, k :: 0 <= i < k < |Merged(ps)| ==> !(Merged(ps)[i].0 == Merged(ps)[k].0 == CallerName)
  {
    var i := FirstCaller(ps);
    if i < |ps| {
      var a, b := ps[..i], ps[i + 1..];
      assert ps == a + [ps[i]] + b;
      hide WithoutCallers, FirstCaller, LastCallerValue;
      WithoutCallersHasNone(b);
      OneCaller(a, (CallerName, LastCallerValue(ps)), WithoutCallers(b));
      WithoutCallersTwice(b);
      WithoutCallersAround(a, ps[i], b);
      WithoutCallersAround(a, (CallerName, LastCallerValue(ps)), WithoutCallers(b));
    }
  }

  lemma {:induction false} WithoutCallersConcat(a: seq<Pair>, b: seq<Pair>)
    ensures WithoutCallers(a + b) == WithoutCallers(a) + WithoutCallers(b)
  {
    if b == [] {
      assert a + b == a;
    } else {
      WithoutCallersConcat(a, b[..|b| - 1]);
      assert (a + b)[..|a + b| - 1] == a + b[..|b| - 1];
    }
  }

  lemma {:induction false} WithoutCallersTwice(ps: seq<Pair>)
    ensures WithoutCallers(WithoutCallers(ps)) == WithoutCallers(ps)
  {
    if ps != [] {
      var init, p := ps[..|ps| - 1], ps[|ps| - 1];
      WithoutCallersTwice(init);
      if p.0 != CallerName {
        WithoutCallersSnoc(WithoutCallers(init), p);
      } else {
        assert WithoutCallers(ps) == WithoutCallers(init);
      }
    }
  }
}
