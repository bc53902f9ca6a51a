/** Model of Set in sets/sets.go: a map from each element to the number of elements that were in the set
    when it was inserted. */
module OrderedSet {
  import opened Distinct

  /** Each element of order with its position. */
  ghost function Indexed<T(!new)>(order: seq<T>): (m: map<T, int>)
    ensures forall x :: x in m <==> x in order
    ensures forall x :: x in m ==> 0 <= m[x] < |order| && order[m[x]] == x
  {
    map x | x in order :: Position(order, x)
  }

  ghost function Position<T>(order: seq<T>, x: T): (i: int)
    requires x in order
    ensures 0 <= i < |order| && order[i] == x
  {
    var i :| 0 <= i < |order| && order[i] == x; i
  }

  class Set<T(==,!new)> {
    var index: map<T, int>

    constructor ()
      ensures index == map[]
    {
      index := map[];
    }

    /** The state after `items` have been inserted since the set was empty, and nothing was deleted. */
    ghost predicate Holds(items: seq<T>)
      reads this
    {
      index == Indexed(FirstOccurrences(items))
    }

    /** Insert. */
    method Insert(items: seq<T>)
      modifies this
      ensures forall before: seq<T> :: old(Holds(before)) ==> Holds(before + items)
      ensures forall x :: x in index <==> x in old(index) || x in items
      ensures forall x :: x in old(index) ==> index[x] == old(index)[x]
    {
      forall before: seq<T>
        ensures before + items[..0] == before
      {
      }
      for k := 0 to |items|
        invariant forall before: seq<T> :: old(Holds(before)) ==> Holds(before + items[..k])
        invariant forall x :: x in index <==> x in old(index) || x in items[..k]
        invariant forall x :: x in old(index) ==> x in index && index[x] == old(index)[x]
      {
        var item := items[k];
        ghost var was := index;
        assert items[..k + 1] == items[..k] + [item];
        if item !in index {
          index := index[item := |index|];
        }
        forall before: seq<T> | old(Holds(before))
          ensures Holds(before + items[..k + 1])
        {
          assert before + items[..k + 1] == before + items[..k] + [item];
          InsertOne(before + items[..k], item);
        }
      }
      assert items[..|items|] == items;
    }

    /** Equal: as many elements, and none of the other's is missing. */
    method Equal(other: Set<T>) returns (r: bool)
      ensures r <==> index.Keys == other.index.Keys
    {
      if |index| != |other.index| {
        assert |index.Keys| == |index| && |other.index.Keys| == |other.index|;
        return false;
      }
      var todo := other.index.Keys;
      while todo != {}
        invariant todo <= other.index.Keys && other.index.Keys - todo <= index.Keys
        decreases todo
      {
        var item :| item in todo;
        if item !in index {
          return false;
        }
        todo := todo - {item};
      }
      SubsetOfSameSize(other.index.Keys, index.Keys);
      return true;
    }
  }

  lemma {:induction false} SubsetOfSameSize<T>(a: set<T>, b: set<T>)
    requires a <= b && |a| == |b|
    ensures a == b
  {
    if a != {} {
      var x :| x in a;
      SubsetOfSameSize(a - {x}, b - {x});
    } else {
      assert |b| == 0;
    }
  }

  lemma {:induction false} SizeOfDistinct<T(!new)>(order: seq<T>)
    requires NoRepeats(order)
    ensures |Indexed(order)| == |order|
  {
    var m := Indexed(order);
    if order == [] {
      assert m == map[];
    } else {
      var init, x := order[..|order| - 1], order[|order| - 1];
      SizeOfDistinct(init);
      assert m.Keys == Indexed(init).Keys + {x};
      assert x !in init;
    }
  }

  /** Positions in a sequence without repetitions are determined. */
  lemma IndexOfDistinct<T(!new)>(order: seq<T>, i: nat)
    requires NoRepeats(order) && i < |order|
    ensures Indexed(order)[order[i]] == i
  {
  }

  lemma IndexedSnoc<T(!new)>(order: seq<T>, x: T)
    requires NoRepeats(order) && x !in order
    ensures NoRepeats(order + [x]) && Indexed(order + [x]) == Indexed(order)[x := |order|]
  {
    hide Indexed;
    var m, m' := Indexed(order), Indexed(order + [x]);
    assert NoRepeats(order + [x]);
    IndexOfDistinct(order + [x], |order|);
    assert m'.Keys == m.Keys + {x};
    forall y | y in m
      ensures m'[y] == m[y]
    {
      IndexOfDistinct(order + [x], m[y]);
    }
  }

  lemma InsertOne<T(!new)>(items: seq<T>, x: T)
    ensures var m := Indexed(FirstOccurrences(items));
            Indexed(FirstOccurrences(items + [x])) == if x in m then m else m[x := |m|]
  {
    hide Indexed;
    var order := FirstOccurrences(items);
    assert (items + [x])[..|items|] == items;
    FirstOccurrencesDiffer(items);
    SizeOfDistinct(order);
    if x !in order { IndexedSnoc(order, x); }
  }

  // ----- listing

  /** What List can make of the map: its entries in any order of iteration, sorted by index in any way
      that leaves none before a smaller one. */
  ghost predicate IsListing<T(!new)>(m: map<T, int>, out: seq<(T, int)>) {
    && |out| == |m|
    && (forall i :: 0 <= i < |out| ==> out[i].0 in m && m[out[i].0] == out[i].1)
    && (forall i, j :: 0 <= i < j < |out| ==> out[i].0 != out[j].0)
    && (forall i, j :: 0 <= i < j < |out| ==> out[i].1 <= out[j].1)
  }

  /** Increasing numbers below n are no further than their place, from either end. */
  lemma {:induction false} PlacesFromBelow<T>(out: seq<(T, int)>, k: nat)
    requires k < |out| && out[0].1 >= 0
    requires forall i, j :: 0 <= i < j < |out| ==> out[i].1 < out[j].1
    ensures out[k].1 >= k
  {
    if k > 0 { PlacesFromBelow(out, k - 1); }
  }

  lemma {:induction false} PlacesFromAbove<T>(out: seq<(T, int)>, k: nat)
    requires k < |out| && out[|out| - 1].1 < |out|
    requires forall i, j :: 0 <= i < j < |out| ==> out[i].1 < out[j].1
    ensures out[k].1 <= k
    decreases |out| - k
  {
    if k < |out| - 1 { PlacesFromAbove(out, k + 1); }
  }

  /** List is the order of first insertion, whatever the order of map iteration and however the sort
      treats ties: the indices are 0 to Len-1, once each. */
  lemma ListIsInsertionOrder<T(!new)>(items: seq<T>, out: seq<(T, int)>)
    requires IsListing(Indexed(FirstOccurrences(items)), out)
    ensures |out| == |FirstOccurrences(items)|
    ensures forall i :: 0 <= i < |out| ==> out[i] == (FirstOccurrences(items)[i], i)
  {
    var order := FirstOccurrences(items);
    var m := Indexed(order);
    FirstOccurrencesDiffer(items);
    SizeOfDistinct(order);
    forall i, j | 0 <= i < j < |out|
      ensures out[i].1 < out[j].1
    {
      assert order[m[out[i].0]] == out[i].0 && order[m[out[j].0]] == out[j].0;
    }
    forall i | 0 <= i < |out|
      ensures out[i] == (order[i], i)
    {
      PlacesFromBelow(out, i);
      PlacesFromAbove(out, i);
    }
  }

  /** There is such a listing. */
  lemma ListingExists<T(!new)>(items: seq<T>) returns (out: seq<(T, int)>)
    ensures IsListing(Indexed(FirstOccurrences(items)), out)
  {
    var order := FirstOccurrences(items);
    FirstOccurrencesDiffer(items);
    SizeOfDistinct(order);
    out := seq(|order|, i requires 0 <= i < |order| => (order[i], i));
  }

  /** Clone inserts what List returns into an empty set: the copy has the same elements with the same
      indices. */
  lemma CloneIsEqual<T(!new)>(items: seq<T>)
    ensures Indexed(FirstOccurrences(FirstOccurrences(items))) == Indexed(FirstOccurrences(items))
  {
    FirstOccurrencesDiffer(items);
    NoRepeatsIsFixed(FirstOccurrences(items));
  }
}
