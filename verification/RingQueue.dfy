/** Model of wrapper/queue.go: a bounded queue over a ring of max = n + 1 cells. The live cells are
    those from offset `start` up to, not including, offset `end`, both counted from the cell `r`. */
module RingQueue {
  import opened Wrappers
  import opened QueueModel
  import opened Ring

  /** How many steps lead from index i to index k of a ring of max cells. */
  function Distance(max: int, i: int, k: int): int {
    if i <= k then k - i else k - i + max
  }

  /** The bookkeeping of Remove without the heap. The ring is read from the cell at which the loop
      stops, so that the live cells are those from index `first` on. Those below index `a` have been
      freed, those in a..j were kept, those from j on are still to be visited. The base cell was at
      base0 and is at `base` now, unless `hit` says that it was cut out. */
  datatype Sweep = Sweep(max: int, first: int, base0: int,
                         start: int, end: int, a: int, j: int, base: int, isPrev: bool, hit: bool)
  {
    /** Where the base cell is, and that both offsets are counted from it. */
    predicate Offsets() {
      && 0 < first <= a <= j <= max && 0 <= base0 < max
      && 0 <= start < max && 0 <= end < max
      && Distance(max, start, end) == max - a
      && (hit ==> first <= base0 < j && isPrev)
      && (!hit ==>
            && 0 <= base < max && isPrev == (a <= base < j)
            && (if base0 == 0 then base == 0
                else if base0 < first then 0 < base < a
                else if base0 < j then a <= base < j
                else base == base0)
            && end == Distance(max, base, 0)
            && start == Distance(max, base, if a == max then 0 else a))
    }

    /** One turn of the loop that keeps, or takes out, the element at index j. */
    function Next(keep: bool): Sweep {
      var look := isPrev || (!hit && base == j);
      var ahead := start > end && !look;
      if keep then this.(j := j + 1, isPrev := look)
      else
        Sweep(max, first, base0,
              if !ahead then start else if start + 1 >= max then start + 1 - max else start + 1,
              if ahead then end else if end - 1 < 0 then end - 1 + max else end - 1,
              a + 1, j + 1, Moved(base, j), look, hit || base == j)
    }

    lemma OffsetsKept()
      requires Offsets() && j < max
      ensures Next(true).Offsets()
    {
    }

    lemma OffsetsEvicted()
      requires Offsets() && j < max
      ensures Next(false).Offsets()
    {
    }

    /** Once the base cell has been reached, or when it is free, the head stays where it is. */
    lemma HeadRests(keep: bool)
      requires Offsets() && j < max && base0 != 0 && base0 <= j
      ensures Next(keep).start == start
    {
    }
  }

  ghost function InitialSweep(max: int, count: int, start: int, end: int): Sweep {
    var base := if end == 0 then 0 else max - end;
    Sweep(max, max - count, base, start, end, max - count, max - count, base, false, false)
  }

  /** The sweep after k turns. */
  ghost function SweepAt<T>(init: Sweep, items: seq<T>, f: T -> bool, k: nat): (g: Sweep)
    requires k <= |items|
  {
    if k == 0 then init else SweepAt(init, items, f, k - 1).Next(!f(items[k - 1]))
  }

  /** The sweep starts at the first element with the base cell in the ring. */
  predicate Begins(init: Sweep, count: int) {
    init.first == init.a == init.j == init.max - count && !init.hit && init.Offsets()
  }

  lemma {:induction false} SweepOffsets<T>(init: Sweep, items: seq<T>, f: T -> bool, k: nat)
    requires k <= |items| && Begins(init, |items|)
    ensures var g := SweepAt(init, items, f, k);
            && g.Offsets() && g.j == init.j + k
            && g.max == init.max && g.first == init.first && g.base0 == init.base0
  {
    if k > 0 {
      SweepOffsets(init, items, f, k - 1);
      var g := SweepAt(init, items, f, k - 1);
      g.OffsetsKept();
      g.OffsetsEvicted();
    }
  }

  /** How many of the first k elements are kept. */
  function KeptCount<T>(items: seq<T>, f: T -> bool, k: nat): (c: nat)
    requires k <= |items|
    ensures c <= k
  {
    if k == 0 then 0 else KeptCount(items, f, k - 1) + if f(items[k - 1]) then 0 else 1
  }

  /** What the live cells store after k turns. */
  function StoredAt<T>(items: seq<T>, f: T -> bool, k: nat): (s: seq<T>)
    requires k <= |items|
    ensures |s| == |items| - k + KeptCount(items, f, k)
  {
    if k == 0 then items
    else if f(items[k - 1]) then Without(StoredAt(items, f, k - 1), KeptCount(items, f, k - 1))
    else StoredAt(items, f, k - 1)
  }

  lemma {:induction false} KeptCounts<T>(items: seq<T>, f: T -> bool, k: nat)
    requires k <= |items|
    ensures |Kept(items[..k], f)| == KeptCount(items, f, k)
  {
    if k > 0 {
      KeptCounts(items, f, k - 1);
      hide Kept;
      KeptNext(items, k - 1, f);
    }
  }

  /** What the first k elements have been reduced to, and the others. */
  function KeptUpTo<T>(items: seq<T>, f: T -> bool, k: nat): seq<T>
    requires k <= |items|
  {
    Kept(items[..k], f) + items[k..]
  }

  lemma KeptUpToNext<T>(items: seq<T>, f: T -> bool, k: nat)
    requires k < |items|
    ensures var was, c := KeptUpTo(items, f, k), KeptCount(items, f, k);
            && c < |was|
            && KeptUpTo(items, f, k + 1) == if f(items[k]) then CutOut(was, c) else was
  {
    hide Kept, KeptCount, CutOut;
    KeptCounts(items, f, k);
    KeptNext(items, k, f);
  }

  lemma {:induction false} StoredIsKeptUpTo<T>(items: seq<T>, f: T -> bool, k: nat)
    requires k <= |items|
    ensures StoredAt(items, f, k) == KeptUpTo(items, f, k)
  {
    hide *;
    if k > 0 {
      StoredIsKeptUpTo(items, f, k - 1);
      StoredNext(items, f, k - 1);
      KeptUpToNext(items, f, k - 1);
    } else {
      NothingStored(items, f);
    }
  }

  lemma NothingStored<T>(items: seq<T>, f: T -> bool)
    ensures StoredAt(items, f, 0) == KeptUpTo(items, f, 0)
  {
  }

  /** The loop filters: the first k elements have been reduced to those it keeps. */
  lemma StoredIsKept<T>(items: seq<T>, f: T -> bool, k: nat)
    requires k <= |items|
    ensures StoredAt(items, f, k) == Kept(items[..k], f) + items[k..]
    ensures |Kept(items[..k], f)| == KeptCount(items, f, k)
  {
    hide Kept, StoredAt, KeptCount;
    StoredIsKeptUpTo(items, f, k);
    KeptCounts(items, f, k);
  }

  lemma StoredNext<T>(items: seq<T>, f: T -> bool, k: nat)
    requires k < |items|
    ensures var was, c := StoredAt(items, f, k), KeptCount(items, f, k);
            && c < |was|
            && StoredAt(items, f, k + 1) == if f(items[k]) then CutOut(was, c) else was
  {
    var was, c := StoredAt(items, f, k), KeptCount(items, f, k);
    assert StoredAt(items, f, k + 1) == if f(items[k]) then Without(was, c) else was;
    hide StoredAt, KeptCount;
    assert Without(was, c) == CutOut(was, c);
  }

  lemma StoredFinally<T>(items: seq<T>, f: T -> bool)
    ensures StoredAt(items, f, |items|) == Kept(items, f)
  {
    StoredIsKept(items, f, |items|);
    assert items[..|items|] == items;
  }

  /** As many cells are freed as elements are not kept. */
  lemma {:induction false} SweepCounts<T>(init: Sweep, items: seq<T>, f: T -> bool, k: nat)
    requires k <= |items| && init.a == init.j
    ensures SweepAt(init, items, f, k).j - SweepAt(init, items, f, k).a == KeptCount(items, f, k)
  {
    if k > 0 {
      SweepCounts(init, items, f, k - 1);
    }
  }

  /** One turn of the loop: what it finds, and what it leaves. */
  lemma SweepNext<T>(init: Sweep, items: seq<T>, f: T -> bool, k: nat)
    requires k < |items| && init.a == init.j
    ensures var g, stored := SweepAt(init, items, f, k), StoredAt(items, f, k);
            && 0 <= g.j - g.a < |stored| && stored[g.j - g.a] == items[k]
            && SweepAt(init, items, f, k + 1) == g.Next(!f(items[k]))
            && StoredAt(items, f, k + 1) == if f(items[k]) then Without(stored, g.j - g.a) else stored
  {
    SweepCounts(init, items, f, k);
    StoredIsKept(items, f, k);
  }

  lemma SweepIsNext<T>(init: Sweep, items: seq<T>, f: T -> bool, k: nat)
    requires 0 < k <= |items|
    ensures SweepAt(init, items, f, k) == SweepAt(init, items, f, k - 1).Next(!f(items[k - 1]))
  {
  }

  /** The base cell is cut out when f holds on its element. */
  lemma {:induction false} SweepHits<T>(init: Sweep, items: seq<T>, f: T -> bool, k: nat)
    requires k <= |items| && Begins(init, |items|)
    ensures SweepAt(init, items, f, k).hit <==>
            init.first <= init.base0 < init.first + k && f(items[init.base0 - init.first])
  {
    if k > 0 {
      SweepHits(init, items, f, k - 1);
      SweepOffsets(init, items, f, k - 1);
      SweepIsNext(init, items, f, k);
      hide SweepAt;
    }
  }

  /** Once the base cell has been passed, or when it is free, the head stays where it is. */
  lemma {:induction false} SweepRests<T>(init: Sweep, items: seq<T>, f: T -> bool, k0: nat, k: nat)
    requires k0 <= k <= |items| && Begins(init, |items|)
    requires init.base0 != 0 && init.base0 <= init.first + k0
    ensures SweepAt(init, items, f, k).start == SweepAt(init, items, f, k0).start
  {
    hide SweepAt, Sweep.Next, Sweep.Offsets;
    if k0 < k {
      SweepRests(init, items, f, k0, k - 1);
      SweepOffsets(init, items, f, k - 1);
      SweepIsNext(init, items, f, k);
      BeginsWithin(init, |items|);
      SweepAt(init, items, f, k - 1).HeadRests(!f(items[k - 1]));
    }
  }

  lemma BeginsWithin(init: Sweep, count: int)
    requires Begins(init, count)
    ensures init.first == init.a == init.j == init.max - count && 0 < init.first && !init.hit
    ensures 0 <= init.base0 < init.max && 0 <= init.start < init.max
  {
  }

  /** When the loop gets to the base cell, or to its end without meeting it, the head has moved on
      for each element removed so far. */
  lemma SweepMeetsBase<T>(init: Sweep, items: seq<T>, f: T -> bool, k: nat)
    requires k <= |items| && Begins(init, |items|)
    requires init.first < init.first + k == if init.base0 == 0 then init.max else init.base0
    ensures SweepAt(init, items, f, k).start == StartAfterRemove(init.max - 1, items, init.start, f)
  {
    hide SweepAt, StoredAt, Kept, KeptCount;
    var g := SweepAt(init, items, f, k);
    SweepOffsets(init, items, f, k);
    SweepCounts(init, items, f, k);
    StoredIsKept(items, f, k);
    SweepHits(init, items, f, k);
    assert init.start + |items| >= init.max && BaseIndex(init.max - 1, init.start) == k;
    assert g.start == Distance(init.max, init.base0, if g.a == init.max then 0 else g.a);
  }

  lemma StartWithFreeBase<T>(init: Sweep, items: seq<T>, f: T -> bool)
    requires Begins(init, |items|) && 0 < init.base0 <= init.first
    ensures StartAfterRemove(init.max - 1, items, init.start, f) == init.start
  {
    hide Kept;
    BeginsWithin(init, |items|);
  }

  lemma StartWithoutElements<T>(init: Sweep, items: seq<T>, f: T -> bool)
    requires Begins(init, |items|) && items == []
    ensures StartAfterRemove(init.max - 1, items, init.start, f) == init.start
  {
    hide Kept;
    BeginsWithin(init, |items|);
  }

  /** Where the head is when every element has been visited. */
  lemma SweepStart<T>(init: Sweep, items: seq<T>, f: T -> bool)
    requires Begins(init, |items|)
    ensures SweepAt(init, items, f, |items|).start == StartAfterRemove(init.max - 1, items, init.start, f)
  {
    hide *;
    var k := |items|;
    BeginsWithin(init, k);
    SweepIsInit(init, items, f);
    if items == [] {
      StartWithoutElements(init, items, f);
    } else if init.base0 == 0 {
      SweepMeetsBase(init, items, f, k);
    } else if init.base0 <= init.first {
      SweepRests(init, items, f, 0, k);
      StartWithFreeBase(init, items, f);
    } else {
      SweepMeetsBase(init, items, f, init.base0 - init.first);
      SweepRests(init, items, f, init.base0 - init.first, k);
    }
  }

  lemma SweepIsInit<T>(init: Sweep, items: seq<T>, f: T -> bool)
    ensures SweepAt(init, items, f, 0) == init
  {
  }

  /** Where the base cell is among the elements. */
  lemma BaseIsAt<T>(init: Sweep, items: seq<T>, f: T -> bool)
    requires Begins(init, |items|)
    ensures BaseHit(init.max - 1, items, init.start, f) <==>
            init.first <= init.base0 < init.max && f(items[init.base0 - init.first])
  {
    BeginsWithin(init, |items|);
  }

  /** The sweep when every element has been visited. */
  lemma SweepResult<T>(init: Sweep, items: seq<T>, f: T -> bool)
    requires Begins(init, |items|)
    ensures SweepAt(init, items, f, |items|).hit <==> BaseHit(init.max - 1, items, init.start, f)
    ensures SweepAt(init, items, f, |items|).start == StartAfterRemove(init.max - 1, items, init.start, f)
  {
    hide *;
    BeginsWithin(init, |items|);
    SweepHits(init, items, f, |items|);
    BaseIsAt(init, items, f);
    SweepStart(init, items, f);
  }

  lemma BelowEnd(g: Sweep)
    requires g.Offsets()
    ensures 0 < g.first <= g.a <= g.j <= g.max
  {
  }

  lemma SweepEnds<T>(init: Sweep, items: seq<T>, f: T -> bool)
    requires Begins(init, |items|)
    ensures var g := SweepAt(init, items, f, |items|);
            && g.Offsets() && 0 < g.a && g.max == init.max && g.max - g.a == |Kept(items, f)|
            && (g.hit <==> BaseHit(init.max - 1, items, init.start, f))
            && g.start == StartAfterRemove(init.max - 1, items, init.start, f)
    ensures StoredAt(items, f, |items|) == Kept(items, f)
  {
    hide *;
    BeginsWithin(init, |items|);
    SweepOffsets(init, items, f, |items|);
    BelowEnd(SweepAt(init, items, f, |items|));
    SweepCounts(init, items, f, |items|);
    SweepResult(init, items, f);
    StoredFinally(items, f);
    StoredIsKept(items, f, |items|);
    assert items[..|items|] == items;
  }

  class RingQueue<T> {
    var r: Node<T>
    var start: int
    var end: int
    var max: int
    ghost var cells: seq<Node<T>>  // the ring of r, read from r
    ghost var Repr: set<Node<T>>   // every node that the queue has used

    /** r belongs to some ring, and the offsets are in range. */
    ghost predicate WellFormed()
      reads this, cells
    {
      && IsRing(cells) && cells[0] == r && (forall x :: x in cells ==> x in Repr)
      && 0 <= start < max && 0 <= end < max
    }

    function Count(): (k: nat)
      requires 0 <= start < max && 0 <= end < max
      reads this
    {
      if start <= end then end - start else end + max - start
    }

    /** The cell that stores element i. */
    ghost function Cell(i: nat): Node<T>
      requires |cells| == max && 0 <= start < max && i < max
      reads this
    {
      cells[if start + i < max then start + i else start + i - max]
    }

    /** The ring has max cells, r among them, and every live cell stores a value. */
    ghost predicate Valid()
      reads this, cells
    {
      && WellFormed() && |cells| == max
      && forall i :: 0 <= i < Count() ==> Cell(i).value.Some?
    }

    /** r has been cut out of the ring that the queue was built on and is its own ring now. */
    ghost predicate Detached()
      reads this, cells
    {
      WellFormed() && cells == [r] && max > 1
    }

    ghost function Contents(): (s: seq<T>)
      requires Valid()
      reads this, cells
      ensures |s| == Count() < max
    {
      seq(Count(), i requires Valid() && 0 <= i < Count() reads this, cells => Cell(i).value.value)
    }

    lemma OtherCells(k: nat)
      requires WellFormed() && (|cells| == max ==> k < max)
      ensures |cells| == max ==> forall i :: 0 <= i < max && i != k ==> Cell(i) != Cell(k)
    {
      AllDiffer(cells);
    }

    /** The live cells store exactly s. */
    ghost predicate Stores(s: seq<T>)
      requires |cells| == max && 0 <= start < max && 0 <= end < max
      reads this, cells
    {
      Count() == |s| && forall i :: 0 <= i < |s| ==> Cell(i).value == Some(s[i])
    }

    lemma Shape()
      requires Valid()
      ensures IsRing(cells) && cells[0] == r && |cells| == max && 0 <= start < max && 0 <= end < max
      ensures WellFormed() && |Contents()| < max && Stores(Contents())
    {
    }

    lemma StoresContents(s: seq<T>)
      requires WellFormed() && |cells| == max && Stores(s)
      ensures Valid() && Contents() == s
    {
    }

    lemma AttachedTest()
      requires Valid() || Detached()
      ensures Valid() <==> max == 1 || r.next != r
      ensures !(Valid() && Detached())
    {
      if Valid() && max > 1 { Ring.CellsDiffer(cells, 0, 1); }
    }

    /** The abstract state. */
    ghost function Abstract(): Model<T>
      requires Valid() || Detached()
      reads this, cells
    {
      if Valid() then Model.Attached(Contents(), start) else Model.Detached(Count(), r.value)
    }

    constructor (n: nat)
      ensures Valid() && max == n + 1
      ensures Abstract() == Model.Attached([], 0)
      ensures fresh(Repr)
    {
      var first, ring := Ring.New<T>(n + 1);
      r, start, end, max := first, 0, 0, n + 1;
      cells := ring;
      Repr := set x | x in ring;
    }

    lemma LiveEnds(s: seq<T>)
      requires WellFormed() && |cells| == max && Stores(s) && |s| < max
      ensures cells[start] == Cell(0) && cells[end] == Cell(|s|)
      ensures forall i :: 0 <= i < |s| ==> Cell(i) != Cell(|s|)
    {
      hide IsRing;
      OtherCells(|s|);
    }

    lemma LiveCell(s: seq<T>, i: nat)
      requires WellFormed() && |cells| == max && Stores(s) && |s| < max && i < |s|
      ensures Cell(i).value == Some(s[i]) && Cell(i).next == Cell(i + 1)
      ensures s[..i + 1] == s[..i] + [s[i]]
    {
      hide IsRing;
      NextCell(cells, if start + i < max then start + i else start + i - max);
    }

    /** (*RingQueue).List, and the order in which Do calls its function. */
    method List() returns (items: seq<T>)
      requires Valid() || Detached()
      ensures Valid() ==> items == Contents()
      ensures Detached() ==> items == []
    {
      hide *;
      AttachedTest();
      ghost var was := if Valid() then Contents() else [];
      if Valid() {
        Shape();
        LiveEnds(was);
      } else {
        DetachedShape();
      }
      items := [];
      var cur := Ring.Move(r, start, cells);
      var stop := Ring.Move(r, end, cells);
      while cur != stop
        invariant Valid() ==> |items| <= |was| && cur == Cell(|items|) && items == was[..|items|]
        invariant !Valid() ==> cur == stop && items == []
        decreases |was| - |items|
      {
        LiveCell(was, |items|);
        items := items + [cur.value.value];
        cur := cur.next;
      }
    }

    /** (*RingQueue).Len. */
    method Len() returns (k: nat)
      requires Valid() || Detached()
      ensures k == Length(Abstract())
    {
      if start < end {
        k := end - start;
      } else if start == end {
        k := 0;
      } else {
        k := end + max - start;
      }
    }

    // The assignment cell.Value = v.
    method StoreValue(cell: Node<T>, v: Option<T>)
      requires WellFormed() && cell in cells
      modifies cell`value
      ensures WellFormed() && cell.value == v
    {
      cell.value := v;
    }

    lemma DetachedShape()
      requires Detached()
      ensures IsRing(cells) && WellFormed() && cells == [r] && max > 1 && !Valid()
      ensures 0 <= start < max && 0 <= end < max
    {
    }

    lemma DetachedAgain()
      requires WellFormed() && cells == [r] && max > 1
      ensures Detached() && !Valid()
    {
    }

    /** The value behind the last element was set, and the end moved on. */
    twostate lemma PutKeeps(val: T)
      requires old(Valid()) && WellFormed() && cells == old(cells) && max == old(max) && start == old(start)
      requires old(Count()) < max - 1 && end == if old(end) + 1 == max then 0 else old(end) + 1
      requires cells[old(end)].value == Some(val)
      requires forall i :: 0 <= i < max && i != old(end) ==> cells[i].value == old(cells[i].value)
      ensures Valid() && Contents() == old(Contents()) + [val]
    {
      hide IsRing;
      StoresContents(old(Contents()) + [val]);
    }

    /** The value of the first element was cleared, and the start moved on. */
    twostate lemma GetKeeps()
      requires old(Valid()) && WellFormed() && cells == old(cells) && max == old(max) && end == old(end)
      requires old(Count()) > 0 && start == if old(start) + 1 == max then 0 else old(start) + 1
      requires forall i :: 0 <= i < max && i != old(start) ==> cells[i].value == old(cells[i].value)
      ensures Valid() && Contents() == old(Contents())[1..]
    {
      hide IsRing;
      StoresContents(old(Contents())[1..]);
    }

    method Put(val: T) returns (ok: bool)
      requires Valid() || Detached()
      modifies this, Repr
      ensures max == old(max) && cells == old(cells) && Repr == old(Repr)
      ensures old(Valid()) ==>
        && Valid()
        && ok == (|old(Contents())| < max - 1)
        && Contents() == (if ok then old(Contents()) + [val] else old(Contents()))
        && start == old(start)
      ensures old(Detached()) ==>
        && Detached()
        && ok == (old(Count()) < max - 1)
        && Count() == old(Count()) + (if ok then 1 else 0)
        && r.value == if ok then Some(val) else old(r.value)
    {
      hide IsRing, Contents, Valid, Detached;
      AttachedTest();
      ghost var attached := Valid();
      if attached { Shape(); } else { DetachedShape(); }
      if start == end + 1 {
        return false;
      } else if end + 1 == max && start == 0 {
        return false;
      }
      AllDiffer(cells);
      var cell := Ring.Move(r, end, cells);
      StoreValue(cell, Some(val));
      end := end + 1;
      if end == max {
        end := 0;
      }
      if attached { PutKeeps(val); } else { DetachedAgain(); }
      return true;
    }

    /** Error is QueueNull; a nil value makes the type assertion panic. */
    method Get() returns (val: Outcome<T>)
      requires Valid() || Detached()
      modifies this, Repr
      ensures max == old(max) && cells == old(cells) && Repr == old(Repr)
      ensures old(Valid()) ==>
        && Valid()
        && val == (if old(Contents()) == [] then Error else Ok(old(Contents())[0]))
        && Contents() == (if val == Error then [] else old(Contents())[1..])
        && start == if val == Error then old(start) else if old(start) == max - 1 then 0 else old(start) + 1
      ensures old(Detached()) ==>
        && Detached()
        && val == (if old(Count()) == 0 then Error else if old(r.value) == None then Panic else Ok(old(r.value).value))
        && Count() == old(Count()) - (if val.Ok? then 1 else 0)
        && r.value == if val.Ok? then None else old(r.value)
    {
      hide IsRing, Contents, Valid, Detached;
      AttachedTest();
      ghost var attached := Valid();
      if attached { Shape(); } else { DetachedShape(); }
      if start == end {
        return Error;
      }
      AllDiffer(cells);
      var cell := Ring.Move(r, start, cells);
      assert attached ==> cell == Cell(0);
      if cell.value.None? {
        return Panic;
      }
      val := Ok(cell.value.value);
      StoreValue(cell, None);
      start := start + 1;
      if start == max {
        start := 0;
      }
      if attached { GetKeeps(); } else { DetachedAgain(); }
    }

    /** Reading the ring from the base cell again: the sweep over `ring` left `kept` in the queue. */
    lemma ReseatedContents(ring: seq<Node<T>>, base: nat, a: nat, kept: seq<T>)
      requires IsRing(ring) && |ring| == max && base < max && ring[base] == r
      requires cells == Rotated(ring, base) && forall i :: 0 <= i < max ==> ring[i] in Repr
      requires 0 < a && StoresFrom(ring, a, kept)
      requires end == Distance(max, base, 0) && start == Distance(max, base, if a == max then 0 else a)
      ensures Valid() && Contents() == kept
    {
      RotatedRing(ring, base);
      assert 0 <= start < max && 0 <= end < max && Count() == max - a;
      forall i | 0 <= i < |kept|
        ensures Cell(i) == ring[a + i]
      {
        var at := if start + i < max then start + i else start + i - max;
        assert cells[at] == ring[if base + at < max then base + at else base + at - max];
      }
      StoresContents(kept);
    }

    /** The state between two turns of Remove's loop. */
    ghost predicate Sweeping(stop: Node<T>, ring: seq<Node<T>>, g: Sweep, stored: seq<T>)
      reads this, r, ring
    {
      && IsRing(ring) && |ring| == max == g.max && ring[0] == stop
      && (forall i :: 0 <= i < max ==> ring[i] in Repr)
      && g.start == start && g.end == end
      && 0 < g.a <= g.j <= max && StoresFrom(ring, g.a, stored)
      && if g.hit then r.next == r && r.prev == r && r in Repr && forall i :: 0 <= i < max ==> ring[i] != r
         else 0 <= g.base < max && ring[g.base] == r
    }

    /** One element less between the two offsets. */
    method ShiftOffsets(isPrev: bool, ghost g: Sweep)
      requires g.start == start && g.end == end && g.max == max
      requires isPrev == (g.isPrev || (!g.hit && g.base == g.j))
      modifies `start, `end
      ensures start == g.Next(false).start && end == g.Next(false).end
    {
      if start > end && !isPrev {
        start := start + 1;
        if start >= max {
          start := start - max;
        }
      } else {
        end := end - 1;
        if end < 0 {
          end := end + max;
        }
      }
    }

    /** What Remove does when f holds on the value of `cur`. The source changes the offsets between its two
        calls of Link; neither reads them. */
    method TakeOut(stop: Node<T>, cur: Node<T>, isPrev: bool,
                   ghost ring: seq<Node<T>>, ghost g: Sweep, ghost stored: seq<T>)
      returns (prev: Node<T>, ghost after: seq<Node<T>>)
      requires Sweeping(stop, ring, g, stored) && g.j < max && ring[g.j] == cur
      requires isPrev == (g.isPrev || (!g.hit && g.base == g.j))
      modifies `start, `end, `Repr, ring
      ensures Sweeping(stop, after, g.Next(false), Without(stored, g.j - g.a))
      ensures prev == after[g.j] && r.value == old(r.value)
      ensures Repr >= old(Repr) && fresh(Repr - old(Repr))
    {
      hide IsRing, StoresFrom, Without;
      ShiftOffsets(isPrev, g);
      prev, after := Recycle(stop, cur, g.j, g.a, stored, ring);
      Repr := Repr + {after[1]};
    }

    /** The state of Remove's loop after k turns. */
    ghost predicate At(k: nat, cur: Node<T>, stop: Node<T>, isPrev: bool, ring: seq<Node<T>>,
                       init: Sweep, items: seq<T>, f: T -> bool)
      reads this, r, ring
    {
      && init.a == init.j == max - |items| && k <= |items|
      && var g := SweepAt(init, items, f, k);
      && Sweeping(stop, ring, g, StoredAt(items, f, k))
      && g.j == init.j + k && g.isPrev == isPrev
      && if k < |items| then cur == ring[g.j] && cur != stop else cur == stop
    }

    lemma SweepBegins(stop: Node<T>, ring: seq<Node<T>>, init: Sweep, items: seq<T>, f: T -> bool)
      requires Valid() && items == Contents() && stop == cells[end]
      requires ring == Rotated(cells, end) && init == InitialSweep(max, |items|, start, end)
      ensures Begins(init, |items|) && At(0, cells[start], stop, false, ring, init, items, f)
      ensures init.max == max && init.start == start && (items == [] <==> cells[start] == stop)
    {
      hide IsRing, Contents;
      Shape();
      RotatedRing(cells, end);
      forall i | init.a <= i < max
        ensures ring[i] == Cell(i - init.a)
      {
      }
      if items != [] { Ring.CellsDiffer(cells, start, end); }
    }

    /** One turn of Remove's loop. */
    method Turn(cur: Node<T>, stop: Node<T>, isPrev: bool, f: T -> bool,
                ghost k: nat, ghost ring: seq<Node<T>>, ghost init: Sweep, ghost items: seq<T>)
      returns (next: Node<T>, isPrev': bool, ghost after: seq<Node<T>>, ghost val: T)
      requires At(k, cur, stop, isPrev, ring, init, items, f) && cur != stop
      modifies `start, `end, `Repr, Repr
      ensures At(k + 1, next, stop, isPrev', after, init, items, f)
      ensures k < |items| && val == items[k] && (k + 1 == |items| <==> next == stop) && r.value == old(r.value)
      ensures Repr >= old(Repr) && fresh(Repr - old(Repr))
    {
      hide IsRing, StoresFrom, Without, SweepAt, StoredAt, KeptCount, Kept;
      ghost var g := SweepAt(init, items, f, k);
      SweepNext(init, items, f, k);
      StoredValue(ring, g.a, StoredAt(items, f, k), g.j);
      if !g.hit && g.base != g.j { Ring.CellsDiffer(ring, g.base, g.j); }
      isPrev' := isPrev;
      if cur == r {
        isPrev' := true;
      }
      next, after, val := cur, ring, cur.value.value;
      if f(cur.value.value) {
        next, after := TakeOut(stop, cur, isPrev', ring, g, StoredAt(items, f, k));
      }
      NextCell(after, g.j);
      next := next.next;
      if k + 1 < |items| { Ring.CellsDiffer(after, 0, g.j + 1); }
    }

    /** What the loop has done when it ends. */
    lemma RemoveEnds(stop: Node<T>, ring: seq<Node<T>>, init: Sweep, items: seq<T>, f: T -> bool)
      requires Begins(init, |items|) && init.max == max
      requires Sweeping(stop, ring, SweepAt(init, items, f, |items|), StoredAt(items, f, |items|))
      ensures var g := SweepAt(init, items, f, |items|);
              && StoresFrom(ring, g.a, Kept(items, f)) && 0 < g.a
              && g.Offsets() && g.start == start && g.end == end
              && g.max - g.a == |Kept(items, f)|
              && (g.hit <==> BaseHit(max - 1, items, init.start, f))
              && start == StartAfterRemove(max - 1, items, init.start, f)
    {
      hide IsRing, StoresFrom, SweepAt, StoredAt, Kept, StartAfterRemove, BaseHit, Begins, Sweep.Offsets;
      SweepEnds(init, items, f);
    }

    /** Takes up the ring that the loop has left behind. */
    ghost method Settle(cur: Node<T>, stop: Node<T>, isPrev: bool, ring: seq<Node<T>>,
                        init: Sweep, items: seq<T>, f: T -> bool)
      requires Begins(init, |items|) && init.max == max
      requires At(|items|, cur, stop, isPrev, ring, init, items, f)
      modifies `cells
      ensures Valid() <==> !BaseHit(max - 1, items, init.start, f)
      ensures Valid() ==> Contents() == Kept(items, f)
      ensures start == StartAfterRemove(max - 1, items, init.start, f)
      ensures !Valid() ==> Detached() && Count() == |Kept(items, f)|
    {
      hide StoresFrom, Kept, StartAfterRemove, BaseHit;
      RemoveEnds(stop, ring, init, items, f);
      var g := SweepAt(init, items, f, |items|);
      if g.hit {
        cells := [r];
      } else {
        cells := Rotated(ring, g.base);
        ReseatedContents(ring, g.base, g.a, Kept(items, f));
      }
    }

    twostate lemma SameCount()
      requires 0 <= start < max && 0 <= end < max && start == old(start) && end == old(end) && max == old(max)
      ensures Count() == old(Count())
    {
    }

    /** What the base cell stores. */
    lemma BaseStores()
      requires Valid()
      ensures 0 <= start < max
      ensures BaseIndex(max - 1, start) < |Contents()| ==> r.value == Some(Contents()[BaseIndex(max - 1, start)])
    {
      hide IsRing, Contents;
      Shape();
      assert BaseIndex(max - 1, start) < |Contents()| ==> Cell(BaseIndex(max - 1, start)) == r;
    }

    /** (*RingQueue).Remove. `asked` is the sequence of elements on which f is called. */
    method Remove(f: T -> bool) returns (ghost asked: seq<T>)
      requires Valid() || Detached()
      modifies this, Repr
      ensures max == old(max) && r.value == old(r.value)
      ensures Repr >= old(Repr) && fresh(Repr - old(Repr))
      ensures old(Valid()) ==>
        && asked == old(Contents())
        && (Valid() <==> !BaseHit(max - 1, old(Contents()), old(start), f))
        && (Valid() ==> Contents() == Kept(old(Contents()), f))
        && (Valid() ==> start == StartAfterRemove(max - 1, old(Contents()), old(start), f))
        && (!Valid() ==> Detached() && Count() == |Kept(old(Contents()), f)|)
      ensures old(Detached()) ==> asked == [] && Detached() && Count() == old(Count())
    {
      hide *;
      ghost var attached := Valid();
      AttachedTest();
      if attached { Shape(); } else { DetachedShape(); }
      var cur := Ring.Move(r, start, cells);
      var stop := Ring.Move(r, end, cells);
      var isPrev := false;

      // The ring read from `stop`: free cells first, then the live ones.
      ghost var items, k := if attached then Contents() else [], 0;
      ghost var ring, init := Ring.Rotated(cells, if attached then end else 0), InitialSweep(max, |items|, start, end);
      if attached { SweepBegins(stop, ring, init, items, f); }
      asked := [];
      while cur != stop
        invariant attached ==> At(k, cur, stop, isPrev, ring, init, items, f)
        invariant k <= |items| && (k == |items| <==> cur == stop)
        invariant asked == items[..k]
        invariant !attached ==> Detached() && start == old(start) && end == old(end)
        invariant max == old(max) && r == old(r) && r.value == old(r.value)
        invariant Repr >= old(Repr) && fresh(Repr - old(Repr))
        decreases |items| - k
      {
        ghost var val;
        cur, isPrev, ring, val := Turn(cur, stop, isPrev, f, k, ring, init, items);
        asked := asked + [val];
        k := k + 1;
      }
      if attached {
        Settle(cur, stop, isPrev, ring, init, items, f);
      } else {
        DetachedShape();
        SameCount();
      }
    }
  }

  /** One call. */
  method Call<T>(q: RingQueue<T>, op: Op<T>) returns (reply: Reply<T>)
    requires q.Valid() || q.Detached()
    modifies q, q.Repr
    ensures q.Valid() || q.Detached()
    ensures q.max == old(q.max) && Fits(q.max - 1, old(q.Abstract()))
    ensures (q.Abstract(), reply) == Step(q.max - 1, old(q.Abstract()), op)
    ensures q.Repr >= old(q.Repr) && fresh(q.Repr - old(q.Repr))
  {
    hide RingQueue.Contents, RingQueue.WellFormed, RingQueue.Valid, RingQueue.Detached, Kept, StartAfterRemove;
    q.AttachedTest();
    if q.Valid() { q.Shape(); q.BaseStores(); } else { q.DetachedShape(); }
    match op {
    case Put(v) =>
      var ok := q.Put(v);
      reply := if ok then Accepted else QueueFull;
    case Get =>
      var v := q.Get();
      reply := match v case Ok(x) => Got(x) case Error => QueueNull case Panic => Panicked;
    case Remove(f) =>
      var _ := q.Remove(f);
      reply := Removed;
    }
    q.AttachedTest();
  }

  /** Every run: a new queue that is put through `ops` answers each call, and ends, as the model does. */
  method Execute<T>(n: nat, ops: seq<Op<T>>) returns (q: RingQueue<T>, replies: seq<Reply<T>>)
    ensures fresh(q) && fresh(q.Repr) && (q.Valid() || q.Detached())
    ensures (q.Abstract(), replies) == QueueModel.Run(n, ops)
  {
    hide *;
    q := new RingQueue(n);
    replies := [];
    NoOps<T>(n);
    assert ops[..0] == [];
    for i := 0 to |ops|
      invariant fresh(q) && fresh(q.Repr) && q.max == n + 1
      invariant q.Valid() || q.Detached()
      invariant (q.Abstract(), replies) == QueueModel.Run(n, ops[..i])
    {
      assert ops[..i + 1] == ops[..i] + [ops[i]];
      RunNext(n, ops[..i], ops[i]);
      var reply := Call(q, ops[i]);
      replies := replies + [reply];
    }
    assert ops[..|ops|] == ops;
  }

  /** Where Remove is not a filter: 1 is in the base cell of this queue, and with it 2 is lost from
      the list, though Len still counts it. The next Get delivers the 1 that was removed. */
  method RemoveBaseElement() returns (items: seq<int>, len: nat, got: Outcome<int>)
    ensures items == [] && len == 1 && got == Ok(1)
  {
    var q, _ := Execute(2, [Op.Put(1), Op.Put(2), Op.Remove(IsOne)]);
    RemoveIsNotAFilter();
    items := q.List();
    len := q.Len();
    got := q.Get();
  }
}
