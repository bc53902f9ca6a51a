/** Model of Go's container/ring, as far as the queue uses it: a ring is a closed
    chain of nodes, and any node of it stands for the whole ring. */
module Ring {
  import opened Wrappers

  class Node<T> {
    var next: Node<T>
    var prev: Node<T>
    var value: Option<T>  // None is the nil interface value

    // A ring of one node.
    constructor ()
      ensures next == this && prev == this && value == None
    {
      next := this;
      prev := this;
      value := None;
    }

    /** Connects this node with s and returns the old successor. Within one ring this cuts out
        the nodes between them; across two rings it joins them. */
    method Link(s: Node<T>) returns (n: Node<T>)
      modifies this`next, s`prev, next`prev, s.prev`next
      ensures n == old(next)
      ensures forall x: Node<T> :: x in {this, old(s.prev)} ==>
        x.next == if x == old(s.prev) then n else s
      ensures forall x: Node<T> :: x in {s, n} ==>
        x.prev == if x == n then old(s.prev) else this
    {
      n := next;
      var p := s.prev;
      next := s;
      s.prev := this;
      n.prev := p;
      p.next := n;
    }
  }

  /** Cells i and j are different nodes. It has a name so that the solver compares only those pairs
      that a proof asks about. */
  ghost predicate Differ<T>(cells: seq<Node<T>>, i: int, j: int) {
    0 <= i < j < |cells| ==> cells[i] != cells[j]
  }

  /** The nodes of cells, in this order, form one closed ring. */
  ghost predicate IsRing<T>(cells: seq<Node<T>>)
    reads cells
  {
    && |cells| > 0
    && (forall i, j :: Differ(cells, i, j))
    && (forall i {:trigger cells[i].next} :: 0 <= i < |cells| - 1 ==> cells[i].next == cells[i + 1])
    && (forall i {:trigger cells[i].prev} :: 0 < i < |cells| ==> cells[i].prev == cells[i - 1])
    && cells[|cells| - 1].next == cells[0]
    && cells[0].prev == cells[|cells| - 1]
  }

  lemma AllDiffer<T>(cells: seq<Node<T>>)
    requires IsRing(cells)
    ensures forall i, j :: 0 <= i < j < |cells| ==> cells[i] != cells[j]
  {
    forall i, j | 0 <= i < j < |cells|
      ensures cells[i] != cells[j]
    {
      assert Differ(cells, i, j);
    }
  }

  lemma CellsDiffer<T>(cells: seq<Node<T>>, i: nat, j: nat)
    requires IsRing(cells) && i < |cells| && j < |cells| && i != j
    ensures cells[i] != cells[j]
  {
    assert Differ(cells, i, j) && Differ(cells, j, i);
  }

  lemma NextCell<T>(cells: seq<Node<T>>, k: nat)
    requires IsRing(cells) && k < |cells|
    ensures cells[k].next == if k + 1 < |cells| then cells[k + 1] else cells[0]
  {
  }

  /** The same cells, read from cell k on. */
  function Rotated<T>(cells: seq<T>, k: nat): (turned: seq<T>)
    requires k < |cells|
    ensures |turned| == |cells|
  {
    seq(|cells|, i requires 0 <= i < |cells| => cells[if k + i < |cells| then k + i else k + i - |cells|])
  }

  /** A ring may be read from any of its nodes. */
  lemma RotatedRing<T>(cells: seq<Node<T>>, k: nat)
    requires IsRing(cells) && k < |cells|
    ensures IsRing(Rotated(cells, k))
  {
    RotatedDiffer(cells, k);
    RotatedLinks(cells, k);
  }

  lemma RotatedDiffer<T>(cells: seq<Node<T>>, k: nat)
    requires IsRing(cells) && k < |cells|
    ensures forall i, j :: Differ(Rotated(cells, k), i, j)
  {
    AllDiffer(cells);
    hide IsRing;
  }

  lemma RotatedLinks<T>(cells: seq<Node<T>>, k: nat)
    requires IsRing(cells) && k < |cells|
    ensures var turned := Rotated(cells, k);
            && (forall i {:trigger turned[i].next} :: 0 <= i < |turned| - 1 ==> turned[i].next == turned[i + 1])
            && (forall i {:trigger turned[i].prev} :: 0 < i < |turned| ==> turned[i].prev == turned[i - 1])
            && turned[|turned| - 1].next == turned[0] && turned[0].prev == turned[|turned| - 1]
  {
    hide Differ;
  }

  /** ring.New: a fresh ring of n nodes without values. */
  method New<T>(n: nat) returns (r: Node<T>, ghost cells: seq<Node<T>>)
    requires n > 0
    ensures IsRing(cells) && |cells| == n && cells[0] == r
    ensures forall x :: x in cells ==> fresh(x) && x.value == None
  {
    r := new Node<T>();
    var p := r;
    cells := [r];
    for i := 1 to n
      invariant |cells| == i && cells[0] == r && cells[i - 1] == p
      invariant forall x :: x in cells ==> fresh(x) && x.value == None
      invariant forall j, k :: 0 <= j < k < i ==> cells[j] != cells[k]
      invariant forall j {:trigger cells[j].next} :: 0 <= j < i - 1 ==> cells[j].next == cells[j + 1]
      invariant forall j {:trigger cells[j].prev} :: 0 < j < i ==> cells[j].prev == cells[j - 1]
    {
      assert p in cells;
      var q := new Node<T>();
      q.prev := p;
      p.next := q;
      p := q;
      cells := cells + [q];
    }
    assert p in cells && r in cells;
    p.next := r;
    r.prev := p;
  }

  /** (*Ring).Move for a count that is not negative: k steps forward from the first cell. The
      ring of one cell is the case that remains when the first cell has been cut out. */
  method Move<T>(r: Node<T>, k: nat, ghost cells: seq<Node<T>>) returns (q: Node<T>)
    requires IsRing(cells) && cells[0] == r
    requires k < |cells| || |cells| == 1
    ensures q == if |cells| == 1 then r else cells[k]
  {
    q := r;
    for i := 0 to k
      invariant q == if |cells| == 1 then r else cells[i]
    {
      q := q.next;
    }
  }

  /** end.Link(ring.New(1)) puts one fresh node behind the first cell. */
  method InsertBehind<T>(end: Node<T>, ghost cells: seq<Node<T>>) returns (ghost after: seq<Node<T>>)
    requires IsRing(cells) && cells[0] == end
    modifies cells
    ensures |after| == |cells| + 1 && fresh(after[1])
    ensures after == [end, after[1]] + cells[1..]
    ensures IsRing(after)
    ensures forall x :: x in cells ==> x.value == old(x.value)
  {
    AllDiffer(cells);
    var one, single := New<T>(1);
    assert one in single && one.prev == one;
    var _ := end.Link(one);
    after := [end, one] + cells[1..];
  }

  /** prev.Link(cur.Next()) takes the node behind prev out of the ring and leaves it alone in its own. */
  method Unlink<T>(prev: Node<T>, cur: Node<T>, ghost k: nat, ghost cells: seq<Node<T>>)
    requires IsRing(cells) && 0 < k < |cells|
    requires cells[k] == cur && cells[k - 1] == prev
    modifies cells
    ensures IsRing(cells[..k] + cells[k + 1..])
    ensures cur.next == cur && cur.prev == cur
    ensures forall x :: x in cells ==> x.value == old(x.value)
  {
    AllDiffer(cells);
    var _ := prev.Link(cur.next);
  }

  /** Both relinking steps of one removal: a fresh node goes in behind the first cell, node k comes
      out. Cells beyond k keep their index, those between move up by one. */
  method Relink<T>(end: Node<T>, cur: Node<T>, ghost k: nat, ghost cells: seq<Node<T>>)
    returns (prev: Node<T>, ghost after: seq<Node<T>>)
    requires IsRing(cells) && cells[0] == end && 0 < k < |cells| && cells[k] == cur
    modifies cells
    ensures IsRing(after) && |after| == |cells|
    ensures after[0] == end && fresh(after[1]) && prev == after[k]
    ensures forall i {:trigger after[i]} :: 1 < i <= k ==> after[i] == cells[i - 1]
    ensures forall i {:trigger after[i]} :: k < i < |cells| ==> after[i] == cells[i]
    ensures cur !in after && cur.next == cur && cur.prev == cur
    ensures forall x :: x in cells ==> x.value == old(x.value)
  {
    var mid := InsertBehind(end, cells);
    AllDiffer(mid);
    prev := cur.prev;
    Unlink(prev, cur, k + 1, mid);
    after := mid[..k + 1] + mid[k + 2..];
  }

  /** From cell a on, the cells store exactly the values of `stored`. */
  ghost predicate StoresFrom<T>(cells: seq<Node<T>>, a: nat, stored: seq<T>)
    reads cells
  {
    |cells| == a + |stored| && forall i :: a <= i < |cells| ==> cells[i].value == Some(stored[i - a])
  }

  lemma StoredValue<T>(cells: seq<Node<T>>, a: nat, stored: seq<T>, i: nat)
    requires StoresFrom(cells, a, stored) && a <= i < |cells|
    ensures |stored| == |cells| - a && cells[i].value == Some(stored[i - a])
  {
  }

  /** s less its element p. */
  function Without<T>(s: seq<T>, p: nat): (w: seq<T>)
    requires p < |s|
    ensures |w| == |s| - 1
  {
    seq(|s| - 1, i requires 0 <= i < |s| - 1 => if i < p then s[i] else s[i + 1])
  }

  /** The index to which cell i moves when cell k is recycled. */
  function Moved(i: int, k: int): int {
    if 0 < i < k then i + 1 else i
  }

  /** Relink, seen by the stored values: they stay in order, less the one of node k. */
  method Recycle<T>(end: Node<T>, cur: Node<T>, ghost k: nat, ghost a: nat,
                    ghost stored: seq<T>, ghost cells: seq<Node<T>>)
    returns (prev: Node<T>, ghost after: seq<Node<T>>)
    requires IsRing(cells) && cells[0] == end
    requires 0 < a <= k < |cells| && cells[k] == cur && StoresFrom(cells, a, stored)
    modifies cells
    ensures IsRing(after) && |after| == |cells| && after[0] == end && prev == after[k]
    ensures fresh(after[1]) && forall i :: 0 <= i < |after| && i != 1 ==> after[i] in cells
    ensures forall i {:trigger cells[i]} :: 0 <= i < |cells| && i != k ==> after[Moved(i, k)] == cells[i]
    ensures StoresFrom(after, a + 1, Without(stored, k - a))
    ensures forall x :: x in cells ==> x.value == old(x.value)
    ensures (forall i :: 0 <= i < |after| ==> after[i] != cur) && cur.next == cur && cur.prev == cur
  {
    prev, after := Relink(end, cur, k, cells);
    forall i | a < i < |after|
      ensures after[i].value == Some(Without(stored, k - a)[i - a - 1])
    {
      if i <= k {
        assert after[i] == cells[i - 1] && cells[i - 1].value == Some(stored[i - 1 - a]);
      } else {
        assert after[i] == cells[i] && cells[i].value == Some(stored[i - a]);
      }
    }
  }
}
