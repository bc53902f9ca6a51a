/** The queue of wrapper/queue.go without its ring: a bounded first-in first-out sequence, with the
    one piece of the representation that callers can observe, the place of the base cell. */
module QueueModel {
  import opened Wrappers

  /** The state of a queue for n elements. `start` is the offset of the head from the base cell.
      Detached is a queue whose base cell has been cut out of the ring: the offsets are still `count` apart,
      but the only cell that is left, the base itself, stores `cell`. */
  datatype Model<T> = Attached(items: seq<T>, start: nat) | Detached(count: nat, cell: Option<T>)

  datatype Op<!T> = Put(v: T) | Get | Remove(f: T -> bool)

  /** Panicked: Get asserts the type of a nil value. It leaves the queue as it is. */
  datatype Reply<T> = Accepted | QueueFull | Got(v: T) | QueueNull | Removed | Panicked

  /** The elements on which f is false, in their order. */
  function Kept<T>(s: seq<T>, f: T -> bool): (k: seq<T>)
    ensures |k| <= |s|
  {
    if s == [] then []
    else Kept(s[..|s| - 1], f) + if f(s[|s| - 1]) then [] else [s[|s| - 1]]
  }

  /** s less its element i. */
  function CutOut<T>(s: seq<T>, i: nat): (r: seq<T>)
    requires i < |s|
    ensures |r| == |s| - 1
  {
    s[..i] + s[i + 1..]
  }

  /** Visiting one more element of s. */
  lemma KeptNext<T>(s: seq<T>, k: nat, f: T -> bool)
    requires k < |s|
    ensures Kept(s[..k + 1], f) == Kept(s[..k], f) + if f(s[k]) then [] else [s[k]]
    ensures var was := Kept(s[..k], f) + s[k..];
            Kept(s[..k + 1], f) + s[k + 1..] ==
            if f(s[k]) then CutOut(was, |Kept(s[..k], f)|) else was
  {
    assert s[..k + 1][..k] == s[..k];
    assert s[k..] == [s[k]] + s[k + 1..];
    Squeeze(Kept(s[..k], f), s[k], s[k + 1..]);
  }

  lemma Squeeze<T>(a: seq<T>, x: T, b: seq<T>)
    ensures var was := a + ([x] + b); CutOut(was, |a|) == a + b && a + [x] + b == was
  {
  }

  /** The index in the contents at which the base cell is reached; beyond the last element it is free. */
  function BaseIndex(n: nat, start: nat): (k: nat)
    requires start <= n
    ensures (start + k) % (n + 1) == 0 && k <= n
  {
    if start == 0 then 0 else n + 1 - start
  }

  /** f holds on the element that the base cell stores. */
  predicate BaseHit<T>(n: nat, items: seq<T>, start: nat, f: T -> bool)
    requires start <= n
  {
    BaseIndex(n, start) < |items| && f(items[BaseIndex(n, start)])
  }

  /** The head's offset after a removal: it moves only for elements removed ahead of the base cell. */
  function StartAfterRemove<T>(n: nat, items: seq<T>, start: nat, f: T -> bool): (s: nat)
    requires |items| <= n && start <= n
    ensures s <= n
  {
    if start == 0 || start + |items| <= n then start
    else
      var ahead := items[..BaseIndex(n, start)];
      var moved := start + |ahead| - |Kept(ahead, f)|;
      if moved == n + 1 then 0 else moved
  }

  predicate Fits<T>(n: nat, m: Model<T>)
  {
    if m.Attached? then |m.items| <= n && m.start <= n else m.count <= n
  }

  function Step<T>(n: nat, m: Model<T>, op: Op<T>): (r: (Model<T>, Reply<T>))
    requires Fits(n, m)
    ensures Fits(n, r.0) && (m.Detached? ==> r.0.Detached?)
  {
    if m.Attached? then AttachedStep(n, m, op) else DetachedStep(n, m, op)
  }

  function AttachedStep<T>(n: nat, m: Model<T>, op: Op<T>): (r: (Model<T>, Reply<T>))
    requires Fits(n, m) && m.Attached?
    ensures Fits(n, r.0)
  {
    match op
    case Put(v) =>
      if |m.items| == n then (m, QueueFull) else (m.(items := m.items + [v]), Accepted)
    case Get =>
      if m.items == [] then (m, QueueNull)
      else (Attached(m.items[1..], if m.start == n then 0 else m.start + 1), Got(m.items[0]))
    case Remove(f) =>
      if BaseHit(n, m.items, m.start, f) then
        (Detached(|Kept(m.items, f)|, Some(m.items[BaseIndex(n, m.start)])), Removed)
      else (Attached(Kept(m.items, f), StartAfterRemove(n, m.items, m.start, f)), Removed)
  }

  /** The one cell is written and emptied, whatever the offsets are; Remove finds nothing. */
  function DetachedStep<T>(n: nat, m: Model<T>, op: Op<T>): (r: (Model<T>, Reply<T>))
    requires Fits(n, m) && m.Detached?
    ensures Fits(n, r.0) && r.0.Detached?
  {
    match op
    case Put(v) =>
      if m.count == n then (m, QueueFull) else (Detached(m.count + 1, Some(v)), Accepted)
    case Get =>
      if m.count == 0 then (m, QueueNull)
      else if m.cell == None then (m, Panicked)
      else (Detached(m.count - 1, None), Got(m.cell.value))
    case Remove(f) => (m, Removed)
  }

  /** A run from the empty queue. */
  function Run<T>(n: nat, ops: seq<Op<T>>): (r: (Model<T>, seq<Reply<T>>))
    ensures Fits(n, r.0) && |r.1| == |ops|
  {
    if ops == [] then (Attached([], 0), [])
    else
      var (m, replies) := Run(n, ops[..|ops| - 1]);
      var (m', reply) := Step(n, m, ops[|ops| - 1]);
      (m', replies + [reply])
  }

  // ----- what a run preserves

  function EnteredBy<T>(op: Op<T>, reply: Reply<T>): seq<T> {
    if op.Put? && reply.Accepted? then [op.v] else []
  }

  function DeliveredBy<T>(reply: Reply<T>): seq<T> {
    if reply.Got? then [reply.v] else []
  }

  /** The values whose Put was accepted, in call order. */
  function Entered<T>(ops: seq<Op<T>>, replies: seq<Reply<T>>): seq<T>
    requires |replies| == |ops|
  {
    if ops == [] then []
    else
      var i := |ops| - 1;
      Entered(ops[..i], replies[..i]) + EnteredBy(ops[i], replies[i])
  }

  /** The values that Get has delivered, in call order. */
  function Delivered<T>(replies: seq<Reply<T>>): seq<T>
  {
    if replies == [] then []
    else
      var i := |replies| - 1;
      Delivered(replies[..i]) + DeliveredBy(replies[i])
  }

  /** s is what remains of t after deleting some elements. */
  ghost predicate Subsequence<T>(s: seq<T>, t: seq<T>)
  {
    if s == [] then true
    else if t == [] then false
    else
      || Subsequence(s, t[..|t| - 1])
      || (s[|s| - 1] == t[|t| - 1] && Subsequence(s[..|s| - 1], t[..|t| - 1]))
  }

  lemma {:induction false} SubsequenceRefl<T>(s: seq<T>)
    ensures Subsequence(s, s)
  {
    if s != [] { SubsequenceRefl(s[..|s| - 1]); }
  }

  lemma {:induction false} SubsequenceTrans<T>(s: seq<T>, t: seq<T>, u: seq<T>)
    requires Subsequence(s, t) && Subsequence(t, u)
    ensures Subsequence(s, u)
    decreases |s| + |t| + |u|
  {
    if s != [] {
      var s', t', u' := s[..|s| - 1], t[..|t| - 1], u[..|u| - 1];
      if Subsequence(t, u') {
        SubsequenceTrans(s, t, u');
      } else if Subsequence(s, t') {
        SubsequenceTrans(s, t', u');
      } else {
        SubsequenceTrans(s', t', u');
      }
    }
  }

  /** The same tail may be added on both sides. */
  lemma {:induction false} SubsequenceSnoc<T>(s: seq<T>, t: seq<T>, x: T)
    requires Subsequence(s, t)
    ensures Subsequence(s + [x], t + [x])
  {
    assert (s + [x])[..|s|] == s && (t + [x])[..|t|] == t;
  }

  lemma {:induction false} KeptIsSubsequence<T>(head: seq<T>, s: seq<T>, f: T -> bool)
    ensures Subsequence(head + Kept(s, f), head + s)
  {
    if s == [] {
      assert head + Kept(s, f) == head == head + s;
      SubsequenceRefl(head);
    } else {
      var s', x := s[..|s| - 1], s[|s| - 1];
      KeptIsSubsequence(head, s', f);
      assert head + s == (head + s') + [x];
      if f(x) {
        assert (head + s)[..|head + s| - 1] == head + s';
        assert Kept(s, f) == Kept(s', f);
      } else {
        assert head + Kept(s, f) == (head + Kept(s', f)) + [x];
        SubsequenceSnoc(head + Kept(s', f), head + s', x);
      }
    }
  }

  /** The elements on which f is true, in their order. */
  function Dropped<T>(s: seq<T>, f: T -> bool): seq<T> {
    Kept(s, x => !f(x))
  }

  function TakenBy<T>(m: Model<T>, op: Op<T>): seq<T>
  {
    if m.Attached? && op.Remove? then Dropped(m.items, op.f) else []
  }

  /** The elements on which the predicates of the Removes were true, in call order. */
  function Taken<T>(n: nat, ops: seq<Op<T>>): seq<T> {
    if ops == [] then []
    else
      var i := |ops| - 1;
      Taken(n, ops[..i]) + TakenBy(Run(n, ops[..i]).0, ops[i])
  }

  /** None of the elements that are kept fulfils f, and each of those that are dropped does. */
  lemma {:induction false} KeptByPredicate<T>(s: seq<T>, f: T -> bool)
    ensures forall x :: x in Kept(s, f) ==> !f(x)
    ensures forall x :: x in Dropped(s, f) ==> f(x)
  {
    if s != [] { KeptByPredicate(s[..|s| - 1], f); }
  }

  /** A predicate splits a sequence. */
  lemma {:induction false} KeptAndDropped<T>(s: seq<T>, f: T -> bool)
    ensures multiset(Kept(s, f)) + multiset(Dropped(s, f)) == multiset(s)
  {
    if s != [] {
      var s', x := s[..|s| - 1], s[|s| - 1];
      KeptAndDropped(s', f);
      assert s == s' + [x];
    }
  }

  /** No element is lost or doubled by one operation. */
  lemma StepConserves<T>(n: nat, m: Model<T>, op: Op<T>)
    requires Fits(n, m) && m.Attached? && Step(n, m, op).0.Attached?
    ensures var (m', reply) := Step(n, m, op);
            multiset(DeliveredBy(reply)) + multiset(m'.items) + multiset(TakenBy(m, op)) ==
            multiset(m.items) + multiset(EnteredBy(op, reply))
  {
    hide Kept, Dropped, StartAfterRemove, BaseHit;
    match op
    case Put(v) =>
    case Get =>
      if m.items != [] { assert m.items == [m.items[0]] + m.items[1..]; }
    case Remove(f) => KeptAndDropped(m.items, f);
  }

  /** The last step of a run. */
  lemma LastStep<T>(n: nat, ops: seq<Op<T>>) returns (m: Model<T>, reply: Reply<T>)
    requires ops != [] && Run(n, ops).0.Attached?
    ensures var i := |ops| - 1;
            var (before, replies0) := Run(n, ops[..i]);
            var (after, replies) := Run(n, ops);
            && before.Attached? && (m, reply) == Step(n, before, ops[i]) && after == m
            && multiset(Delivered(replies)) == multiset(Delivered(replies0)) + multiset(DeliveredBy(reply))
            && multiset(Entered(ops, replies)) ==
               multiset(Entered(ops[..i], replies0)) + multiset(EnteredBy(ops[i], reply))
            && multiset(Taken(n, ops)) == multiset(Taken(n, ops[..i])) + multiset(TakenBy(before, ops[i]))
  {
    var i := |ops| - 1;
    hide Step, Dropped, Kept;
    var (before, replies0) := Run(n, ops[..i]);
    m, reply := Step(n, before, ops[i]).0, Step(n, before, ops[i]).1;
    assert Run(n, ops).1[..i] == replies0;
  }

  lemma Balance<T>(out: multiset<T>, items: multiset<T>, taken: multiset<T>,
                   out': multiset<T>, items': multiset<T>, taken': multiset<T>, all: multiset<T>, all': multiset<T>)
    requires out + items + taken == all && out' + items' + taken' == items + all'
    ensures (out + out') + items' + (taken + taken') == all + all'
  {
    assert all + all' == (out + taken) + (items + all');
    assert (out + out') + items' + (taken + taken') == (out + taken) + (out' + items' + taken');
  }

  /** Over every run exactly the elements on which the predicate of some Remove was true are missing. */
  lemma {:induction false} NothingElseIsLost<T>(n: nat, ops: seq<Op<T>>)
    requires Run(n, ops).0.Attached?
    ensures var (m, replies) := Run(n, ops);
            multiset(Delivered(replies)) + multiset(m.items) + multiset(Taken(n, ops)) ==
            multiset(Entered(ops, replies))
  {
    if ops != [] {
      var i := |ops| - 1;
      hide *;
      var m, reply := LastStep(n, ops);
      NothingElseIsLost(n, ops[..i]);
      var (before, replies0) := Run(n, ops[..i]);
      StepConserves(n, before, ops[i]);
      Balance(multiset(Delivered(replies0)), multiset(before.items), multiset(Taken(n, ops[..i])),
              multiset(DeliveredBy(reply)), multiset(m.items), multiset(TakenBy(before, ops[i])),
              multiset(Entered(ops[..i], replies0)), multiset(EnteredBy(ops[i], reply)));
    }
  }

  /** One operation: `out` went out before it and `all` came in. */
  lemma StepFirstInFirstOut<T>(n: nat, m: Model<T>, op: Op<T>, out: seq<T>, all: seq<T>)
    requires Fits(n, m) && m.Attached? && Step(n, m, op).0.Attached?
    requires Subsequence(out + m.items, all)
    ensures var (m', reply) := Step(n, m, op);
            && Subsequence(out + DeliveredBy(reply) + m'.items, all + EnteredBy(op, reply))
            && (!op.Remove? && out + m.items == all ==>
                  out + DeliveredBy(reply) + m'.items == all + EnteredBy(op, reply))
  {
    hide Subsequence, Kept, StartAfterRemove, BaseHit;
    var (m', reply) := Step(n, m, op);
    match op
    case Put(v) =>
      if reply.Accepted? {
        assert out + DeliveredBy(reply) + m'.items == (out + m.items) + [v];
        SubsequenceSnoc(out + m.items, all, v);
      } else {
        assert out + DeliveredBy(reply) + m'.items == out + m.items;
        assert all + EnteredBy(op, reply) == all;
      }
    case Get =>
      assert out + DeliveredBy(reply) + m'.items == out + m.items;
      assert all + EnteredBy(op, reply) == all;
    case Remove(f) =>
      KeptIsSubsequence(out, m.items, f);
      assert out + DeliveredBy(reply) == out && all + EnteredBy(op, reply) == all;
      SubsequenceTrans(out + m'.items, out + m.items, all);
  }

  /** First in, first out over every run: what was delivered followed by what is still queued is the
      accepted values in their order, less those that a Remove took; with no Remove nothing is missing. */
  lemma {:induction false} FirstInFirstOut<T>(n: nat, ops: seq<Op<T>>)
    requires Run(n, ops).0.Attached?
    ensures var (m, replies) := Run(n, ops);
            && Subsequence(Delivered(replies) + m.items, Entered(ops, replies))
            && ((forall op :: op in ops ==> !op.Remove?) ==> Delivered(replies) + m.items == Entered(ops, replies))
  {
    if ops != [] {
      var i := |ops| - 1;
      FirstInFirstOut(n, ops[..i]);
      var (m0, replies0) := Run(n, ops[..i]);
      var (m, replies) := Run(n, ops);
      assert replies[..i] == replies0;
      StepFirstInFirstOut(n, m0, ops[i], Delivered(replies0), Entered(ops[..i], replies0));
    }
  }

  /** Operation k is a Remove whose predicate holds on the element in the base cell. */
  ghost predicate CutsBase<T>(n: nat, ops: seq<Op<T>>, k: nat) {
    && k < |ops| && ops[k].Remove?
    && var m := Run(n, ops[..k]).0;
    m.Attached? && BaseHit(n, m.items, m.start, ops[k].f)
  }

  lemma CutsBaseBefore<T>(n: nat, ops: seq<Op<T>>, i: nat, k: nat)
    requires k < i <= |ops|
    ensures CutsBase(n, ops[..i], k) <==> CutsBase(n, ops, k)
  {
    hide Run, BaseHit;
    assert ops[..i][..k] == ops[..k];
  }

  lemma CutIsInside<T>(n: nat, ops: seq<Op<T>>, k: nat)
    requires CutsBase(n, ops, k)
    ensures k < |ops|
  {
  }

  lemma CutsBaseLast<T>(n: nat, ops: seq<Op<T>>)
    requires ops != []
    ensures Run(n, ops).0.Detached? <==> Run(n, ops[..|ops| - 1]).0.Detached? || CutsBase(n, ops, |ops| - 1)
  {
    hide BaseHit, Kept, StartAfterRemove, BaseIndex;
  }

  ghost predicate BaseIsCut<T>(n: nat, ops: seq<Op<T>>) {
    exists k :: CutsBase(n, ops, k)
  }

  lemma BaseIsCutBy<T>(n: nat, ops: seq<Op<T>>)
    requires ops != []
    ensures BaseIsCut(n, ops) <==> BaseIsCut(n, ops[..|ops| - 1]) || CutsBase(n, ops, |ops| - 1)
  {
    var i := |ops| - 1;
    var init := ops[..i];
    if BaseIsCut(n, init) {
      var k: nat :| CutsBase(n, init, k);
      hide *;
      CutIsInside(n, init, k);
      CutsBaseBefore(n, ops, i, k);
      CutIsCut(n, ops, k);
    }
    if BaseIsCut(n, ops) {
      var k: nat :| CutsBase(n, ops, k);
      hide *;
      CutIsInside(n, ops, k);
      if k < i {
        CutsBaseBefore(n, ops, i, k);
        CutIsCut(n, init, k);
      }
    }
  }

  lemma CutIsCut<T>(n: nat, ops: seq<Op<T>>, k: nat)
    requires CutsBase(n, ops, k)
    ensures BaseIsCut(n, ops)
  {
  }

  lemma NoCuts<T>(n: nat)
    ensures !BaseIsCut<T>(n, [])
  {
  }

  /** The base cell is cut out exactly by such an operation. */
  lemma {:induction false} DetachedExactlyByBaseHit<T>(n: nat, ops: seq<Op<T>>)
    ensures Run(n, ops).0.Detached? <==> BaseIsCut(n, ops)
  {
    hide *;
    if ops != [] {
      DetachedExactlyByBaseHit(n, ops[..|ops| - 1]);
      CutsBaseLast(n, ops);
      BaseIsCutBy(n, ops);
    } else {
      NoOps<T>(n);
      NoCuts<T>(n);
    }
  }

  /** What List returns. */
  function Listed<T>(m: Model<T>): seq<T> {
    if m.Attached? then m.items else []
  }

  /** What Len returns. */
  function Length<T>(m: Model<T>): nat {
    if m.Attached? then |m.items| else m.count
  }

  /** Remove filters, as far as List and Len can tell, if and only if the base cell stays or nothing was
      to be kept. */
  lemma RemoveFiltersExactly<T>(n: nat, m: Model<T>, f: T -> bool)
    requires Fits(n, m) && m.Attached?
    ensures var m' := Step(n, m, Op.Remove(f)).0;
            && Length(m') == |Kept(m.items, f)|
            && (Listed(m') == Kept(m.items, f) <==> !BaseHit(n, m.items, m.start, f) || Kept(m.items, f) == [])
  {
  }

  predicate IsOne(x: int) { x == 1 }

  /** After the base cell has been cut out, the element that Remove took is the first to be delivered; the
      next Get panics unless something has been put in between, and no element that was kept comes back. */
  lemma DetachedDelivers<T>(n: nat, m: Model<T>, f: T -> bool)
    requires Fits(n, m) && m.Attached? && BaseHit(n, m.items, m.start, f)
    ensures var m1 := Step(n, m, Op.Remove(f)).0;
            var (m2, reply) := Step(n, m1, Op.Get);
            && (Kept(m.items, f) == [] ==> reply == QueueNull)
            && (Kept(m.items, f) != [] ==> reply == Got(m.items[BaseIndex(n, m.start)]) && f(reply.v))
            && (|Kept(m.items, f)| > 1 ==> Step(n, m2, Op.Get) == (m2, Panicked))
  {
  }

  /** Two elements, of which the first is in the base cell: removing it does not leave the second. */
  lemma RemoveIsNotAFilter()
    ensures Kept([1, 2], IsOne) == [2]
    ensures Run(2, [Op.Put(1), Op.Put(2), Op.Remove(IsOne)]).0 == Detached(1, Some(1))
  {
    hide Kept, Run, Step;
    var ops := [Op.Put(1), Op.Put(2), Op.Remove(IsOne)];
    KeepsTheSecond();
    NoOps<int>(2);
    assert [] + [ops[0]] == ops[..1] && ops[..1] + [ops[1]] == ops[..2] && ops[..2] + [ops[2]] == ops;
    RunNext(2, [], ops[0]);
    RunNext(2, ops[..1], ops[1]);
    RunNext(2, ops[..2], ops[2]);
    ThreeSteps();
  }

  lemma ThreeSteps()
    requires Kept([1, 2], IsOne) == [2]
    ensures Step(2, Attached([], 0), Op.Put(1)).0 == Attached([1], 0)
    ensures Step(2, Attached([1], 0), Op.Put(2)).0 == Attached([1, 2], 0)
    ensures Step(2, Attached([1, 2], 0), Op.Remove(IsOne)).0 == Detached(1, Some(1))
  {
    hide Kept;
    assert [] + [1] == [1] && [1] + [2] == [1, 2];
  }

  lemma NoOps<T>(n: nat)
    ensures Run<T>(n, []) == (Attached([], 0), [])
  {
  }

  lemma KeepsTheSecond()
    ensures Kept([1, 2], IsOne) == [2]
  {
    KeptNext([1, 2], 0, IsOne);
    KeptNext([1, 2], 1, IsOne);
    assert [1, 2][..0] == [] && [1, 2][..2] == [1, 2];
  }

  lemma RunNext<T>(n: nat, ops: seq<Op<T>>, op: Op<T>)
    ensures Run(n, ops + [op]).0 == Step(n, Run(n, ops).0, op).0
    ensures Run(n, ops + [op]).1 == Run(n, ops).1 + [Step(n, Run(n, ops).0, op).1]
  {
    assert (ops + [op])[..|ops|] == ops;
  }
}
