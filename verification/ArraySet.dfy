/** Model of sets/array.go: a set in an array of fixed size, with a callback for when it is full. */
module ArraySet {
  import opened Wrappers
  import opened Distinct

  /** What a full-callback does with the set: it returns an error; it leaves the set full; it calls Reset. */
  datatype Answer = Refuses | Leaves | Resets

  /** Any callback that decides by the elements that it has been given so far, the present ones last. */
  type Callback<!T> = seq<seq<T>> -> Answer

  /** How Append returns: nil, ErrorSetFull, or the callback's error. */
  datatype Reply = Done | SetFull | CallbackError

  /** The batches that the callback was given and the elements that are in the set now. */
  datatype Model<T> = Model(batches: seq<seq<T>>, list: seq<T>)

  /** The scan covers the whole array, so the zero value is found as long as a cell is free. */
  predicate Found<T(==)>(size: nat, zero: T, list: seq<T>, v: T) {
    v in list || (v == zero && |list| < size)
  }

  /** One value: the new state, and the reply if Append returns there. */
  datatype Turn<T> = Next(m: Model<T>) | Return(m: Model<T>, reply: Reply)

  function AddOne<T(==)>(size: nat, zero: T, callback: Option<Callback<T>>, m: Model<T>, v: T): Turn<T> {
    if Found(size, zero, m.list, v) then Next(m)
    else if |m.list| < size then Next(m.(list := m.list + [v]))
    else if callback == None then Return(m, SetFull)
    else
      var batches := m.batches + [m.list];
      match callback.value(batches)
      case Refuses => Return(Model(batches, m.list), CallbackError)
      case Leaves => Return(Model(batches, m.list), Done)
      case Resets =>
        if size == 0 then Return(Model(batches, []), Done) else Next(Model(batches, [v]))
  }

  /** Append. */
  function Added<T(==)>(size: nat, zero: T, callback: Option<Callback<T>>, m: Model<T>, values: seq<T>)
    : (Model<T>, Reply)
    decreases |values|
  {
    if values == [] then (m, Done)
    else
      match AddOne(size, zero, callback, m, values[0])
      case Return(m', reply) => (m', reply)
      case Next(m') => Added(size, zero, callback, m', values[1..])
  }

  class ArraySet<T(==,!new)> {
    const zero: T
    const size: nat
    const callback: Option<Callback<T>>
    var arr: array<T>
    var cur: int
    var batches: seq<seq<T>>  // what the callback has been given

    ghost predicate Valid()
      reads this, arr
    {
      && arr.Length == size && -1 <= cur < size
      && forall i :: cur < i < size ==> arr[i] == zero
    }

    function Abstract(): Model<T>
      requires Valid()
      reads this, arr
    {
      Model(batches, arr[..cur + 1])
    }

    constructor (size: nat, zero: T, callback: Option<Callback<T>>)
      ensures Valid() && fresh(arr) && Abstract() == Model([], [])
      ensures this.size == size && this.zero == zero && this.callback == callback
    {
      this.zero, this.size, this.callback := zero, size, callback;
      arr := new T[size](_ => zero);
      cur, batches := -1, [];
    }

    method Reset()
      requires arr.Length == size
      modifies this`arr, this`cur
      ensures Valid() && fresh(arr) && Abstract() == Model(batches, [])
    {
      arr := new T[size](_ => zero);
      cur := -1;
    }

    method Include(value: T) returns (found: bool)
      requires Valid()
      ensures found == Found(size, zero, Abstract().list, value)
    {
      for i := 0 to size
        invariant value !in arr[..i]
      {
        if arr[i] == value {
          assert i <= cur ==> arr[..cur + 1][i] == value;
          return true;
        }
      }
      assert arr[..size][..cur + 1] == arr[..cur + 1];
      assert cur + 1 < size ==> arr[cur + 1] in arr[..size];
      return false;
    }

    /** One turn of Append's loop: whether it goes on, and the reply if it does not. */
    method AppendOne(value: T) returns (next: bool, reply: Reply)
      requires Valid()
      modifies this, arr
      ensures Valid() && (arr == old(arr) || fresh(arr))
      ensures AddOne(size, zero, callback, old(Abstract()), value) ==
              if next then Turn.Next(Abstract()) else Return(Abstract(), reply)
    {
      hide Found;
      var found := Include(value);
      if found {
        return true, Done;
      }
      cur := cur + 1;
      var idx := cur;
      if idx >= size {
        cur := cur - 1;
        if callback == None {
          return false, SetFull;
        }
        batches := batches + [arr[..cur + 1]];
        match callback.value(batches) {
          case Refuses => return false, CallbackError;
          case Leaves =>
          case Resets => Reset();
        }
        cur := cur + 1;
        idx := cur;
        if idx >= size {
          cur := cur - 1;
          return false, Done;
        }
      }
      ghost var before := arr[..idx];
      arr[idx] := value;
      assert arr[..idx + 1] == before + [value];
      return true, Done;
    }

    method Append(values: seq<T>) returns (reply: Reply)
      requires Valid()
      modifies this, arr
      ensures Valid() && (arr == old(arr) || fresh(arr))
      ensures (Abstract(), reply) == Added(size, zero, callback, old(Abstract()), values)
    {
      hide AddOne, Abstract, Valid;
      assert values[0..] == values;
      for k := 0 to |values|
        invariant Valid() && (arr == old(arr) || fresh(arr))
        invariant Added(size, zero, callback, old(Abstract()), values) ==
                  Added(size, zero, callback, Abstract(), values[k..])
      {
        assert values[k..][1..] == values[k + 1..];
        var next;
        next, reply := AppendOne(values[k]);
        if !next {
          return;
        }
      }
      reply := Done;
    }
  }

  // ----- what the set keeps

  /** Every batch and the set itself hold different elements, and every batch is full. */
  ghost predicate Sound<T(!new)>(size: nat, m: Model<T>) {
    && |m.list| <= size && NoRepeats(m.list)
    && forall b :: 0 <= b < |m.batches| ==> |m.batches[b]| == size && NoRepeats(m.batches[b])
  }

  /** The reply says what became of the last call of the callback, if there was one: its error is passed on, and if
      it left the set full the rest of the values is dropped without an error. */
  lemma {:induction false} RepliesSay<T(!new)>(
    size: nat, zero: T, callback: Option<Callback<T>>, m: Model<T>, values: seq<T>)
    requires Sound(size, m)
    ensures var (m', reply) := Added(size, zero, callback, m, values);
            && m.batches <= m'.batches
            && (reply == SetFull ==> callback == None && |m'.list| == size)
            && (callback == None ==> m'.batches == m.batches && reply != CallbackError)
            && (reply == CallbackError <==>
                  |m'.batches| > |m.batches| && callback.Some? && callback.value(m'.batches) == Refuses)
            && (|m'.batches| > |m.batches| && callback.Some? && callback.value(m'.batches) != Resets ==>
                  m'.list == m'.batches[|m'.batches| - 1] && |m'.list| == size)
    decreases |values|
  {
    if values != [] {
      match AddOne(size, zero, callback, m, values[0])
      case Return(m', _) =>
      case Next(m') =>
        AddedIsSound(size, zero, callback, m, [values[0]]);
        assert Added(size, zero, callback, m, [values[0]]).0 == m';
        RepliesSay(size, zero, callback, m', values[1..]);
        var end := Added(size, zero, callback, m', values[1..]).0;
        if |end.batches| == |m'.batches| { assert end.batches == m'.batches; }
    }
  }

  /** x has been kept. */
  ghost predicate Holds<T>(m: Model<T>, x: T) {
    x in m.list || exists b :: 0 <= b < |m.batches| && x in m.batches[b]
  }

  lemma {:induction false} AddedIsSound<T(!new)>(
    size: nat, zero: T, callback: Option<Callback<T>>, m: Model<T>, values: seq<T>)
    requires Sound(size, m)
    ensures Sound(size, Added(size, zero, callback, m, values).0)
    decreases |values|
  {
    if values != [] {
      match AddOne(size, zero, callback, m, values[0])
      case Return(m', _) =>
      case Next(m') => AddedIsSound(size, zero, callback, m', values[1..]);
    }
  }

  lemma BatchKeeps<T(!new)>(m: Model<T>, list: seq<T>, v: T)
    ensures forall x :: Holds(m, x) ==> Holds(Model(m.batches + [m.list], [v]), x)
    ensures forall x :: Holds(Model(m.batches + [m.list], [v]), x) ==> Holds(m, x) || x == v
  {
    var m' := Model(m.batches + [m.list], [v]);
    forall x | Holds(m, x)
      ensures Holds(m', x)
    {
      if x in m.list {
        assert m'.batches[|m.batches|] == m.list;
      } else {
        var b :| 0 <= b < |m.batches| && x in m.batches[b];
        assert m'.batches[b] == m.batches[b];
      }
    }
  }

  ghost predicate AlwaysResets<T(!new)>(callback: Option<Callback<T>>) {
    callback.Some? && forall batches :: callback.value(batches) == Resets
  }

  /** The zero value comes when no cell is free. */
  predicate ZeroMeetsFull<T(==)>(size: nat, zero: T, callback: Option<Callback<T>>, m: Model<T>, values: seq<T>)
    decreases |values|
  {
    if values == [] then false
    else
      || (values[0] == zero && |m.list| == size)
      || ZeroMeetsFull(size, zero, callback, AddOne(size, zero, callback, m, values[0]).m, values[1..])
  }

  /** With a callback that always resets nothing is lost but the zero value while a cell is free, and
      nothing is invented: what the callback was given and what is in the set are exactly the values
      appended. Append never fails. */
  lemma {:induction false} RecordingKeepsAll<T(!new)>(
    size: nat, zero: T, callback: Option<Callback<T>>, m: Model<T>, values: seq<T>)
    requires size > 0 && Sound(size, m) && AlwaysResets(callback)
    ensures var (m', reply) := Added(size, zero, callback, m, values);
            && reply == Done
            && (forall x :: x != zero ==> (Holds(m', x) <==> Holds(m, x) || x in values))
            && (Holds(m', zero) <==> Holds(m, zero) || ZeroMeetsFull(size, zero, callback, m, values))
    decreases |values|
  {
    if values != [] {
      var v := values[0];
      var m1 := AddOne(size, zero, callback, m, v).m;
      OneIsKept(size, zero, callback, m, v);
      RecordingKeepsAll(size, zero, callback, m1, values[1..]);
      assert forall x :: x in values <==> x == v || x in values[1..];
    }
  }

  lemma OneIsKept<T(!new)>(size: nat, zero: T, callback: Option<Callback<T>>, m: Model<T>, v: T)
    requires size > 0 && Sound(size, m) && AlwaysResets(callback)
    ensures var turn := AddOne(size, zero, callback, m, v);
            && turn.Next? && Sound(size, turn.m)
            && forall x :: Holds(turn.m, x) <==> Holds(m, x) || (x == v && (v != zero || |m.list| == size))
  {
    BatchKeeps(m, m.list, v);
    AddedIsSound(size, zero, callback, m, [v]);
    assert Added(size, zero, callback, m, [v]).0 == AddOne(size, zero, callback, m, v).m;
  }

  // ----- the order of what is kept

  function NonZero<T(==)>(zero: T, s: seq<T>): (r: seq<T>)
    ensures zero !in r
  {
    if s == [] then [] else NonZero(zero, s[..|s| - 1]) + if s[|s| - 1] == zero then [] else [s[|s| - 1]]
  }

  /** The different values of s but the zero value, in the order in which they come. */
  function Collected<T(==,!new)>(zero: T, s: seq<T>): (r: seq<T>)
    ensures zero !in r
  {
    FirstOccurrences(NonZero(zero, s))
  }

  /** What is kept of consecutive values that fall into one batch: the one that opens a new batch is kept
      even if it is the zero value. */
  function Elements<T(==,!new)>(zero: T, first: bool, segment: seq<T>): seq<T> {
    if first || segment == [] then Collected(zero, segment)
    else FirstOccurrences([segment[0]] + NonZero(zero, segment[1..]))
  }

  function Flatten<T>(segments: seq<seq<T>>): seq<T> {
    if segments == [] then [] else Flatten(segments[..|segments| - 1]) + segments[|segments| - 1]
  }

  /** Each batch, and at last the list, is made of one segment of the values; a new segment begins where a
      value that a full batch does not hold has come. */
  ghost predicate Segmented<T(!new)>(size: nat, zero: T, m: Model<T>, segments: seq<seq<T>>) {
    && |segments| == |m.batches| + 1
    && (forall b :: 0 <= b < |m.batches| ==> IsBatch(size, zero, m.batches[b], b == 0, segments[b], segments[b + 1]))
    && m.list == Elements(zero, |segments| == 1, segments[|segments| - 1]) && |m.list| <= size
    && (|segments| > 1 ==> segments[|segments| - 1] != [])
  }

  ghost predicate IsBatch<T(!new)>(size: nat, zero: T, batch: seq<T>, first: bool, segment: seq<T>, next: seq<T>) {
    batch == Elements(zero, first, segment) && |batch| == size && next != [] && next[0] !in batch
  }

  lemma FirstOccurrencesSnoc<T(!new)>(s: seq<T>, x: T)
    ensures FirstOccurrences(s + [x]) ==
            if x in FirstOccurrences(s) then FirstOccurrences(s) else FirstOccurrences(s) + [x]
  {
    assert (s + [x])[..|s|] == s;
  }

  lemma CollectedSnoc<T(!new)>(zero: T, s: seq<T>, x: T)
    ensures NonZero(zero, s + [x]) == NonZero(zero, s) + if x == zero then [] else [x]
    ensures Collected(zero, s + [x]) ==
            if x == zero || x in Collected(zero, s) then Collected(zero, s) else Collected(zero, s) + [x]
  {
    assert (s + [x])[..|s|] == s;
    FirstOccurrencesSnoc(NonZero(zero, s), x);
    assert NonZero(zero, s) + [] == NonZero(zero, s);
  }

  lemma ElementsSnoc<T(!new)>(zero: T, first: bool, s: seq<T>, x: T)
    requires first || s != []
    ensures Elements(zero, first, s + [x]) ==
            var e := Elements(zero, first, s); if x == zero || x in e then e else e + [x]
  {
    hide FirstOccurrences, NonZero, Collected;
    if first {
      CollectedSnoc(zero, s, x);
    } else {
      var h, t := s[0], s[1..];
      var kept := NonZero(zero, t);
      assert (s + [x])[0] == h && (s + [x])[1..] == t + [x];
      CollectedSnoc(zero, t, x);
      if x == zero {
        assert kept + [] == kept;
      } else {
        FirstOccurrencesSnoc([h] + kept, x);
        assert [h] + (kept + [x]) == [h] + kept + [x];
      }
    }
  }

  lemma FlattenSnoc<T>(segments: seq<seq<T>>, s: seq<T>)
    ensures Flatten(segments + [s]) == Flatten(segments) + s
  {
    assert (segments + [s])[..|segments|] == segments;
  }

  /** One value goes into the last segment, or opens another. */
  lemma SegmentStep<T(!new)>(
    size: nat, zero: T, callback: Option<Callback<T>>, m: Model<T>, segments: seq<seq<T>>, v: T)
    returns (after: seq<seq<T>>)
    requires size > 0 && AlwaysResets(callback) && Segmented(size, zero, m, segments)
    ensures var turn := AddOne(size, zero, callback, m, v); turn.Next? && Segmented(size, zero, turn.m, after)
    ensures Flatten(after) == Flatten(segments) + [v]
  {
    hide Elements, Flatten;
    var init, last := segments[..|segments| - 1], segments[|segments| - 1];
    assert segments == init + [last];
    FlattenSnoc(init, last);
    if Found(size, zero, m.list, v) || |m.list| < size {
      after := init + [last + [v]];
      FlattenSnoc(init, last + [v]);
      ElementsSnoc(zero, |segments| == 1, last, v);
    } else {
      after := segments + [[v]];
      FlattenSnoc(segments, [v]);
      ElementsOfOne(zero, v);
    }
  }

  lemma ElementsOfOne<T(!new)>(zero: T, v: T)
    ensures Elements(zero, false, [v]) == [v]
  {
    assert [v][1..] == [] && [v] + [] == [v] && [v][..0] == [];
  }

  lemma {:induction false} SegmentsGoOn<T(!new)>(
    size: nat, zero: T, callback: Option<Callback<T>>, m: Model<T>, segments: seq<seq<T>>, values: seq<T>)
    returns (after: seq<seq<T>>)
    requires size > 0 && AlwaysResets(callback) && Segmented(size, zero, m, segments)
    ensures Segmented(size, zero, Added(size, zero, callback, m, values).0, after)
    ensures Flatten(after) == Flatten(segments) + values
    decreases |values|
  {
    hide Segmented, Flatten, AddOne;
    if values == [] {
      after := segments;
    } else {
      var step := SegmentStep(size, zero, callback, m, segments, values[0]);
      after := SegmentsGoOn(size, zero, callback, AddOne(size, zero, callback, m, values[0]).m, step, values[1..]);
      assert Flatten(segments) + [values[0]] + values[1..] == Flatten(segments) + values;
    }
  }

  /** With a callback that always resets: the values fall into consecutive segments, one for each batch and
      one for the set, each of which keeps the first occurrences of its values, in order. */
  lemma BatchesAreSegments<T(!new)>(size: nat, zero: T, callback: Option<Callback<T>>, values: seq<T>)
    returns (segments: seq<seq<T>>)
    requires size > 0 && AlwaysResets(callback)
    ensures Flatten(segments) == values
    ensures Segmented(size, zero, Added(size, zero, callback, Model([], []), values).0, segments)
  {
    var start: seq<seq<T>> := [[]];
    assert start[..0] == [] && Flatten(start) == [];
    assert Segmented(size, zero, Model([], []), start);
    segments := SegmentsGoOn(size, zero, callback, Model([], []), start, values);
  }

  // ----- without a callback

  /** The zero value is among s[from..], at a place where `size` different values have come before it. */
  ghost predicate LateZero<T(!new)>(size: nat, zero: T, s: seq<T>, from: nat) {
    exists i :: from <= i < |s| && s[i] == zero && |Collected(zero, s[..i])| == size
  }

  lemma {:induction false} NonZeroConcat<T>(zero: T, s: seq<T>, t: seq<T>)
    ensures NonZero(zero, s + t) == NonZero(zero, s) + NonZero(zero, t)
  {
    if t == [] {
      assert s + t == s;
    } else {
      var init, x := t[..|t| - 1], t[|t| - 1];
      NonZeroConcat(zero, s, init);
      assert (s + t)[..|s + t| - 1] == s + init && (s + t)[|s + t| - 1] == x;
      var last := if x == zero then [] else [x];
      assert NonZero(zero, t) == NonZero(zero, init) + last;
      assert NonZero(zero, s + t) == NonZero(zero, s) + NonZero(zero, init) + last;
    }
  }

  lemma CollectedGrows<T(!new)>(zero: T, s: seq<T>, t: seq<T>)
    ensures Collected(zero, s) <= Collected(zero, s + t)
  {
    NonZeroConcat(zero, s, t);
    FirstOccurrencesGrow(NonZero(zero, s), NonZero(zero, t));
  }

  /** Without a callback the set holds the first `size` different values but the zero value, and
      ErrorSetFull is returned exactly when there is another one, or the zero value comes when no cell is
      free. */
  lemma {:induction false} FirstValuesStay<T(!new)>(size: nat, zero: T, seen: seq<T>, values: seq<T>)
    requires |Collected(zero, seen)| <= size
    ensures var (m, reply) := Added(size, zero, None, Model([], Collected(zero, seen)), values);
            var all := Collected(zero, seen + values);
            && m.batches == [] && m.list == (if |all| <= size then all else all[..size])
            && (reply == SetFull <==> |all| > size || LateZero(size, zero, seen + values, |seen|))
            && (reply == Done <==> reply != SetFull)
    decreases |values|
  {
    hide Collected;
    if values == [] {
      assert seen + values == seen;
    } else {
      var v, list, s := values[0], Collected(zero, seen), seen + values;
      assert seen + [v] + values[1..] == s && s[..|seen|] == seen && s[|seen|] == v;
      CollectedSnoc(zero, seen, v);
      if v in list || |list| < size {
        FirstValuesStay(size, zero, seen + [v], values[1..]);
      } else {
        CollectedGrows(zero, seen, values);
        CollectedGrows(zero, seen + [v], values[1..]);
      }
    }
  }
}
