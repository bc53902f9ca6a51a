/** Model of generator/uuid.go: identifiers that sort by the time of their making. The clock and the
    random UUID are inputs; a time is a number of microseconds since 1970, negative before it. */
module Ids {
  import opened Bytes

  const TWO64: nat := 0x1_0000_0000_0000_0000
  const MID: int := 0x8000_0000_0000_0000   // midUint64

  // ----- big-endian words

  /** The n low bytes of v, most significant first. */
  function BigEndian(v: nat, n: nat): (b: Bytes)
    ensures |b| == n
  {
    if n == 0 then [] else BigEndian(v / 0x100, n - 1) + [ByteOf(v)]
  }

  function Value(b: Bytes): nat {
    if b == [] then 0 else Value(b[..|b| - 1]) * 0x100 + b[|b| - 1]
  }

  function Power(n: nat): (p: nat)
    ensures p > 0
  {
    if n == 0 then 1 else 0x100 * Power(n - 1)
  }

  lemma {:induction false} ValueOfBigEndian(v: nat, n: nat)
    requires v < Power(n)
    ensures Value(BigEndian(v, n)) == v
  {
    if n > 0 {
      ValueOfBigEndian(v / 0x100, n - 1);
      assert BigEndian(v, n)[..n - 1] == BigEndian(v / 0x100, n - 1);
    }
  }

  // ----- the seed hash

  /** The first eight bytes as a word, zeros where there are none. */
  function FirstWord(s: Bytes): nat {
    Value(if |s| >= 8 then s[..8] else s + Repeat(0, 8 - |s|))
  }

  /** The sum of the words of s, unbounded. */
  function WordSum(s: Bytes): nat {
    if s == [] then 0 else FirstWord(s) + if |s| <= 8 then 0 else WordSum(s[8..])
  }

  /** Each byte of a seed, for itself: it counts by its place in its group of eight. */
  function PlaceSum(s: Bytes): nat {
    if s == [] then 0 else PlaceSum(s[..|s| - 1]) + s[|s| - 1] * Power(7 - (|s| - 1) % 8)
  }

  lemma Distribute(a: int, b: int, c: int)
    ensures (a + b) * c == a * c + b * c
  {
  }

  lemma Regroup(a: int, b: int)
    ensures a * 0x100 * b == a * (0x100 * b)
  {
  }

  lemma {:induction false} ValueWithZeros(s: Bytes, k: nat)
    ensures Value(s + Repeat(0, k)) == Value(s) * Power(k)
  {
    if k == 0 {
      assert s + Repeat(0, 0) == s;
    } else {
      ValueWithZeros(s, k - 1);
      var z := s + Repeat(0, k);
      assert z[..|z| - 1] == s + Repeat(0, k - 1) && z[|z| - 1] == 0;
      assert Power(k) == 0x100 * Power(k - 1);
      Swap(Value(s), Power(k - 1));
    }
  }

  lemma Swap(a: int, b: int)
    ensures a * b * 0x100 == a * (0x100 * b)
  {
  }

  lemma {:induction false} ShortPlaceSum(s: Bytes)
    requires |s| <= 8
    ensures Value(s) * Power(8 - |s|) == PlaceSum(s)
  {
    if s != [] {
      var init, x := s[..|s| - 1], s[|s| - 1];
      ShortPlaceSum(init);
      assert Power(8 - |init|) == 0x100 * Power(8 - |s|) && 7 - (|s| - 1) % 8 == 8 - |s|;
      hide Power;
      Distribute(Value(init) * 0x100, x, Power(8 - |s|));
      Regroup(Value(init), Power(8 - |s|));
    }
  }

  lemma {:induction false} PlaceSumBehind(first: Bytes, s: Bytes)
    requires |first| == 8
    ensures PlaceSum(first + s) == PlaceSum(first) + PlaceSum(s)
  {
    if s == [] {
      assert first + s == first;
    } else {
      var init, x := s[..|s| - 1], s[|s| - 1];
      PlaceSumBehind(first, init);
      var all := first + s;
      assert all[..|all| - 1] == first + init && all[|all| - 1] == x && (|all| - 1) % 8 == (|s| - 1) % 8;
      hide Power;
    }
  }

  /** The words of a seed add up to its bytes, each by its place: all of them count. */
  lemma {:induction false} WordSumByPlaces(s: Bytes)
    ensures WordSum(s) == PlaceSum(s)
    decreases |s|
  {
    hide PlaceSum, Power, Value;
    if |s| <= 8 {
      ValueWithZeros(s, 8 - |s|);
      ShortPlaceSum(s);
      ShortWord(s);
    } else {
      WordSumByPlaces(s[8..]);
      PlaceSumBehind(s[..8], s[8..]);
      ShortPlaceSum(s[..8]);
      assert s == s[..8] + s[8..];
      LongWord(s);
    }
  }

  lemma ShortWord(s: Bytes)
    requires |s| <= 8
    ensures WordSum(s) == Value(s + Repeat(0, 8 - |s|)) || (s == [] && WordSum(s) == 0)
    ensures s == [] ==> Value(s) == 0
  {
    if |s| == 8 { assert s[..8] == s && s + Repeat(0, 0) == s; }
  }

  lemma LongWord(s: Bytes)
    requires |s| > 8
    ensures WordSum(s) == Value(s[..8]) * Power(0) + WordSum(s[8..])
  {
    assert Power(0) == 1;
  }

  function SeedSum(seed: seq<Bytes>): nat {
    if seed == [] then 0 else SeedSum(seed[..|seed| - 1]) + WordSum(seed[|seed| - 1])
  }

  /** Every seed counts. */
  lemma {:induction false} SeedSumOfAll(a: seq<Bytes>, b: seq<Bytes>)
    ensures SeedSum(a + b) == SeedSum(a) + SeedSum(b)
    ensures forall s: Bytes :: SeedSum([s]) == PlaceSum(s)
  {
    if b == [] {
      assert a + b == a;
    } else {
      SeedSumOfAll(a, b[..|b| - 1]);
      assert (a + b)[..|a + b| - 1] == a + b[..|b| - 1];
    }
    forall s: Bytes
      ensures SeedSum([s]) == PlaceSum(s)
    {
      WordSumByPlaces(s);
      assert [s][..0] == [];
    }
  }

  /** What is added to the time. */
  function Offset(seed: seq<Bytes>): nat {
    var hash := SeedSum(seed) % TWO64;
    if hash > MID then hash - MID else hash
  }

  /** What is added: the sum of the seeds modulo 2^63, but 2^63 itself where the sum is that modulo 2^64. */
  lemma OffsetOfSeed(seed: seq<Bytes>)
    ensures 0 <= Offset(seed) <= 0x8000_0000_0000_0000
    ensures Offset(seed) % 0x8000_0000_0000_0000 == SeedSum(seed) % 0x8000_0000_0000_0000
    ensures Offset(seed) == 0x8000_0000_0000_0000 <==> SeedSum(seed) % TWO64 == 0x8000_0000_0000_0000
  {
    hide SeedSum;
    HalfOf(SeedSum(seed));
  }

  lemma HalfOf(x: nat)
    ensures var h := x % TWO64;
            x % MID == if h >= MID then h - MID else h
  {
    assert x == TWO64 * (x / TWO64) + x % TWO64 && TWO64 == 2 * MID;
  }

  /** What UnixMicro can return. */
  type Time = t: int | -MID <= t < MID

  /** The conversion uint64(t): times before 1970 become the greatest numbers. */
  function Unsigned(t: Time): (ts: nat)
    ensures ts < TWO64 && (ts < MID <==> t >= 0)
  {
    t % TWO64
  }

  /** The first eight bytes of the id, as a number. */
  function Stamp(t: Time, seed: seq<Bytes>): nat {
    Unsigned(t) + if Unsigned(t) < MID then Offset(seed) else 0
  }

  /** The addition does not overflow 64 bits, whatever the seed; and what the stamp is on either side of
      1970. */
  lemma StampFits(t: Time, seed: seq<Bytes>)
    ensures Stamp(t, seed) < TWO64
    ensures Stamp(t, seed) == if t < 0 then TWO64 + t else t + Offset(seed)
  {
  }

  /** The loop over one seed string. */
  method AddWords(start: nat, seedBytes: Bytes) returns (hash: nat)
    requires start < TWO64
    ensures hash == (start + WordSum(seedBytes)) % TWO64
  {
    hash := start;
    var rest := seedBytes;
    while rest != []
      invariant hash < TWO64 && (hash + WordSum(rest)) % TWO64 == (start + WordSum(seedBytes)) % TWO64
      decreases |rest|
    {
      if |rest| <= 8 {
        var tmp := rest + Repeat(0, 8 - |rest|);
        assert |rest| == 8 ==> tmp == rest[..8];
        hash := (hash + Value(tmp)) % TWO64;
        rest := [];
        break;
      }
      AddWord(hash + Value(rest[..8]), WordSum(rest[8..]));
      hash := (hash + Value(rest[..8])) % TWO64;
      rest := rest[8..];
    }
  }

  method SeedHash(seed: seq<Bytes>) returns (hash: nat)
    ensures hash == SeedSum(seed) % TWO64
  {
    hash := 0;
    for k := 0 to |seed|
      invariant hash == SeedSum(seed[..k]) % TWO64
    {
      assert seed[..k + 1][..k] == seed[..k];
      AddWord(SeedSum(seed[..k]), WordSum(seed[k]));
      hash := AddWords(hash, seed[k]);
    }
    assert seed[..|seed|] == seed;
  }

  lemma AddWord(sum: nat, word: nat)
    ensures (sum % TWO64 + word) % TWO64 == (sum + word) % TWO64
  {
  }

  /** NewUUID at a time, where the random UUID is `random`. */
  method NewUUID(now: Time, seed: seq<Bytes>, random: Bytes) returns (id: Bytes)
    requires |random| == 16
    ensures id == BigEndian(Stamp(now, seed), 8) + random[8..]
    ensures Value(id[..8]) == Stamp(now, seed)
  {
    hide SeedSum, BigEndian, Value, Unsigned;
    var ts := Unsigned(now);
    if ts < MID {
      var hash := SeedHash(seed);
      if hash > MID {
        hash := hash - MID;
      }
      assert hash == Offset(seed) && ts + hash < TWO64;
      ts := (ts + hash) % TWO64;
    }
    assert ts == Stamp(now, seed) < TWO64;
    id := BigEndian(ts, 8) + random[8..];
    EightBytes();
    ValueOfBigEndian(ts, 8);
    assert id[..8] == BigEndian(ts, 8);
  }

  // ----- order

  function HexChar(d: byte): (c: byte)
    requires d < 16
  {
    if d < 10 then d + 48 else d + 87
  }

  function HexOf(x: byte): (s: Bytes)
    ensures |s| == 2
  {
    [HexChar(x / 16), HexChar(x % 16)]
  }

  lemma HexDigits(x: byte)
    ensures HexOf(x) == [HexChar(x / 16), HexChar(x % 16)]
    ensures forall d: byte :: d < 10 ==> HexChar(d) == '0' as int + d
    ensures forall d: byte :: 10 <= d < 16 ==> HexChar(d) == 'a' as int + d - 10
  {
  }

  /** TraceID.String: lower-case hex. */
  function Hex(b: Bytes): (s: Bytes)
    ensures |s| == 2 * |b|
  {
    if b == [] then [] else Hex(b[..|b| - 1]) + HexOf(b[|b| - 1])
  }

  function NewId(now: Time, seed: seq<Bytes>, random: Bytes): Bytes
    requires |random| == 16
  {
    Hex(BigEndian(Stamp(now, seed), 8) + random[8..])
  }

  /** Go's < on strings of equal length: the first difference decides. */
  ghost predicate Less(a: Bytes, b: Bytes)
    requires |a| == |b|
  {
    exists i :: LessAt(a, b, i)
  }

  ghost predicate LessAt(a: Bytes, b: Bytes, i: int)
    requires |a| == |b|
  {
    0 <= i < |a| && a[..i] == b[..i] && a[i] < b[i]
  }

  lemma LessStays(a: Bytes, b: Bytes, s: Bytes, t: Bytes)
    requires |a| == |b| && |s| == |t| && Less(a, b)
    ensures Less(a + s, b + t)
  {
    var i :| LessAt(a, b, i);
    assert (a + s)[..i] == a[..i] && (b + t)[..i] == b[..i];
    assert LessAt(a + s, b + t, i);
  }

  lemma LessLater(a: Bytes, s: Bytes, t: Bytes)
    requires |s| == |t| && Less(s, t)
    ensures Less(a + s, a + t)
  {
    var i :| LessAt(s, t, i);
    assert (a + s)[..|a| + i] == a + s[..i] && (a + t)[..|a| + i] == a + t[..i];
    assert LessAt(a + s, a + t, |a| + i);
  }

  /** Big-endian words of one size compare as the numbers they stand for. */
  lemma {:induction false} BigEndianOrders(v: nat, w: nat, n: nat)
    requires v < w < Power(n)
    ensures Less(BigEndian(v, n), BigEndian(w, n))
  {
    var v', w' := BigEndian(v / 0x100, n - 1), BigEndian(w / 0x100, n - 1);
    if v / 0x100 < w / 0x100 {
      BigEndianOrders(v / 0x100, w / 0x100, n - 1);
      LessStays(v', w', [ByteOf(v)], [ByteOf(w)]);
    } else {
      assert v % 0x100 < w % 0x100;
      ByteOrders(v, w);
      assert LessAt([ByteOf(v)], [ByteOf(w)], 0);
      LessLater(v', [ByteOf(v)], [ByteOf(w)]);
    }
  }

  lemma ByteOrders(v: nat, w: nat)
    requires v % 0x100 < w % 0x100
    ensures ByteOf(v) < ByteOf(w)
  {
  }

  lemma HexPair(x: byte, y: byte)
    requires x < y
    ensures Less(HexOf(x), HexOf(y))
  {
    if x / 16 < y / 16 {
      assert LessAt(HexOf(x), HexOf(y), 0);
    } else {
      assert x / 16 == y / 16 && x % 16 < y % 16;
      assert HexOf(x)[..1] == HexOf(y)[..1];
      assert LessAt(HexOf(x), HexOf(y), 1);
    }
  }

  lemma {:induction false} HexConcat(a: Bytes, b: Bytes)
    ensures Hex(a + b) == Hex(a) + Hex(b)
  {
    if b == [] {
      assert a + b == a && Hex(a) + [] == Hex(a);
    } else {
      HexConcat(a, b[..|b| - 1]);
      assert (a + b)[..|a + b| - 1] == a + b[..|b| - 1];
    }
  }

  lemma HexSingle(x: byte)
    ensures Hex([x]) == HexOf(x)
  {
    assert [x][..0] == [];
  }

  lemma HexThree(x: Bytes, y: byte, z: Bytes)
    ensures Hex(x + [y] + z) == Hex(x) + HexOf(y) + Hex(z)
  {
    hide *;
    HexConcat(x + [y], z);
    HexConcat(x, [y]);
    HexSingle(y);
  }

  lemma SplitAt<T>(a: seq<T>, i: nat)
    requires i < |a|
    ensures a[..i] + [a[i]] + a[i + 1..] == a
  {
  }

  lemma HexAround(a: Bytes, i: nat)
    requires i < |a|
    ensures Hex(a) == Hex(a[..i]) + HexOf(a[i]) + Hex(a[i + 1..])
  {
    hide *;
    SplitAt(a, i);
    HexThree(a[..i], a[i], a[i + 1..]);
  }

  /** Hexadecimal strings compare as the bytes that they show. */
  lemma HexOrders(a: Bytes, b: Bytes)
    requires |a| == |b| && Less(a, b)
    ensures Less(Hex(a), Hex(b))
  {
    var i :| LessAt(a, b, i);
    hide *;
    LessAtFacts(a, b, i);
    HexAround(a, i);
    HexAround(b, i);
    HexPair(a[i], b[i]);
    LessLater(Hex(a[..i]), HexOf(a[i]), HexOf(b[i]));
    LessStays(Hex(a[..i]) + HexOf(a[i]), Hex(a[..i]) + HexOf(b[i]), Hex(a[i + 1..]), Hex(b[i + 1..]));
  }

  lemma LessAtFacts(a: Bytes, b: Bytes, i: int)
    requires |a| == |b| && LessAt(a, b, i)
    ensures 0 <= i < |a| && a[..i] == b[..i] && a[i] < b[i]
  {
  }

  lemma EightBytes()
    ensures Power(8) == TWO64
  {
    assert Power(4) == 0x1_0000_0000;
  }

  /** Two byte strings of one length: one is less than the other, or they are equal. */
  lemma {:induction false} LessIsTotal(a: Bytes, b: Bytes)
    requires |a| == |b|
    ensures Less(a, b) || Less(b, a) || a == b
  {
    if a != [] {
      var i := |a| - 1;
      LessIsTotal(a[..i], b[..i]);
      assert a == a[..i] + [a[i]] && b == b[..i] + [b[i]];
      if Less(a[..i], b[..i]) {
        LessStays(a[..i], b[..i], [a[i]], [b[i]]);
      } else if Less(b[..i], a[..i]) {
        LessStays(b[..i], a[..i], [b[i]], [a[i]]);
      } else {
        assert a[i] < b[i] ==> LessAt(a, b, i);
        assert b[i] < a[i] ==> LessAt(b, a, i);
      }
    }
  }

  lemma LessIsStrict(a: Bytes, b: Bytes)
    requires |a| == |b| && Less(a, b)
    ensures !Less(b, a)
  {
    var i :| LessAt(a, b, i);
    forall j
      ensures !LessAt(b, a, j)
    {
    }
  }

  lemma StampOrders(s1: Bytes, s2: Bytes, tail1: Bytes, tail2: Bytes)
    requires |s1| == |s2| && |tail1| == |tail2| && Less(s1, s2)
    ensures Less(Hex(s1 + tail1), Hex(s2 + tail2))
  {
    hide *;
    LessStays(s1, s2, tail1, tail2);
    HexOrders(s1 + tail1, s2 + tail2);
  }

  /** Byte strings compare as their hexadecimal forms. */
  lemma HexComparesTheSame(a: Bytes, b: Bytes)
    requires |a| == |b|
    ensures Less(Hex(a), Hex(b)) <==> Less(a, b)
  {
    hide Hex, Less;
    LessIsTotal(a, b);
    if Less(a, b) {
      HexOrders(a, b);
    } else if Less(b, a) {
      HexOrders(b, a);
      LessIsStrict(Hex(b), Hex(a));
    } else {
      NotLessThanItself(Hex(a));
    }
  }

  lemma NotLessThanItself(a: Bytes)
    ensures !Less(a, a)
  {
  }

  /** A common start does not matter. */
  lemma LessBehind(a: Bytes, s: Bytes, t: Bytes)
    requires |s| == |t|
    ensures Less(a + s, a + t) <==> Less(s, t)
  {
    hide Less;
    LessIsTotal(s, t);
    if Less(s, t) {
      LessLater(a, s, t);
    } else if Less(t, s) {
      LessLater(a, t, s);
      LessIsStrict(a + t, a + s);
    } else {
      NotLessThanItself(a + s);
    }
  }

  /** For any two ids: the stamps decide, and the random bytes between equal stamps. */
  lemma IdsCompareByStamp(t1: Time, t2: Time, seed1: seq<Bytes>, seed2: seq<Bytes>, random1: Bytes, random2: Bytes)
    requires |random1| == |random2| == 16
    ensures Less(NewId(t1, seed1, random1), NewId(t2, seed2, random2)) <==>
            || Stamp(t1, seed1) < Stamp(t2, seed2)
            || (Stamp(t1, seed1) == Stamp(t2, seed2) && Less(random1[8..], random2[8..]))
  {
    hide Hex, Less, Stamp;
    EightBytes();
    StampFits(t1, seed1);
    StampFits(t2, seed2);
    var v1, v2 := Stamp(t1, seed1), Stamp(t2, seed2);
    var s1, s2 := BigEndian(v1, 8), BigEndian(v2, 8);
    if v1 < v2 {
      BigEndianOrders(v1, v2, 8);
      StampOrders(s1, s2, random1[8..], random2[8..]);
    } else if v2 < v1 {
      BigEndianOrders(v2, v1, 8);
      StampOrders(s2, s1, random2[8..], random1[8..]);
      LessIsStrict(NewId(t2, seed2, random2), NewId(t1, seed1, random1));
    } else {
      LessBehind(s1, random1[8..], random2[8..]);
      HexComparesTheSame(s1 + random1[8..], s1 + random2[8..]);
    }
  }

  /** Of two ids with one seed the later has the greater string, whatever the random bytes are, if 1970 is
      not between them. */
  lemma IdsIncrease(t1: Time, t2: Time, seed: seq<Bytes>, random1: Bytes, random2: Bytes)
    requires t1 < t2 && (t1 >= 0 || t2 < 0) && |random1| == |random2| == 16
    ensures Less(NewId(t1, seed, random1), NewId(t2, seed, random2))
  {
    hide Less, NewId, Stamp;
    StampFits(t1, seed);
    StampFits(t2, seed);
    IdsCompareByStamp(t1, t2, seed, seed, random1, random2);
  }

  /** Between a time before 1970 and one after it, the ids are in order exactly when the seed lifts the later
      stamp above the earlier one, which the conversion to uint64 has made great. */
  lemma IdsAcross1970(before: Time, after: Time, seed: seq<Bytes>, random1: Bytes, random2: Bytes)
    requires before < 0 <= after && |random1| == |random2| == 16
    ensures Less(NewId(before, seed, random1), NewId(after, seed, random2)) <==>
            || TWO64 + before < after + Offset(seed)
            || (TWO64 + before == after + Offset(seed) && Less(random1[8..], random2[8..]))
  {
    hide Less, NewId, Stamp, Offset;
    StampFits(before, seed);
    StampFits(after, seed);
    IdsCompareByStamp(before, after, seed, seed, random1, random2);
  }

  /** Without a seed every id made before 1970 is the greater one. */
  lemma UnseededIdsAcross1970(before: Time, after: Time, random1: Bytes, random2: Bytes)
    requires before < 0 <= after && |random1| == |random2| == 16
    ensures Less(NewId(after, [], random2), NewId(before, [], random1))
  {
    hide Less, NewId, Stamp;
    StampFits(before, []);
    StampFits(after, []);
    IdsCompareByStamp(after, before, [], [], random2, random1);
  }

  /** One microsecond before 1970 and 1970 itself. */
  lemma LaterIdIsSmaller(random1: Bytes, random2: Bytes)
    requires |random1| == |random2| == 16
    ensures Less(NewId(0, [], random2), NewId(-1, [], random1))
    ensures !Less(NewId(-1, [], random1), NewId(0, [], random2))
  {
    UnseededIdsAcross1970(-1, 0, random1, random2);
    LessIsStrict(NewId(0, [], random2), NewId(-1, [], random1));
  }
}
