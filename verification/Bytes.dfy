/** Byte strings. A Go string is the sequence of its bytes, so `Bytes` stands for both. */
module Bytes {
  import opened Wrappers

  type byte = x: int | 0 <= x < 0x100 witness 0

  type Bytes = seq<byte>

  const DOLLAR: byte := 36  // '$'

  /** x ^ y on the n low bits. */
  function XorBits(x: nat, y: nat, n: nat): (r: nat)
    ensures r < Pow2(n)
  {
    if n == 0 then 0 else 2 * XorBits(x / 2, y / 2, n - 1) + (x + y) % 2
  }

  function Pow2(n: nat): nat {
    if n == 0 then 1 else 2 * Pow2(n - 1)
  }

  lemma XorLowBit(high: nat, x: nat, y: nat)
    ensures var r := 2 * high + (x + y) % 2; r / 2 == high && (r + y) % 2 == x % 2 && r % 2 == (x + y) % 2
  {
  }

  lemma {:induction false} XorBitsFacts(x: nat, y: nat, n: nat)
    ensures XorBits(x, y, n) == XorBits(y, x, n)
    ensures x < Pow2(n) ==> XorBits(XorBits(x, y, n), y, n) == x
  {
    if n > 0 {
      XorBitsFacts(x / 2, y / 2, n - 1);
      XorLowBit(XorBits(x / 2, y / 2, n - 1), x, y);
    }
  }

  function XorByte(x: byte, y: byte): byte {
    assert Pow2(8) == 0x100;
    XorBits(x, y, 8)
  }

  lemma XorByteFacts(x: byte, y: byte)
    ensures XorByte(x, y) == XorByte(y, x) && XorByte(XorByte(x, y), y) == x
  {
    assert Pow2(8) == 0x100;
    XorBitsFacts(x, y, 8);
  }

  /** Bit i of x. */
  function Bit(x: nat, i: nat): nat {
    if i == 0 then x % 2 else Bit(x / 2, i - 1)
  }

  lemma ParityOfSum(x: nat, y: nat)
    ensures (x + y) % 2 == if x % 2 != y % 2 then 1 else 0
  {
  }

  lemma {:induction false} XorBitsAt(x: nat, y: nat, n: nat, i: nat)
    requires i < n
    ensures Bit(XorBits(x, y, n), i) == if Bit(x, i) != Bit(y, i) then 1 else 0
  {
    var high := XorBits(x / 2, y / 2, n - 1);
    assert XorBits(x, y, n) == 2 * high + (x + y) % 2;
    XorLowBit(high, x, y);
    ParityOfSum(x, y);
    hide XorBits;
    if i > 0 { XorBitsAt(x / 2, y / 2, n - 1, i - 1); }
  }

  /** Exclusive or, bit by bit. */
  lemma XorByteAt(x: byte, y: byte, i: nat)
    requires i < 8
    ensures Bit(XorByte(x, y), i) == if Bit(x, i) != Bit(y, i) then 1 else 0
  {
    XorBitsAt(x, y, 8, i);
  }

  lemma XorWithZero(x: byte)
    ensures XorByte(0, x) == XorByte(x, 0) == x
  {
    XorByteFacts(0, x);
    XorByteFacts(x, 0);
    XorBitsWithZero(x, 8);
    assert Pow2(8) == 0x100;
  }

  lemma {:induction false} XorBitsWithZero(x: nat, n: nat)
    ensures x < Pow2(n) ==> XorBits(x, 0, n) == x
  {
    if n > 0 { XorBitsWithZero(x / 2, n - 1); }
  }

  function Xor(a: Bytes, b: Bytes): (r: Bytes)
    requires |a| <= |b|
    ensures |r| == |a|
  {
    seq(|a|, i requires 0 <= i < |a| => XorByte(a[i], b[i]))
  }

  /** Masking twice with the same bytes is no masking. */
  lemma XorTwice(a: Bytes, b: Bytes)
    requires |a| <= |b|
    ensures Xor(Xor(a, b), b) == a
  {
    forall i | 0 <= i < |a|
      ensures Xor(Xor(a, b), b)[i] == a[i]
    {
      XorByteFacts(a[i], b[i]);
    }
  }

  function Repeat(x: byte, n: nat): (r: Bytes)
    ensures |r| == n
  {
    seq(n, _ => x)
  }

  /** The position of the first occurrence of x. */
  function IndexOf(s: Bytes, x: byte): (r: Option<nat>)
    ensures r.Some? ==> r.value < |s| && s[r.value] == x && x !in s[..r.value]
    ensures r.None? ==> x !in s
  {
    if s == [] then None
    else if s[0] == x then Some(0)
    else
      match IndexOf(s[1..], x)
      case None => None
      case Some(i) =>
        assert s[..i + 1] == [s[0]] + s[1..][..i];
        Some(i + 1)
  }

  lemma {:induction false} IndexOfSplit(head: Bytes, x: byte, tail: Bytes)
    requires x !in head
    ensures IndexOf(head + [x] + tail, x) == Some(|head|)
  {
    if head != [] {
      IndexOfSplit(head[1..], x, tail);
      assert (head + [x] + tail)[1..] == head[1..] + [x] + tail;
    }
  }

  /** Cutting at the first x of head + [x] + tail gives head and tail. */
  lemma CutAtFirst(head: Bytes, x: byte, tail: Bytes)
    requires x !in head
    ensures var s := head + [x] + tail;
            IndexOf(s, x) == Some(|head|) && s[..|head|] == head && s[|head| + 1..] == tail
  {
    IndexOfSplit(head, x, tail);
  }

  /** byte(x). */
  function ByteOf(x: nat): byte {
    x % 0x100
  }

  /** x << 4 | y on bytes, for a y of four bits. */
  function Nibbles(x: byte, y: byte): byte
    requires y < 16
  {
    x % 16 * 16 + y
  }

  /** binary.BigEndian.PutUint32 of uint32(v). */
  function PutUint32(v: nat): (r: Bytes)
    ensures |r| == 4
  {
    [ByteOf(v / 0x100 / 0x100 / 0x100), ByteOf(v / 0x100 / 0x100), ByteOf(v / 0x100), ByteOf(v)]
  }

  /** binary.BigEndian.Uint32. */
  function Uint32(b: Bytes): (v: nat)
    requires |b| == 4
    ensures v < 0x1_0000_0000
  {
    Number(b[0], b[1], b[2], b[3])
  }

  function Number(d3: nat, d2: nat, d1: nat, d0: nat): nat {
    d3 * 0x100_0000 + d2 * 0x1_0000 + d1 * 0x100 + d0
  }

  lemma Digits(v: nat)
    requires v < 0x1_0000_0000
    ensures Number(v / 0x100 / 0x100 / 0x100 % 0x100, v / 0x100 / 0x100 % 0x100, v / 0x100 % 0x100, v % 0x100) == v
  {
    var q1 := v / 0x100;
    var q2 := q1 / 0x100;
    var q3 := q2 / 0x100;
    assert q3 < 0x100 && q3 % 0x100 == q3;
    assert v == q1 * 0x100 + v % 0x100 && q1 == q2 * 0x100 + q1 % 0x100 && q2 == q3 * 0x100 + q2 % 0x100;
  }

  lemma Uint32RoundTrip(v: nat)
    requires v < 0x1_0000_0000
    ensures Uint32(PutUint32(v)) == v
  {
    Digits(v);
  }
}
