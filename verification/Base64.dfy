/** Base64 as base64.StdEncoding without padding: the alphabet and bit order of section 4 of
    RFC 4648, padding omitted as section 3.2 allows. */
module Base64 {
  import opened Wrappers
  import opened Bytes

  const LF: byte := 10
  const CR: byte := 13

  /** The symbol of a six-bit value. */
  function Symbol(s: byte): (c: byte)
    requires s < 64
  {
    if s < 26 then s + 65 else if s < 52 then s + 71 else if s < 62 then s - 4 else if s == 62 then 43 else 47
  }

  function ValueOf(c: byte): (r: Option<byte>)
    ensures r.Some? ==> r.value < 64
  {
    if 65 <= c <= 90 then Some(c - 65)
    else if 97 <= c <= 122 then Some(c - 71)
    else if 48 <= c <= 57 then Some(c + 4)
    else if c == 43 then Some(62)
    else if c == 47 then Some(63)
    else None
  }

  lemma SymbolRoundTrip(s: byte)
    requires s < 64
    ensures ValueOf(Symbol(s)) == Some(s)
    ensures Symbol(s) != DOLLAR && Symbol(s) != LF && Symbol(s) != CR
  {
  }

  /** Table 1 of RFC 4648. */
  lemma SymbolOfTable(s: byte)
    requires s < 64
    ensures s < 26 ==> Symbol(s) == 'A' as int + s
    ensures 26 <= s < 52 ==> Symbol(s) == 'a' as int + s - 26
    ensures 52 <= s < 62 ==> Symbol(s) == '0' as int + s - 52
    ensures Symbol(62) == '+' as int && Symbol(63) == '/' as int
  {
  }

  // The four sextets of three bytes; bytes beyond the end of the data count as 0.

  function S0(b0: byte): (v: byte)
    ensures v < 64
  {
    b0 / 4
  }

  function S1(b0: byte, b1: byte): (v: byte)
    ensures v < 64
  {
    b0 % 4 * 16 + b1 / 16
  }

  function S2(b1: byte, b2: byte): (v: byte)
    ensures v < 64
  {
    b1 % 16 * 4 + b2 / 64
  }

  function S3(b2: byte): (v: byte)
    ensures v < 64
  {
    b2 % 64
  }

  // The three bytes of four sextets.

  function B0(v0: byte, v1: byte): byte
    requires v0 < 64 && v1 < 64
  {
    v0 * 4 + v1 / 16
  }

  function B1(v1: byte, v2: byte): byte
    requires v1 < 64 && v2 < 64
  {
    v1 % 16 * 16 + v2 / 4
  }

  function B2(v2: byte, v3: byte): byte
    requires v2 < 64 && v3 < 64
  {
    v2 % 4 * 64 + v3
  }

  lemma SextetsRoundTrip(b0: byte, b1: byte, b2: byte)
    ensures B0(S0(b0), S1(b0, b1)) == b0
    ensures B1(S1(b0, b1), S2(b1, b2)) == b1
    ensures B2(S2(b1, b2), S3(b2)) == b2
  {
  }

  /** The sextets are the digits, in base 64, of the number that the bytes are in base 256. */
  lemma SextetsAreDigits(b0: byte, b1: byte, b2: byte)
    ensures 0x4_0000 * S0(b0) + 0x1000 * S1(b0, b1) + 0x40 * S2(b1, b2) + S3(b2) == 0x1_0000 * b0 + 0x100 * b1 + b2
  {
  }

  function Encode(b: Bytes): (r: Bytes)
    ensures |r| >= |b|
  {
    if |b| == 0 then []
    else if |b| == 1 then [Symbol(S0(b[0])), Symbol(S1(b[0], 0))]
    else if |b| == 2 then [Symbol(S0(b[0])), Symbol(S1(b[0], b[1])), Symbol(S2(b[1], 0))]
    else [Symbol(S0(b[0])), Symbol(S1(b[0], b[1])), Symbol(S2(b[1], b[2])), Symbol(S3(b[2]))] + Encode(b[3..])
  }

  /** Four symbols for three bytes, and two or three for one or two that are left, zero bits filled in. */
  lemma {:induction false} EncodedLength(b: Bytes)
    ensures |Encode(b)| == (4 * |b| + 2) / 3
  {
    if |b| >= 3 { EncodedLength(b[3..]); }
  }

  /** Vectors of section 10 of RFC 4648: "f", "fo", "foo" and "foobar"; and the last two symbols. */
  lemma Vectors()
    ensures Encode([102]) == [90, 103]
    ensures Encode([102, 111]) == [90, 109, 56]
    ensures Encode([102, 111, 111]) == [90, 109, 57, 118]
    ensures Encode([102, 111, 111, 98, 97, 114]) == [90, 109, 57, 118, 89, 109, 70, 121]
    ensures Encode([0xFB, 0xFF]) == [43, 47, 56]
  {
    assert [102, 111, 111, 98, 97, 114][3..] == [98, 97, 114] && [98, 97, 114][3..] == [] && [102, 111, 111][3..] == [];
  }

  /** Go's decoder skips line breaks wherever they stand. */
  function WithoutBreaks(s: Bytes): Bytes
  {
    if s == [] then []
    else (if s[0] == LF || s[0] == CR then [] else [s[0]]) + WithoutBreaks(s[1..])
  }

  function DecodeSymbols(s: Bytes): Option<Bytes>
  {
    if |s| == 0 then Some([])
    else if |s| == 1 then None
    else
      match (ValueOf(s[0]), ValueOf(s[1]))
      case (Some(v0), Some(v1)) =>
        if |s| == 2 then Some([B0(v0, v1)])
        else
          (match ValueOf(s[2])
           case None => None
           case Some(v2) =>
             if |s| == 3 then Some([B0(v0, v1), B1(v1, v2)])
             else
               (match (ValueOf(s[3]), DecodeSymbols(s[4..]))
                case (Some(v3), Some(rest)) => Some([B0(v0, v1), B1(v1, v2), B2(v2, v3)] + rest)
                case _ => None))
      case _ => None
  }

  /** DecodeString: None is a CorruptInputError. */
  function Decode(s: Bytes): Option<Bytes> {
    DecodeSymbols(WithoutBreaks(s))
  }

  // ----- decoding undoes encoding

  lemma OneByte(b0: byte)
    ensures DecodeSymbols(Encode([b0])) == Some([b0])
  {
    hide Symbol, ValueOf, S0, S1, B0, B1, B2;
    SextetsRoundTrip(b0, 0, 0);
    SymbolRoundTrip(S0(b0));
    SymbolRoundTrip(S1(b0, 0));
    assert Encode([b0]) == [Symbol(S0(b0)), Symbol(S1(b0, 0))];
  }

  lemma TwoBytes(b0: byte, b1: byte)
    ensures DecodeSymbols(Encode([b0, b1])) == Some([b0, b1])
  {
    hide Symbol, ValueOf, S0, S1, S2, B0, B1, B2;
    SextetsRoundTrip(b0, b1, 0);
    SymbolRoundTrip(S0(b0));
    SymbolRoundTrip(S1(b0, b1));
    SymbolRoundTrip(S2(b1, 0));
    assert Encode([b0, b1]) == [Symbol(S0(b0)), Symbol(S1(b0, b1)), Symbol(S2(b1, 0))];
  }

  lemma ThreeBytes(b0: byte, b1: byte, b2: byte, rest: Bytes)
    ensures DecodeSymbols(Encode(rest)) == Some(rest) ==>
      DecodeSymbols(Encode([b0, b1, b2] + rest)) == Some([b0, b1, b2] + rest)
  {
    hide Symbol, ValueOf, S0, S1, S2, S3, B0, B1, B2;
    var s := Encode([b0, b1, b2] + rest);
    SextetsRoundTrip(b0, b1, b2);
    SymbolRoundTrip(S0(b0));
    SymbolRoundTrip(S1(b0, b1));
    SymbolRoundTrip(S2(b1, b2));
    SymbolRoundTrip(S3(b2));
    assert ([b0, b1, b2] + rest)[3..] == rest;
    assert s[4..] == Encode(rest);
  }

  lemma {:induction false} EncodingRoundTrip(b: Bytes)
    ensures DecodeSymbols(Encode(b)) == Some(b)
  {
    if |b| == 1 {
      assert b == [b[0]];
      OneByte(b[0]);
    } else if |b| == 2 {
      assert b == [b[0], b[1]];
      TwoBytes(b[0], b[1]);
    } else if |b| >= 3 {
      EncodingRoundTrip(b[3..]);
      assert b == [b[0], b[1], b[2]] + b[3..];
      ThreeBytes(b[0], b[1], b[2], b[3..]);
    }
  }

  lemma {:induction false} SymbolsStay(s: Bytes)
    requires forall i :: 0 <= i < |s| ==> s[i] != LF && s[i] != CR
    ensures WithoutBreaks(s) == s
  {
    if s != [] { SymbolsStay(s[1..]); }
  }

  /** An encoding is made of symbols only. */
  lemma {:induction false} EncodingIsPlain(b: Bytes)
    ensures forall i :: 0 <= i < |Encode(b)| ==> Encode(b)[i] != DOLLAR && Encode(b)[i] != LF && Encode(b)[i] != CR
  {
    if |b| > 3 { EncodingIsPlain(b[3..]); }
  }

  /** Decoding undoes encoding, for every byte string. */
  lemma Base64RoundTrip(b: Bytes)
    ensures Decode(Encode(b)) == Some(b) && DOLLAR !in Encode(b)
  {
    EncodingIsPlain(b);
    SymbolsStay(Encode(b));
    EncodingRoundTrip(b);
  }
}
