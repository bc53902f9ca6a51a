/** What Encrypt of safe/encrypt.go prints, byte by byte. */
module EnvelopeFormat {
  import opened Wrappers
  import opened Bytes
  import opened Base64
  import opened Cbc
  import opened Envelope

  /** An algorithm that suits the key is kept; otherwise the length of the key decides. */
  lemma FixedAlgoChoice(p: Primitives, key: Bytes, algo: byte)
    requires Lawful(p)
    ensures FixedAlgo(key, algo) ==
            if KeyFits(algo, FixedKey(p, key)) then algo else if |key| == 8 then 1 else if |key| == 24 then 0 else 2
    ensures FixedKey(p, key) == if |key| == 8 || |key| == 16 || |key| == 24 || |key| == 32 then key else p.sha256(key)
  {
    HashLength(p, key);
    hide FixedKey, Lawful;
  }

  /** The algorithm field in upper-case hexadecimal: one digit below 16, two otherwise. */
  lemma AlgoField(algo: byte)
    ensures algo < 16 ==> AlgoString(algo) == [HexDigit(algo)]
    ensures algo >= 16 ==> AlgoString(algo) == [HexDigit(algo / 16), HexDigit(algo % 16)]
    ensures forall d: byte :: d < 10 ==> HexDigit(d) == '0' as int + d
    ensures forall d: byte :: 10 <= d < 16 ==> HexDigit(d) == 'A' as int + d - 10
  {
  }

  /** The algorithm and the key that Encrypt uses. */
  function UsedAlgo(key: Bytes, o: Options): byte {
    if o.fixAlgo then FixedAlgo(key, o.algo) else o.algo
  }

  function UsedKey(p: Primitives, key: Bytes, o: Options): Bytes {
    if o.fixAlgo then FixedKey(p, key) else key
  }

  /** With nil options 8 bytes select DES, 24 triple DES and every other length AES. */
  lemma NilOptions(key: Bytes)
    ensures UsedAlgo(key, DEFAULT_OPTIONS) == if |key| == 8 then 1 else if |key| == 24 then 0 else 2
  {
  }

  /** n minus the remainder of the length: how many bytes fill the last block. */
  function Fill(data: Bytes, n: nat): (fill: nat)
    requires n == 8 || n == 16
    ensures 1 <= fill <= n
  {
    n - |data| % n
  }

  /** The argument field: the header, masked with the first five random bytes, and the random bytes that
      make up the initial vector. Of the header only the fill is not zero. */
  function PrintedArgs(random: Bytes, fill: byte, n: nat): Bytes
    requires 5 <= n <= |random|
  {
    random[..4] + [XorByte(fill, random[4])] + random[..n]
  }

  lemma ArgsArePrinted(random: Bytes, fill: byte, n: nat)
    requires 5 <= n <= |random|
    ensures Args(0, 0, fill, random[..n]) == PrintedArgs(random, fill, n)
  {
    var header := [0] + PutUint32(fill);
    assert header == [0, 0, 0, 0, fill];
    hide XorByte;
    forall i | 0 <= i < 4
      ensures XorByte(0, random[i]) == random[i]
    {
      XorWithZero(random[i]);
    }
    assert Xor(header, random[..n]) == random[..4] + [XorByte(fill, random[4])];
  }

  function Head(algo: byte): Bytes
    requires algo < 4
  {
    [123, 67, 82, 89, 80, 84, 125, 36, 48 + algo, 36]
  }

  function Filled(data: Bytes, n: nat): Bytes
    requires n == 8 || n == 16
  {
    data + Repeat(Fill(data, n), Fill(data, n))
  }

  /** "{CRYPT}$", one digit for the algorithm, and in base64 the arguments and the body, which is the chained
      encryption of the data and its fill under the random initial vector. */
  ghost predicate IsPrinted(text: Bytes, algo: byte, block: Cipher, data: Bytes, random: Bytes)
    requires |random| >= 16
  {
    var n := if algo == 2 then 16 else 8;
    && algo < 4 && Blocks(block, random[..n], Filled(data, n))
    && text == Head(algo) + Encode(PrintedArgs(random, Fill(data, n), n)) + [36]
               + Encode(CbcEncrypt(block, random[..n], Filled(data, n)))
  }

  /** The whole text. */
  lemma EncryptedFormat(p: Primitives, data: Bytes, key: Bytes, o: Options, random: Bytes)
    requires Lawful(p) && |random| >= 16
    ensures var text := Encrypted(p, data, key, o, Some(random));
            text.Ok? ==>
              IsPrinted(text.value, UsedAlgo(key, o), p.cipher(UsedAlgo(key, o), UsedKey(p, key, o)), data, random)
  {
    hide Encrypted, Envelope.Envelope, Args, CbcEncrypt, Encode, Padded, Blocks, UsedAlgo, UsedKey, PrintedArgs, Head;
    EncryptedParts(p, data, key, o, random);
    if Encrypted(p, data, key, o, Some(random)).Ok? {
      var algo := UsedAlgo(key, o);
      var n := if algo == 2 then 16 else 8;
      var block := p.cipher(algo, UsedKey(p, key, o));
      PaddedText(data, n);
      ArgsArePrinted(random, Fill(data, n), n);
      Printed(algo, PrintedArgs(random, Fill(data, n), n), CbcEncrypt(block, random[..n], Filled(data, n)));
    }
  }

  /** The same in the terms of the printer. */
  lemma EncryptedParts(p: Primitives, data: Bytes, key: Bytes, o: Options, random: Bytes)
    requires Lawful(p) && |random| >= 16
    ensures var text := Encrypted(p, data, key, o, Some(random));
            text.Ok? ==>
              var algo := UsedAlgo(key, o);
              var block := p.cipher(algo, UsedKey(p, key, o));
              && algo < 4 && block.size == (if algo == 2 then 16 else 8)
              && Blocks(block, random[..block.size], Padded(data, block.size))
              && text.value ==
                 Envelope.Envelope(algo, Args(0, 0, |Padded(data, block.size)| - |data|, random[..block.size]),
                                   CbcEncrypt(block, random[..block.size], Padded(data, block.size)))
  {
    hide Envelope.Envelope, Args, CbcEncrypt, FixedKey, FixedAlgo, Permutes, Padded;
    EncryptionSucceeds(p, data, key, o, Some(random));
  }

  lemma Printed(algo: byte, args: Bytes, body: Bytes)
    requires algo < 4
    ensures Envelope.Envelope(algo, args, body) ==
            Head(algo) + Encode(args) + [36] + Encode(body)
  {
    hide Encode;
    assert PREFIX + [DOLLAR] + AlgoString(algo) + [DOLLAR] == Head(algo);
  }

  /** What stands between the second and the third dollar sign can be read off the text. */
  lemma ArgsAreReadable(head: Bytes, args1: Bytes, body1: Bytes, args2: Bytes, body2: Bytes)
    requires head + Encode(args1) + [DOLLAR] + Encode(body1) == head + Encode(args2) + [DOLLAR] + Encode(body2)
    ensures args1 == args2
  {
    hide Encode, Decode, IndexOf;
    var s1, s2 := Encode(args1) + [DOLLAR] + Encode(body1), Encode(args2) + [DOLLAR] + Encode(body2);
    assert s1 == (head + Encode(args1) + [DOLLAR] + Encode(body1))[|head|..];
    assert s2 == (head + Encode(args2) + [DOLLAR] + Encode(body2))[|head|..];
    Base64RoundTrip(args1);
    Base64RoundTrip(args2);
    CutAtFirst(Encode(args1), DOLLAR, Encode(body1));
    CutAtFirst(Encode(args2), DOLLAR, Encode(body2));
  }

  lemma PrintedVectorShows(
    text: Bytes, algo: byte, block: Cipher, data1: Bytes, data2: Bytes, random1: Bytes, random2: Bytes)
    requires |random1| >= 16 && |random2| >= 16
    ensures IsPrinted(text, algo, block, data1, random1) && IsPrinted(text, algo, block, data2, random2) ==>
      var n := if algo == 2 then 16 else 8; random1[..n] == random2[..n]
  {
    hide CbcEncrypt, Encode, Blocks, Head, XorByte;
    if IsPrinted(text, algo, block, data1, random1) && IsPrinted(text, algo, block, data2, random2) {
      var n := if algo == 2 then 16 else 8;
      var args1, args2 := PrintedArgs(random1, Fill(data1, n), n), PrintedArgs(random2, Fill(data2, n), n);
      ArgsAreReadable(Head(algo), args1, CbcEncrypt(block, random1[..n], Filled(data1, n)),
                      args2, CbcEncrypt(block, random2[..n], Filled(data2, n)));
      assert args1[5..] == random1[..n] && args2[5..] == random2[..n];
    }
  }

  /** Equal texts, of whatever data, have equal random bytes in their initial vectors. */
  lemma DifferentVectorsShow(
    p: Primitives, data1: Bytes, data2: Bytes, key: Bytes, o: Options, random1: Bytes, random2: Bytes)
    requires Lawful(p) && |random1| >= 16 && |random2| >= 16
    ensures var text := Encrypted(p, data1, key, o, Some(random1));
            var n := if UsedAlgo(key, o) == 2 then 16 else 8;
            text.Ok? && text == Encrypted(p, data2, key, o, Some(random2)) ==> random1[..n] == random2[..n]
  {
    hide *;
    var text := Encrypted(p, data1, key, o, Some(random1));
    if text.Ok? && text == Encrypted(p, data2, key, o, Some(random2)) {
      EncryptedFormat(p, data1, key, o, random1);
      EncryptedFormat(p, data2, key, o, random2);
      PrintedVectorShows(text.value, UsedAlgo(key, o), p.cipher(UsedAlgo(key, o), UsedKey(p, key, o)),
                         data1, data2, random1, random2);
    }
  }
}
