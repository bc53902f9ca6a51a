/** What an envelope shows under a key that it was not sealed with: for any two keys there are ciphers under
    which the plaintext is lost. */
module Misreading {
  import opened Wrappers
  import opened Bytes
  import opened Cbc
  import opened Envelope

  /** b with `step` added to each byte. */
  function Shifted(b: Bytes, step: byte): (r: Bytes)
    ensures |r| == |b|
  {
    seq(|b|, i requires 0 <= i < |b| => (b[i] + step) % 0x100)
  }

  /** The block cipher that shifts each byte. */
  function Shifting(size: nat, step: byte): Cipher {
    Cipher(size, b => Shifted(b, step), b => Shifted(b, (0x100 - step) % 0x100))
  }

  lemma ShiftedBack(b: Bytes, step: byte)
    ensures Shifted(Shifted(b, step), (0x100 - step) % 0x100) == b
  {
    forall i | 0 <= i < |b|
      ensures Shifted(Shifted(b, step), (0x100 - step) % 0x100)[i] == b[i]
    {
      AddedBack(b[i], step);
    }
  }

  lemma AddedBack(x: byte, step: byte)
    ensures ((x + step) % 0x100 + (0x100 - step) % 0x100) % 0x100 == x
  {
  }

  lemma ShiftingPermutes(size: nat, step: byte)
    requires 0 < size < 0x100
    ensures Permutes(Shifting(size, step))
  {
    hide Shifted;
    forall b: Bytes
      ensures Shifted(Shifted(b, step), (0x100 - step) % 0x100) == b
    {
      ShiftedBack(b, step);
    }
  }

  /** Ciphers that leave everything as it is under one key and shift by one under every other. */
  function Keyed(sha256: Bytes -> Bytes, key: Bytes): Primitives {
    Primitives(sha256, (algo: byte, k: Bytes) => Shifting(BlockSize(algo), if k == key then 0 else 1))
  }

  lemma KeyedIsLawful(sha256: Bytes -> Bytes, key: Bytes)
    requires forall x: Bytes :: |sha256(x)| == 32
    ensures Lawful(Keyed(sha256, key))
  {
    hide Shifting;
    var p := Keyed(sha256, key);
    forall algo, k
      ensures p.cipher(algo, k).size == BlockSize(algo) && Permutes(p.cipher(algo, k))
    {
      ShiftingSize(BlockSize(algo), if k == key then 0 else 1);
      ShiftingPermutes(BlockSize(algo), if k == key then 0 else 1);
    }
  }

  lemma ShiftingSize(size: nat, step: byte)
    ensures Shifting(size, step).size == size
  {
  }

  /** A hash that separates the two keys and what becomes of them. */
  lemma Separate(key: Bytes, other: Bytes) returns (sha256: Bytes -> Bytes)
    requires key != other
    ensures forall x: Bytes :: |sha256(x)| == 32
    ensures forall p: Primitives :: p.sha256 == sha256 ==> FixedKey(p, key) != FixedKey(p, other)
  {
    var forKey := Repeat(if other == Repeat(0, 32) then 1 else 0, 32);
    var forOther := Repeat(if key == Repeat(2, 32) then 3 else 2, 32);
    assert forKey != other && forOther != key && forKey != forOther by {
      assert Repeat(0, 32)[0] == 0 && Repeat(1, 32)[0] == 1 && Repeat(2, 32)[0] == 2 && Repeat(3, 32)[0] == 3;
    }
    sha256 := x => if x == key then forKey else forOther;
  }

  /** c, decrypted by `other`, changes the first byte of every block. */
  ghost predicate Changes(c: Cipher, other: Cipher) {
    forall b: Bytes :: |b| == c.size > 0 ==>
      |other.decrypt(c.encrypt(b))| == c.size && other.decrypt(c.encrypt(b))[0] != b[0]
  }

  /** If every block comes out with its first byte changed, so does the text. */
  lemma FirstByteDiffers(c: Cipher, other: Cipher, iv: Bytes, data: Bytes)
    ensures Blocks(c, iv, data) && Blocks(other, iv, data) && data != [] && Changes(c, other) ==>
      CbcDecrypt(other, iv, CbcEncrypt(c, iv, data))[0] != data[0]
  {
    hide CbcEncrypt, CbcDecrypt, XorByte, Permutes, Remainder;
    if Blocks(c, iv, data) && Blocks(other, iv, data) && data != [] && Changes(c, other) {
      FirstEncrypted(c, iv, data);
      FirstDecrypted(other, iv, CbcEncrypt(c, iv, data));
      var masked := Xor(data[..c.size], iv);
      var block := other.decrypt(c.encrypt(masked));
      var text := CbcDecrypt(other, iv, CbcEncrypt(c, iv, data));
      assert text[0] == text[..c.size][0] == XorByte(block[0], iv[0]);
      assert masked[0] == XorByte(data[0], iv[0]) != block[0];
      XorByteFacts(block[0], iv[0]);
    }
  }

  lemma ShiftedIsChanged(b: Bytes)
    requires b != []
    ensures Shifted(Shifted(b, 0), 0xFF)[0] != b[0]
  {
  }

  lemma ShiftingChanges(size: nat)
    ensures Changes(Shifting(size, 0), Shifting(size, 1))
  {
    hide Shifted;
    forall b: Bytes | |b| == size > 0
      ensures Shifted(Shifted(b, 0), 0xFF)[0] != b[0]
    {
      ShiftedIsChanged(b);
    }
  }

  /** Then what is sealed under one of two keys that fit is not read under the other. */
  lemma FittingKeyMisreads(p: Primitives, data: Bytes, key: Bytes, other: Bytes, random: Bytes)
    requires Lawful(p) && data != [] && |random| >= 16
    requires KeyFits(FixedAlgo(key, TRIPLE_DES), FixedKey(p, other))
    ensures var algo := FixedAlgo(key, TRIPLE_DES);
            var sealed := Encrypted(p, data, key, DEFAULT_OPTIONS, Some(random));
            && sealed.Ok?
            && (Changes(p.cipher(algo, FixedKey(p, key)), p.cipher(algo, FixedKey(p, other))) ==>
                  Decrypted(p, sealed.value, other) != Ok(data))
  {
    hide Envelope.Envelope, Decrypted, Unsealed, Args, CbcEncrypt, CbcDecrypt, FixedAlgo, FixedKey, KeyFits;
    hide Padded, PaddingLength, Permutes, Changes, Remainder;
    var o := DEFAULT_OPTIONS;
    EncryptionSucceeds(p, data, key, o, Some(random));
    FixedAlgoFits(p, key, o.algo);
    var algo := FixedAlgo(key, o.algo);
    var block, wrong := p.cipher(algo, FixedKey(p, key)), p.cipher(algo, FixedKey(p, other));
    SizeIsPositive(block);
    var iv, padded := random[..block.size], Padded(data, block.size);
    var body := CbcEncrypt(block, iv, padded);
    EnvelopeRoundTrip(p, algo, Args(o.mode, o.padding, |padded| - |data|, iv), body, other);
    BodyOpens(wrong, iv, data, body);
    FirstByteDiffers(block, wrong, iv, padded);
    PaddedStarts(data, block.size);
    assert padded[..|data|][0] == padded[0];
  }

  /** For any two different keys and data that is not empty. */
  lemma OtherKeyMisreads(data: Bytes, key: Bytes, other: Bytes, random: Bytes) returns (p: Primitives)
    requires data != [] && key != other && |random| >= 16
    ensures Lawful(p)
    ensures var sealed := Encrypted(p, data, key, DEFAULT_OPTIONS, Some(random));
            sealed.Ok? && Decrypted(p, sealed.value, other) != Ok(data)
  {
    hide Encrypted, Decrypted, Shifting, KeyFits, FixedAlgo;
    var sha256 := Separate(key, other);
    var k := FixedKey(Keyed(sha256, []), key);
    p := Keyed(sha256, k);
    KeyedIsLawful(sha256, k);
    var algo := FixedAlgo(key, TRIPLE_DES);
    assert FixedKey(p, key) == k != FixedKey(p, other);
    hide FixedKey, Lawful;
    EncryptionSucceeds(p, data, key, DEFAULT_OPTIONS, Some(random));
    if KeyFits(algo, FixedKey(p, other)) {
      ShiftingChanges(BlockSize(algo));
      FittingKeyMisreads(p, data, key, other, random);
    } else {
      UnfitKeyCannotDecrypt(p, data, key, DEFAULT_OPTIONS, Some(random), other);
    }
  }
}
