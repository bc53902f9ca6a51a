/** Block ciphers, cipher block chaining (section 6.2 of NIST SP 800-38A) and block padding
    (section 6.3 of RFC 5652). The ciphers themselves are arbitrary keyed permutations. */
module Cbc {
  import opened Wrappers
  import opened Bytes

  /** A cipher.Block with its key. */
  datatype Cipher = Cipher(size: nat, encrypt: Bytes -> Bytes, decrypt: Bytes -> Bytes)

  /** Blocks go to blocks, and decrypting undoes encrypting. */
  ghost predicate Permutes(c: Cipher) {
    && 0 < c.size < 0x100
    && (forall b: Bytes :: |b| == c.size ==> |c.encrypt(b)| == c.size)
    && (forall b: Bytes :: |b| == c.size ==> |c.decrypt(b)| == c.size)
    && (forall b: Bytes :: |b| == c.size ==> c.decrypt(c.encrypt(b)) == b)
  }

  /** len % n. */
  function Remainder(len: nat, n: nat): (r: nat)
    requires n > 0
    ensures r < n
  {
    if len < n then len else Remainder(len - n, n)
  }

  /** len is a whole number of blocks of n. */
  predicate Whole(len: nat, n: nat)
    requires n > 0
  {
    Remainder(len, n) == 0
  }

  ghost predicate Blocks(c: Cipher, iv: Bytes, data: Bytes) {
    Permutes(c) && |iv| == c.size && Whole(|data|, c.size)
  }

  /** Each block is masked with the ciphertext of the block before it. */
  function CbcEncrypt(c: Cipher, iv: Bytes, data: Bytes): (r: Bytes)
    requires Blocks(c, iv, data)
    ensures |r| == |data|
    decreases |data|
  {
    if data == [] then []
    else
      var block := c.encrypt(Xor(data[..c.size], iv));
      block + CbcEncrypt(c, block, data[c.size..])
  }

  function CbcDecrypt(c: Cipher, iv: Bytes, data: Bytes): (r: Bytes)
    requires Blocks(c, iv, data)
    ensures |r| == |data|
    decreases |data|
  {
    if data == [] then []
    else
      var block := data[..c.size];
      Xor(c.decrypt(block), iv) + CbcDecrypt(c, block, data[c.size..])
  }

  /** Decrypting with the same initial vector undoes encrypting, for every number of blocks. */
  lemma {:induction false} CbcRoundTrip(c: Cipher, iv: Bytes, data: Bytes)
    requires Blocks(c, iv, data)
    ensures CbcDecrypt(c, iv, CbcEncrypt(c, iv, data)) == data
    decreases |data|
  {
    hide Xor;
    if data != [] {
      var masked := Xor(data[..c.size], iv);
      var block := c.encrypt(masked);
      var rest := CbcEncrypt(c, block, data[c.size..]);
      assert (block + rest)[..c.size] == block && (block + rest)[c.size..] == rest;
      assert c.decrypt(block) == masked;
      XorTwice(data[..c.size], iv);
      CbcRoundTrip(c, block, data[c.size..]);
    }
  }

  /** The first block of the ciphertext. */
  lemma FirstEncrypted(c: Cipher, iv: Bytes, data: Bytes)
    requires Blocks(c, iv, data) && data != []
    ensures 0 < c.size <= |data| && |iv| == c.size && |c.encrypt(Xor(data[..c.size], iv))| == c.size
    ensures CbcEncrypt(c, iv, data)[..c.size] == c.encrypt(Xor(data[..c.size], iv))
  {
    EncryptStep(c, iv, data, []);
    hide *;
  }

  /** The first block of the text. */
  lemma FirstDecrypted(c: Cipher, iv: Bytes, data: Bytes)
    requires Blocks(c, iv, data) && data != []
    ensures 0 < c.size <= |data| && |iv| == c.size && |c.decrypt(data[..c.size])| == c.size
    ensures CbcDecrypt(c, iv, data)[..c.size] == Xor(c.decrypt(data[..c.size]), iv)
  {
    DecryptStep(c, iv, data, []);
    hide *;
  }

  lemma {:induction false} RemainderShifts(at: nat, size: nat)
    requires 0 < size <= at
    ensures Whole(at, size) <==> Whole(at - size, size)
  {
  }

  /** The blocks of the ciphertext, each for itself: a block of data is masked with the block of ciphertext
      before it, the first one with the initial vector, and then encrypted. */
  lemma {:induction false} ChainedBlock(c: Cipher, iv: Bytes, data: Bytes, at: nat)
    requires Blocks(c, iv, data) && at + c.size <= |data| && Whole(at, c.size)
    ensures var sealed := CbcEncrypt(c, iv, data);
            && (at > 0 ==> at >= c.size)
            && var mask := if at == 0 then iv else sealed[at - c.size..at];
            && |mask| == c.size && sealed[at..at + c.size] == c.encrypt(Xor(data[at..at + c.size], mask))
    decreases at
  {
    hide *;
    var n := c.size;
    SizeOf(c, iv, data);
    FirstEncrypted(c, iv, data);
    EncryptStep(c, iv, data, []);
    var first, rest := c.encrypt(Xor(data[..n], iv)), data[n..];
    var more := CbcEncrypt(c, first, rest);
    Joint(CbcEncrypt(c, iv, data), first, more);
    Joint(data, data[..n], rest);
    if at > 0 {
      NotInside(at, n);
      RemainderShifts(at, n);
      ChainedBlock(c, first, rest, at - n);
      Behind(first, more, at);
      Behind(data[..n], rest, at);
      if at > n { Behind(first, more, at - n); }
    }
  }

  lemma SizeOf(c: Cipher, iv: Bytes, data: Bytes)
    requires Blocks(c, iv, data)
    ensures 0 < c.size == |iv| && |CbcEncrypt(c, iv, data)| == |data|
  {
  }

  lemma NotInside(at: nat, size: nat)
    requires size > 0 && Whole(at, size) && at > 0
    ensures at >= size
  {
  }

  lemma Joint(s: Bytes, first: Bytes, rest: Bytes)
    ensures [] + s == ([] + first) + rest ==> s == first + rest && s[0..|first|] == first
    ensures |first| <= |s| && first == s[..|first|] && rest == s[|first|..] ==>
      s == first + rest && s[0..|first|] == first
  {
    assert [] + s == s && [] + first == first;
  }

  lemma Behind(first: Bytes, rest: Bytes, at: nat)
    requires |first| <= at && at + |first| <= |first + rest|
    ensures (first + rest)[at..at + |first|] == rest[at - |first|..at]
  {
  }

  lemma EmptyBlocks(c: Cipher, iv: Bytes)
    requires Blocks(c, iv, [])
    ensures CbcEncrypt(c, iv, []) == CbcDecrypt(c, iv, []) == []
  {
  }

  /** copy(dst[at:], src). */
  method Copy(dst: array<byte>, at: nat, src: Bytes)
    requires at + |src| <= dst.Length
    modifies dst
    ensures dst[..at + |src|] == old(dst[..at]) + src
    ensures dst[at + |src|..] == old(dst[at + |src|..])
  {
    forall i | 0 <= i < |src| {
      dst[at + i] := src[i];
    }
  }

  lemma EncryptStep(c: Cipher, iv: Bytes, data: Bytes, done: Bytes)
    requires Blocks(c, iv, data) && data != []
    ensures 0 < c.size <= |data| && |iv| == c.size && |c.encrypt(Xor(data[..c.size], iv))| == c.size
    ensures var out := c.encrypt(Xor(data[..c.size], iv));
            var prev := out;
            && Blocks(c, prev, data[c.size..])
            && done + CbcEncrypt(c, iv, data) == (done + out) + CbcEncrypt(c, prev, data[c.size..])
  {
  }

  /** CryptBlocks of a CBC encrypter. */
  method EncryptBlocks(c: Cipher, iv: Bytes, dst: array<byte>, src: Bytes)
    requires Blocks(c, iv, src) && dst.Length == |src|
    modifies dst
    ensures dst[..] == CbcEncrypt(c, iv, src)
  {
    hide *;
    var rest, prev := src, iv;
    ghost var done: Bytes := [];
    while rest != []
      invariant |done| + |rest| == |src| && dst[..|done|] == done
      invariant Blocks(c, prev, rest)
      invariant CbcEncrypt(c, iv, src) == done + CbcEncrypt(c, prev, rest)
      decreases |rest|
    {
      EncryptStep(c, prev, rest, done);
      var block := rest[..c.size];
      var out := c.encrypt(Xor(block, prev));
      Copy(dst, |src| - |rest|, out);
      prev, rest, done := out, rest[c.size..], done + out;
    }
    EmptyBlocks(c, prev);
    assert dst[..] == dst[..|src|];
  }

  lemma DecryptStep(c: Cipher, iv: Bytes, data: Bytes, done: Bytes)
    requires Blocks(c, iv, data) && data != []
    ensures 0 < c.size <= |data| && |iv| == c.size && |c.decrypt(data[..c.size])| == c.size
    ensures var out := Xor(c.decrypt(data[..c.size]), iv);
            var prev := data[..c.size];
            && Blocks(c, prev, data[c.size..])
            && done + CbcDecrypt(c, iv, data) == (done + out) + CbcDecrypt(c, prev, data[c.size..])
  {
  }

  /** CryptBlocks of a CBC decrypter. */
  method DecryptBlocks(c: Cipher, iv: Bytes, dst: array<byte>, src: Bytes)
    requires Blocks(c, iv, src) && dst.Length == |src|
    modifies dst
    ensures dst[..] == CbcDecrypt(c, iv, src)
  {
    hide *;
    var rest, prev := src, iv;
    ghost var done: Bytes := [];
    while rest != []
      invariant |done| + |rest| == |src| && dst[..|done|] == done
      invariant Blocks(c, prev, rest)
      invariant CbcDecrypt(c, iv, src) == done + CbcDecrypt(c, prev, rest)
      decreases |rest|
    {
      DecryptStep(c, prev, rest, done);
      var block := rest[..c.size];
      var out := Xor(c.decrypt(block), prev);
      Copy(dst, |src| - |rest|, out);
      prev, rest, done := block, rest[c.size..], done + out;
    }
    EmptyBlocks(c, prev);
    assert dst[..] == dst[..|src|];
  }

  // ----- padding

  /** How many bytes are appended: always at least one. */
  function PaddingLength(len: nat, size: nat): (p: nat)
    requires size > 0
    ensures 1 <= p <= size
  {
    size - Remainder(len, size)
  }

  lemma {:induction false} PaddingFillsBlock(len: nat, size: nat)
    requires size > 0
    ensures Whole(len + PaddingLength(len, size), size)
  {
    if len >= size { PaddingFillsBlock(len - size, size); }
  }

  lemma {:induction false} RemainderIsMod(len: nat, size: nat)
    requires size == 8 || size == 16
    ensures Remainder(len, size) == len % size
  {
    if len >= size {
      RemainderIsMod(len - size, size);
      LessOneBlock(len);
    }
  }

  lemma LessOneBlock(len: nat)
    ensures len >= 8 ==> (len - 8) % 8 == len % 8
    ensures len >= 16 ==> (len - 16) % 16 == len % 16
  {
  }

  /** For blocks of 8 and 16 bytes: what is missing to the next multiple of the size, or a whole block, in
      bytes that say how many they are. */
  lemma PaddedText(data: Bytes, size: nat)
    requires size == 8 || size == 16
    ensures var fill := size - |data| % size; Padded(data, size) == data + Repeat(fill, fill)
  {
    RemainderIsMod(|data|, size);
  }

  /** pkcs5Padding and pkcs7Padding. */
  function Padded(data: Bytes, size: nat): (r: Bytes)
    requires size > 0
    ensures |r| == |data| + PaddingLength(|data|, size) && Whole(|r|, size)
  {
    var p := PaddingLength(|data|, size);
    PaddingFillsBlock(|data|, size);
    data + Repeat(ByteOf(p), p)
  }

  lemma PaddedStarts(data: Bytes, size: nat)
    requires size > 0
    ensures Padded(data, size)[..|data|] == data
  {
  }

  /** pkcs7UnPadding: the last byte says how many bytes to drop. */
  function UnpaddedByLast(data: Bytes): Outcome<Bytes> {
    if data == [] || data[|data| - 1] > |data| then Panic
    else Ok(data[..|data| - data[|data| - 1]])
  }

  /** For the block sizes that one byte can count, the last byte undoes the padding. */
  lemma UnpaddingRoundTrip(data: Bytes, size: nat)
    requires 0 < size < 0x100
    ensures UnpaddedByLast(Padded(data, size)) == Ok(data)
  {
  }
}
