/** Model of crypto/aes.go. The key is its own initial vector, and unpadding trusts the last byte. */
module Aes {
  import opened Wrappers
  import opened Bytes
  import opened Cbc

  const BLOCK_SIZE: nat := 16

  /** NewAESCipher: the block cipher that `aes` has for the key, or an error that stays with it. */
  datatype AesCipher = AesCipher(block: Option<Cipher>, key: Bytes)

  function NewAesCipher(aes: Bytes -> Cipher, key: Bytes): (c: AesCipher)
    ensures c.block.Some? <==> |key| in {16, 24, 32}
  {
    AesCipher(if |key| in {16, 24, 32} then Some(aes(key)) else None, key)
  }

  ghost predicate Usable(c: AesCipher) {
    c.block.Some? ==> Permutes(c.block.value) && c.block.value.size == BLOCK_SIZE && |c.key| >= BLOCK_SIZE
  }

  /** What CBCEncrypt returns. */
  function Encrypted(c: AesCipher, data: Bytes): Outcome<Bytes>
    requires Usable(c)
  {
    match c.block
    case None => Error
    case Some(block) => Ok(CbcEncrypt(block, c.key[..block.size], Padded(data, block.size)))
  }

  /** What CBCDecrypt returns. */
  function Decrypted(c: AesCipher, data: Bytes): Outcome<Bytes>
    requires Usable(c)
  {
    match c.block
    case None => Error
    case Some(block) =>
      if !Whole(|data|, block.size) then Panic
      else UnpaddedByLast(CbcDecrypt(block, c.key[..block.size], data))
  }

  method CBCEncrypt(c: AesCipher, origData: Bytes) returns (r: Outcome<Bytes>)
    requires Usable(c)
    ensures r == Encrypted(c, origData)
  {
    if c.block == None {
      return Error;
    }
    var block := c.block.value;
    var padded := Padded(origData, block.size);
    var cryted := new byte[|padded|];
    EncryptBlocks(block, c.key[..block.size], cryted, padded);
    return Ok(cryted[..]);
  }

  method CBCDecrypt(c: AesCipher, crytedByte: Bytes) returns (r: Outcome<Bytes>)
    requires Usable(c)
    ensures r == Decrypted(c, crytedByte)
  {
    if c.block == None {
      return Error;
    }
    var block := c.block.value;
    if !Whole(|crytedByte|, block.size) {
      return Panic;
    }
    var orig := new byte[|crytedByte|];
    DecryptBlocks(block, c.key[..block.size], orig, crytedByte);
    return UnpaddedByLast(orig[..]);
  }

  /** The ciphertext: the data, filled up to whole blocks by 1 to 16 bytes that say how many they are, in a
      chain that starts from the first 16 bytes of the key. */
  lemma CBCFormat(c: AesCipher, data: Bytes)
    requires Usable(c) && c.block.Some?
    ensures var fill := 16 - |data| % 16;
            var filled := data + Repeat(fill, fill);
            && Blocks(c.block.value, c.key[..16], filled)
            && Encrypted(c, data) == Ok(CbcEncrypt(c.block.value, c.key[..16], filled))
  {
    PaddedText(data, 16);
    hide Permutes, CbcEncrypt, Padded;
  }

  /** For every AES, every key of 16, 24 or 32 bytes and every plaintext; every other key is refused. */
  lemma CBCRoundTrip(aes: Bytes -> Cipher, key: Bytes, data: Bytes)
    requires forall k: Bytes :: |k| in {16, 24, 32} ==> Permutes(aes(k)) && aes(k).size == BLOCK_SIZE
    ensures var c := NewAesCipher(aes, key);
            if |key| in {16, 24, 32} then Encrypted(c, data).Ok? && Decrypted(c, Encrypted(c, data).value) == Ok(data)
            else Encrypted(c, data) == Error && Decrypted(c, data) == Error
  {
    hide Padded, CbcEncrypt, CbcDecrypt, UnpaddedByLast, Permutes;
    if |key| in {16, 24, 32} {
      var block := aes(key);
      CbcRoundTrip(block, key[..block.size], Padded(data, block.size));
      UnpaddingRoundTrip(data, block.size);
    }
  }
}
