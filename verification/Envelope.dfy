/** Model of safe/encrypt.go: the printed ciphertext {CRYPT}$algorithm$base64(args)$base64(body).
    The ciphers and SHA-256 are parameters; random bytes are an input. */
module Envelope {
  import opened Wrappers
  import opened Bytes
  import opened Base64
  import opened Cbc

  const TRIPLE_DES: byte := 0
  const DES: byte := 1
  const AES: byte := 2
  const TEA: byte := 3
  const BLOCK_MODE_CBC: byte := 0
  const PKCS5: byte := 0

  /** ciphertextPrefix, the bytes of "{CRYPT}". */
  const PREFIX: Bytes := [123, 67, 82, 89, 80, 84, 125]

  datatype Primitives = Primitives(sha256: Bytes -> Bytes, cipher: (byte, Bytes) -> Cipher)

  function BlockSize(algo: byte): nat {
    if algo == AES then 16 else 8
  }

  /** The key lengths that the constructors behind NewCipher accept. */
  predicate KeyFits(algo: byte, key: Bytes) {
    (algo == DES && |key| == 8) || (algo == TRIPLE_DES && |key| == 24)
    || (algo == AES && (|key| == 16 || |key| == 24 || |key| == 32)) || (algo == TEA && |key| == 16)
  }

  ghost predicate Lawful(p: Primitives) {
    && (forall key: Bytes :: |p.sha256(key)| == 32)
    && (forall algo, key :: KeyFits(algo, key) ==> p.cipher(algo, key).size == BlockSize(algo))
    && (forall algo, key :: KeyFits(algo, key) ==> Permutes(p.cipher(algo, key)))
  }

  /** EncryptionAlgorithm.NewCipher. */
  function NewCipher(p: Primitives, algo: byte, key: Bytes): Option<Cipher> {
    if KeyFits(algo, key) then Some(p.cipher(algo, key)) else None
  }

  // ----- algorithm selection

  predicate DirectKey(key: Bytes) {
    |key| == 8 || |key| == 16 || |key| == 24 || |key| == 32
  }

  /** The algorithm that fixAlgo leaves in the options. */
  function FixedAlgo(key: Bytes, algo: byte): byte {
    if |key| == 8 then DES
    else if |key| == 16 then (if algo == TEA then TEA else AES)
    else if |key| == 24 then (if algo == AES then AES else TRIPLE_DES)
    else AES
  }

  /** The key that is used: fixAlgo and Decrypt agree on it. */
  function FixedKey(p: Primitives, key: Bytes): Bytes {
    if DirectKey(key) then key else p.sha256(key)
  }

  /** After fixAlgo the cipher accepts the key, whatever was asked for and however long the key is;
      an algorithm that fits the key already is not replaced. */
  lemma FixedAlgoFits(p: Primitives, key: Bytes, algo: byte)
    requires Lawful(p)
    ensures KeyFits(FixedAlgo(key, algo), FixedKey(p, key))
    ensures KeyFits(algo, key) ==> FixedAlgo(key, algo) == algo && FixedKey(p, key) == key
  {
    hide *;
    HashLength(p, key);
    FixedAlgoTakes(key, algo, FixedKey(p, key));
  }

  lemma FixedAlgoTakes(key: Bytes, algo: byte, fixedKey: Bytes)
    requires DirectKey(key) ==> fixedKey == key
    requires !DirectKey(key) ==> |fixedKey| == 32
    ensures KeyFits(FixedAlgo(key, algo), fixedKey)
    ensures KeyFits(algo, key) ==> FixedAlgo(key, algo) == algo && fixedKey == key
  {
  }

  lemma HashLength(p: Primitives, key: Bytes)
    requires Lawful(p)
    ensures DirectKey(key) ==> FixedKey(p, key) == key
    ensures !DirectKey(key) ==> |FixedKey(p, key)| == 32
  {
  }

  // ----- the algorithm field

  function HexDigit(d: byte): (c: byte)
    requires d < 16
  {
    if d < 10 then d + 48 else d + 55
  }

  /** One digit of hex.DecodeString. */
  function HexValue(c: byte): (r: Option<byte>)
    ensures r.Some? ==> r.value < 16
  {
    if 48 <= c <= 57 then Some(c - 48)
    else if 65 <= c <= 70 then Some(c - 55)
    else if 97 <= c <= 102 then Some(c - 87)
    else None
  }

  /** EncryptionAlgorithm.String: upper-case hex without a leading zero. */
  function AlgoString(algo: byte): (s: Bytes)
    ensures 1 <= |s| <= 2
  {
    if algo < 16 then [HexDigit(algo)] else [HexDigit(algo / 16), HexDigit(algo % 16)]
  }

  /** Decrypt's reading of the field, the dollar sign taken off; the empty field makes it index an
      empty slice. */
  function ParseAlgo(s: Bytes): Outcome<byte> {
    if |s| > 2 then Error
    else if s == [] then Panic
    else
      var hex := if |s| == 1 then [48] + s else s;
      match (HexValue(hex[0]), HexValue(hex[1]))
      case (Some(hi), Some(lo)) => Ok(Nibbles(hi, lo))
      case _ => Error
  }

  lemma AlgoRoundTrip(algo: byte)
    ensures ParseAlgo(AlgoString(algo)) == Ok(algo) && DOLLAR !in AlgoString(algo)
  {
  }

  // ----- the argument field

  /** Mode and padding method in one byte, the padding length in four, all masked with the initial
      vector if that is long enough; then the vector itself. */
  function Mask(header: Bytes, iv: Bytes): (r: Bytes)
    requires |header| == 5
    ensures |r| == 5
  {
    if |iv| >= 5 then Xor(header, iv) else header
  }

  function Args(mode: byte, padding: byte, paddingLength: nat, iv: Bytes): (r: Bytes)
    requires padding < 16
    ensures |r| == 5 + |iv|
  {
    Mask([Nibbles(mode, padding)] + PutUint32(paddingLength), iv) + iv
  }

  /** The header, unmasked. */
  function Header(args: Bytes): (r: Bytes)
    requires |args| >= 5
    ensures |r| == 5
  {
    Mask(args[..5], args[5..])
  }

  /** For every mode, padding method, padding length and initial vector, long or short: the fields are read
      back, the mode in the four bits that it has. */
  lemma ArgsRoundTrip(mode: byte, padding: byte, paddingLength: nat, iv: Bytes)
    requires padding < 16 && paddingLength < 0x1_0000_0000
    ensures var args := Args(mode, padding, paddingLength, iv);
            var header := Header(args);
            && args[5..] == iv && header[0] / 16 == mode % 16 && header[0] % 16 == padding
            && Uint32(header[1..]) == paddingLength
  {
    var header := [Nibbles(mode, padding)] + PutUint32(paddingLength);
    var args := Args(mode, padding, paddingLength, iv);
    assert args[..5] == Mask(header, iv) && args[5..] == iv;
    if |iv| >= 5 { XorTwice(header, iv); }
    assert Header(args) == header && header[1..] == PutUint32(paddingLength);
    Uint32RoundTrip(paddingLength);
  }

  // ----- the whole envelope

  function Envelope(algo: byte, args: Bytes, body: Bytes): Bytes {
    PREFIX + [DOLLAR] + AlgoString(algo) + [DOLLAR] + Encode(args) + [DOLLAR] + Encode(body)
  }

  /** Options as they are when Encrypt reads them. */
  datatype Options = Options(algo: byte, mode: byte, padding: byte, fixAlgo: bool)

  const DEFAULT_OPTIONS := Options(TRIPLE_DES, BLOCK_MODE_CBC, PKCS5, true)

  /** What Encrypt returns. `random` is None when the random source fails, and otherwise the bytes that
      it would deliver. */
  function Encrypted(p: Primitives, data: Bytes, key: Bytes, o: Options, random: Option<Bytes>): Outcome<Bytes>
    requires Lawful(p) && (random.Some? ==> |random.value| >= 16)
  {
    var algo := if o.fixAlgo then FixedAlgo(key, o.algo) else o.algo;
    match NewCipher(p, algo, if o.fixAlgo then FixedKey(p, key) else key)
    case None => Error
    case Some(block) =>
      if o.padding != PKCS5 || random.None? then Error
      else if o.mode != BLOCK_MODE_CBC then Panic
      else
        var iv := random.value[..block.size];
        var padded := Padded(data, block.size);
        Ok(Envelope(algo, Args(o.mode, o.padding, |padded| - |data|, iv), CbcEncrypt(block, iv, padded)))
  }

  /** What Decrypt makes of the text up to its last dollar sign and of the rest. */
  function Opened(p: Primitives, s: Bytes, key: Bytes): Outcome<Bytes>
    requires Lawful(p)
  {
    match IndexOf(s, DOLLAR)
    case None => Error
    case Some(i) =>
      var rest := s[i + 1..];
      match ParseAlgo(s[..i])
      case Error => Error
      case Panic => Panic
      case Ok(algo) =>
        (match NewCipher(p, algo, key)
         case None => Error
         case Some(block) =>
           match IndexOf(rest, DOLLAR)
           case None => Error
           case Some(k) =>
             match Decode(rest[..k])
             case None => Error
             case Some(args) =>
               if |args| < 5 then Panic
               else
                 match Decode(rest[k + 1..])
                 case None => Error
                 case Some(body) => Unsealed(block, args, body))
  }

  /** Decryption and unpadding under the decoded arguments. */
  function Unsealed(block: Cipher, args: Bytes, body: Bytes): Outcome<Bytes>
    requires Permutes(block) && |args| >= 5
  {
    var header, iv := Header(args), args[5..];
    if header[0] / 16 != BLOCK_MODE_CBC || |iv| != block.size || !Whole(|body|, block.size) then Panic
    else
      var padded := CbcDecrypt(block, iv, body);
      if header[0] % 16 != PKCS5 then Error
      else if Uint32(header[1..]) > |padded| then Panic
      else Ok(padded[..|padded| - Uint32(header[1..])])
  }

  /** What Decrypt returns. */
  function Decrypted(p: Primitives, s: Bytes, key: Bytes): Outcome<Bytes>
    requires Lawful(p)
  {
    if |s| <= |PREFIX| + 5 || !(PREFIX <= s) || s[|PREFIX|] != DOLLAR then Error
    else Opened(p, s[|PREFIX| + 1..], FixedKey(p, key))
  }

  // ----- opening what was printed

  /** The parser finds the fields that were printed. */
  lemma FieldsRoundTrip(p: Primitives, algo: byte, args: Bytes, body: Bytes, key: Bytes)
    requires Lawful(p) && KeyFits(algo, key) && |args| >= 5
    ensures Opened(p, AlgoString(algo) + [DOLLAR] + Encode(args) + [DOLLAR] + Encode(body), key) ==
            Unsealed(p.cipher(algo, key), args, body)
  {
    hide Encode, Decode, AlgoString, ParseAlgo, Unsealed, IndexOf, Permutes;
    var tail := Encode(args) + [DOLLAR] + Encode(body);
    Regrouped(AlgoString(algo) + [DOLLAR], Encode(args), [DOLLAR], Encode(body));
    AlgoRoundTrip(algo);
    Base64RoundTrip(args);
    Base64RoundTrip(body);
    CutAtFirst(AlgoString(algo), DOLLAR, tail);
    CutAtFirst(Encode(args), DOLLAR, Encode(body));
  }

  lemma Regrouped(a: Bytes, b: Bytes, c: Bytes, d: Bytes)
    ensures a + b + c + d == a + (b + c + d)
  {
  }

  /** A key that does not fit the printed algorithm is refused, whatever the ciphers are. */
  lemma UnfitKeyIsRefused(p: Primitives, algo: byte, args: Bytes, body: Bytes, key: Bytes)
    requires Lawful(p) && !KeyFits(algo, FixedKey(p, key))
    ensures Decrypted(p, Envelope(algo, args, body), key) == Error
  {
    hide Encode, AlgoString, ParseAlgo, IndexOf;
    var tail := Encode(args) + [DOLLAR] + Encode(body);
    var s := AlgoString(algo) + [DOLLAR] + tail;
    AlgoRoundTrip(algo);
    CutAtFirst(AlgoString(algo), DOLLAR, tail);
    assert Envelope(algo, args, body) == PREFIX + [DOLLAR] + s;
    assert (PREFIX + [DOLLAR] + s)[|PREFIX| + 1..] == s;
  }

  lemma EnvelopeRoundTrip(p: Primitives, algo: byte, args: Bytes, body: Bytes, key: Bytes)
    requires Lawful(p) && KeyFits(algo, FixedKey(p, key)) && |args| >= 5
    ensures Decrypted(p, Envelope(algo, args, body), key) == Unsealed(p.cipher(algo, FixedKey(p, key)), args, body)
    ensures PREFIX <= Envelope(algo, args, body)
  {
    hide AlgoString, Encode, Opened, Unsealed;
    var tail := AlgoString(algo) + [DOLLAR] + Encode(args) + [DOLLAR] + Encode(body);
    assert Envelope(algo, args, body) == PREFIX + [DOLLAR] + tail;
    assert (PREFIX + [DOLLAR] + tail)[|PREFIX| + 1..] == tail;
    FieldsRoundTrip(p, algo, args, body, FixedKey(p, key));
  }

  /** Any body as long as the padded data is decrypted and cut to the length of the data. */
  lemma BodyOpens(block: Cipher, iv: Bytes, data: Bytes, body: Bytes)
    requires Permutes(block) && |iv| == block.size && |body| == |Padded(data, block.size)|
    ensures var text := Unsealed(block, Args(BLOCK_MODE_CBC, PKCS5, |body| - |data|, iv), body);
            text == Ok(CbcDecrypt(block, iv, body)[..|data|])
  {
    hide Args, Header, Uint32, CbcDecrypt, Permutes, Padded, PaddingLength;
    SizeIsPositive(block);
    ArgsRoundTrip(BLOCK_MODE_CBC, PKCS5, |body| - |data|, iv);
  }

  lemma SizeIsPositive(block: Cipher)
    requires Permutes(block)
    ensures 0 < block.size < 0x100
  {
  }

  /** The body decrypts to the data under the arguments that were printed with it. */
  lemma BodyRoundTrip(block: Cipher, iv: Bytes, data: Bytes)
    requires Permutes(block) && |iv| == block.size
    ensures var padded := Padded(data, block.size);
            var args := Args(BLOCK_MODE_CBC, PKCS5, |padded| - |data|, iv);
            Unsealed(block, args, CbcEncrypt(block, iv, padded)) == Ok(data)
  {
    hide Args, Unsealed, Padded, CbcEncrypt, CbcDecrypt, Permutes, PaddingLength, Remainder;
    SizeIsPositive(block);
    var padded := Padded(data, block.size);
    PaddedStarts(data, block.size);
    CbcRoundTrip(block, iv, padded);
    BodyOpens(block, iv, data, CbcEncrypt(block, iv, padded));
  }

  /** Whenever Encrypt succeeds, Decrypt with the same key gives the data back. */
  lemma EncryptionRoundTrip(p: Primitives, data: Bytes, key: Bytes, o: Options, random: Option<Bytes>)
    requires Lawful(p) && (random.Some? ==> |random.value| >= 16)
    ensures var sealed := Encrypted(p, data, key, o, random);
            sealed.Ok? ==> Decrypted(p, sealed.value, key) == Ok(data) && PREFIX <= sealed.value
  {
    hide Envelope, Decrypted, Unsealed, Args, CbcEncrypt, FixedKey, FixedAlgo, KeyFits, Padded, Permutes;
    if Encrypted(p, data, key, o, random).Ok? {
      FixedAlgoFits(p, key, o.algo);
      var algo := if o.fixAlgo then FixedAlgo(key, o.algo) else o.algo;
      var block := p.cipher(algo, FixedKey(p, key));
      var iv := random.value[..block.size];
      var padded := Padded(data, block.size);
      var args := Args(o.mode, o.padding, |padded| - |data|, iv);
      EnvelopeRoundTrip(p, algo, args, CbcEncrypt(block, iv, padded), key);
      BodyRoundTrip(block, iv, data);
    }
  }

  /** A key whose length does not suit the algorithm that was used cannot open the envelope. */
  lemma UnfitKeyCannotDecrypt(p: Primitives, data: Bytes, key: Bytes, o: Options, random: Option<Bytes>, other: Bytes)
    requires Lawful(p) && (random.Some? ==> |random.value| >= 16)
    requires !KeyFits(if o.fixAlgo then FixedAlgo(key, o.algo) else o.algo, FixedKey(p, other))
    ensures var sealed := Encrypted(p, data, key, o, random);
            sealed.Ok? ==> Decrypted(p, sealed.value, other) == Error
  {
    hide Envelope, Decrypted, Unsealed, Args, CbcEncrypt, FixedKey, FixedAlgo, KeyFits, Padded, Permutes;
    if Encrypted(p, data, key, o, random).Ok? {
      FixedAlgoFits(p, key, o.algo);
      var algo := if o.fixAlgo then FixedAlgo(key, o.algo) else o.algo;
      var block := p.cipher(algo, FixedKey(p, key));
      var iv := random.value[..block.size];
      var padded := Padded(data, block.size);
      var args := Args(o.mode, o.padding, |padded| - |data|, iv);
      UnfitKeyIsRefused(p, algo, args, CbcEncrypt(block, iv, padded), other);
    }
  }

  /** Any other key that does suit it opens the envelope, to a text of the length of the data: the length of
      the padding is printed beside the text. */
  lemma FittingKeyDecrypts(p: Primitives, data: Bytes, key: Bytes, o: Options, random: Option<Bytes>, other: Bytes)
    requires Lawful(p) && (random.Some? ==> |random.value| >= 16)
    requires KeyFits(if o.fixAlgo then FixedAlgo(key, o.algo) else o.algo, FixedKey(p, other))
    ensures var sealed := Encrypted(p, data, key, o, random);
            sealed.Ok? ==>
              var text := Decrypted(p, sealed.value, other); text.Ok? && |text.value| == |data|
  {
    hide Envelope, Decrypted, Unsealed, Args, CbcEncrypt, FixedKey, FixedAlgo, KeyFits, Padded, Permutes;
    if Encrypted(p, data, key, o, random).Ok? {
      FixedAlgoFits(p, key, o.algo);
      var algo := if o.fixAlgo then FixedAlgo(key, o.algo) else o.algo;
      var block := p.cipher(algo, FixedKey(p, key));
      var iv := random.value[..block.size];
      var padded := Padded(data, block.size);
      var args := Args(o.mode, o.padding, |padded| - |data|, iv);
      EnvelopeRoundTrip(p, algo, args, CbcEncrypt(block, iv, padded), other);
      BodyOpens(p.cipher(algo, FixedKey(p, other)), iv, data, CbcEncrypt(block, iv, padded));
    }
  }

  /** Exactly when Encrypt succeeds. With fixAlgo every key will do. */
  lemma EncryptionSucceeds(p: Primitives, data: Bytes, key: Bytes, o: Options, random: Option<Bytes>)
    requires Lawful(p) && (random.Some? ==> |random.value| >= 16)
    ensures Encrypted(p, data, key, o, random).Ok? <==>
            random.Some? && o.mode == BLOCK_MODE_CBC && o.padding == PKCS5 && (o.fixAlgo || KeyFits(o.algo, key))
    ensures Encrypted(p, data, key, o, random) == Panic <==>
            random.Some? && o.mode != BLOCK_MODE_CBC && o.padding == PKCS5 && (o.fixAlgo || KeyFits(o.algo, key))
  {
    FixedAlgoFits(p, key, o.algo);
  }

  // ----- the code

  class EncryptOptions {
    var algo: byte
    var mode: byte
    var padding: byte
    var fixAlgo: bool

    /** NewEncryptOptions with no option function but WithFixAlgo or WithoutFixAlgo. */
    constructor (fixAlgo: bool)
      ensures Value() == DEFAULT_OPTIONS.(fixAlgo := fixAlgo)
    {
      algo, mode, padding, this.fixAlgo := TRIPLE_DES, BLOCK_MODE_CBC, PKCS5, fixAlgo;
    }

    function Value(): Options
      reads this
    {
      Options(algo, mode, padding, fixAlgo)
    }
  }

  /** fixAlgo: the options are changed in place, for later calls too. */
  method FixAlgo(p: Primitives, key: Bytes, o: EncryptOptions) returns (fixedKey: Bytes)
    modifies o
    ensures fixedKey == FixedKey(p, key)
    ensures o.Value() == old(o.Value()).(algo := FixedAlgo(key, old(o.algo)))
  {
    fixedKey := key;
    if |key| == 8 {
      if o.algo != DES { o.algo := DES; }
    } else if |key| == 16 {
      if o.algo != AES && o.algo != TEA { o.algo := AES; }
    } else if |key| == 24 {
      if o.algo != AES && o.algo != TRIPLE_DES { o.algo := TRIPLE_DES; }
    } else if |key| == 32 {
      if o.algo != AES { o.algo := AES; }
    } else {
      if o.algo != AES { o.algo := AES; }
      fixedKey := p.sha256(key);
    }
  }

  /** The assignments args[i] = iv[i] ^ args[i], for i from 0 to 4. */
  method MaskInPlace(args: array<byte>, iv: Bytes)
    requires args.Length >= 5
    modifies args
    ensures args[..5] == Mask(old(args[..5]), iv) && args[5..] == old(args[5..])
  {
    hide XorByte;
    if |iv| >= 5 {
      ghost var header, rest := args[..5], args[5..];
      XorByteFacts(iv[0], header[0]);
      XorByteFacts(iv[1], header[1]);
      XorByteFacts(iv[2], header[2]);
      XorByteFacts(iv[3], header[3]);
      XorByteFacts(iv[4], header[4]);
      args[0], args[1], args[2], args[3], args[4] :=
        XorByte(iv[0], args[0]), XorByte(iv[1], args[1]), XorByte(iv[2], args[2]),
        XorByte(iv[3], args[3]), XorByte(iv[4], args[4]);
      ghost var masked := [XorByte(header[0], iv[0]), XorByte(header[1], iv[1]), XorByte(header[2], iv[2]),
                           XorByte(header[3], iv[3]), XorByte(header[4], iv[4])];
      assert args[..5] == masked;
      assert Xor(header, iv) == masked;
    }
  }

  method Encrypt(p: Primitives, originalBytes: Bytes, key: Bytes, o: EncryptOptions?, random: Option<Bytes>)
    returns (r: Outcome<Bytes>)
    requires Lawful(p) && (random.Some? ==> |random.value| >= 16)
    modifies o
    ensures r == Encrypted(p, originalBytes, key, if o == null then DEFAULT_OPTIONS else old(o.Value()), random)
    ensures o != null ==>
      o.Value() == old(o.Value()).(algo := if old(o.fixAlgo) then FixedAlgo(key, old(o.algo)) else old(o.algo))
  {
    hide FixedAlgo, FixedKey, KeyFits, Envelope, PutUint32, Mask, Padded, CbcEncrypt, AlgoString, Permutes;
    var opt := o;
    if opt == null {
      opt := new EncryptOptions(true);
    }
    var cipherKey := key;
    if opt.fixAlgo {
      cipherKey := FixAlgo(p, key, opt);
    }
    var cipher := NewCipher(p, opt.algo, cipherKey);
    if cipher.None? {
      return Error;
    }
    var block := cipher.value;
    if opt.padding != PKCS5 {
      return Error;
    }
    var paddingBytes := Padded(originalBytes, block.size);
    var paddingLength := |paddingBytes| - |originalBytes|;
    if random.None? {
      return Error;
    }
    var iv := random.value[..block.size];
    var header := [Nibbles(opt.mode, opt.padding)] + PutUint32(paddingLength);
    var args := new byte[5](i requires 0 <= i < 5 => header[i]);
    assert args[..5] == header;
    MaskInPlace(args, iv);
    if opt.mode != BLOCK_MODE_CBC {
      return Panic;
    }
    var cipherBytes := new byte[|paddingBytes|];
    EncryptBlocks(block, iv, cipherBytes, paddingBytes);
    assert args[..] == args[..5];
    return Ok(Envelope(opt.algo, args[..] + iv, cipherBytes[..]));
  }

  method Decrypt(p: Primitives, cipherString: Bytes, key: Bytes) returns (r: Outcome<Bytes>)
    requires Lawful(p)
    ensures r == Decrypted(p, cipherString, key)
  {
    hide IndexOf, ParseAlgo, Decode, KeyFits, Mask, CbcDecrypt, Uint32, Permutes, Whole;
    var cipherKey := if DirectKey(key) then key else p.sha256(key);
    if |cipherString| <= |PREFIX| + 5 {
      return Error;
    }
    if !(PREFIX <= cipherString) || cipherString[|PREFIX|] != DOLLAR {
      return Error;
    }
    var buf := cipherString[|PREFIX| + 1..];
    var end := IndexOf(buf, DOLLAR);
    if end.None? {
      return Error;
    }
    var algo := ParseAlgo(buf[..end.value]);
    if !algo.Ok? {
      return if algo.Panic? then Panic else Error;
    }
    buf := buf[end.value + 1..];
    var cipher := NewCipher(p, algo.value, cipherKey);
    if cipher.None? {
      return Error;
    }
    var block := cipher.value;
    end := IndexOf(buf, DOLLAR);
    if end.None? {
      return Error;
    }
    var decoded := Decode(buf[..end.value]);
    if decoded.None? {
      return Error;
    }
    buf := buf[end.value + 1..];
    if |decoded.value| < 5 {
      return Panic;
    }
    var args := new byte[|decoded.value|](i requires 0 <= i < |decoded.value| => decoded.value[i]);
    assert args[..] == decoded.value && args[5..] == decoded.value[5..] && args[..5] == decoded.value[..5];
    var iv := args[5..];
    MaskInPlace(args, iv);
    var mode, padding := args[0] / 16, args[0] % 16;
    var body := Decode(buf);
    if body.None? {
      return Error;
    }
    if mode != BLOCK_MODE_CBC || |iv| != block.size || !Whole(|body.value|, block.size) {
      return Panic;
    }
    var paddingBytes := new byte[|body.value|];
    DecryptBlocks(block, iv, paddingBytes, body.value);
    assert args[..5][1..] == args[1..5] && args[..5] == Header(decoded.value);
    var paddingLength := Uint32(args[1..5]);
    if padding != PKCS5 {
      return Error;
    }
    if paddingLength > paddingBytes.Length {
      return Panic;
    }
    var length := paddingBytes.Length - paddingLength;
    assert paddingBytes[..][..length] == paddingBytes[..length];
    return Ok(paddingBytes[..length]);
  }
}
