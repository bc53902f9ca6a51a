/** Model of safe/string.go: a string that is kept encrypted under its own secret or, where it has none,
    under the one of the environment. */
module SafeString {
  import opened Wrappers
  import opened Bytes
  import opened Envelope
  import opened Misreading

  datatype State = State(value: Bytes, secret: Bytes)

  predicate IsSealed(value: Bytes) {
    PREFIX <= value
  }

  /** getSecret. */
  function SecretOf(s: State, env: Bytes): Bytes {
    if s.secret != [] then s.secret else env
  }

  /** Encrypt with nil options. */
  function Seal(p: Primitives, data: Bytes, secret: Bytes, random: Option<Bytes>): Outcome<Bytes>
    requires Lawful(p) && RandomFits(random)
  {
    Encrypted(p, data, secret, DEFAULT_OPTIONS, random)
  }

  predicate RandomFits(random: Option<Bytes>) {
    random.Some? ==> |random.value| >= 16
  }

  function Unsafe(p: Primitives, env: Bytes, s: State): Outcome<Bytes>
    requires Lawful(p)
  {
    if s.value == [] then Ok([])
    else if IsSealed(s.value) && SecretOf(s, env) != [] then Decrypted(p, s.value, SecretOf(s, env))
    else Ok(s.value)
  }

  function AfterSetValue(p: Primitives, env: Bytes, s: State, v: Bytes, random: Option<Bytes>): State
    requires Lawful(p) && RandomFits(random)
  {
    if !IsSealed(v) && SecretOf(s, env) != [] && v != [] then
      var r := Seal(p, v, SecretOf(s, env), random);
      State(if r.Ok? then r.value else [], SecretOf(s, env))
    else s.(value := v)
  }

  function AfterUpdateSecret(p: Primitives, env: Bytes, s: State, secret: Bytes, random: Option<Bytes>): State
    requires Lawful(p) && RandomFits(random)
  {
    match Unsafe(p, env, s)
    case Ok(plain) =>
      var r := if secret != [] then Seal(p, plain, secret, random) else Error;
      State(if r.Ok? then r.value else s.value, secret)
    case _ => s
  }

  /** String(): it encrypts with the string's own secret even where only the environment has one. */
  function AfterString(p: Primitives, env: Bytes, s: State, random: Option<Bytes>): State
    requires Lawful(p) && RandomFits(random)
  {
    if s.value != [] && !IsSealed(s.value) && SecretOf(s, env) != [] then
      var r := Seal(p, s.value, s.secret, random);
      if r.Ok? then s.(value := r.value) else s
    else s
  }

  /** NewEncryptedString. */
  function Created(p: Primitives, plain: Bytes, secret: Bytes, random: Option<Bytes>): State
    requires Lawful(p) && RandomFits(random)
  {
    var r := if !IsSealed(plain) && secret != [] then Seal(p, plain, secret, random) else Error;
    State(if r.Ok? then r.value else plain, secret)
  }

  // ----- the plaintext survives

  /** s stands for plain: openly, which it may only where String() would not encrypt it with an empty
      secret, or sealed under its own secret. */
  ghost predicate Holds(p: Primitives, env: Bytes, s: State, plain: Bytes)
    requires Lawful(p)
  {
    || (s.value == plain && !IsSealed(plain) && (plain == [] || s.secret != [] || env == []))
    || (IsSealed(s.value) && s.secret != [] && Decrypted(p, s.value, s.secret) == Ok(plain))
  }

  lemma HoldsReads(p: Primitives, env: Bytes, s: State, plain: Bytes)
    requires Lawful(p)
    ensures Holds(p, env, s, plain) ==> Unsafe(p, env, s) == Ok(plain)
  {
    hide Decrypted;
  }

  /** Sealing fails only for want of random bytes, and what it seals can be read. */
  lemma SealHolds(p: Primitives, data: Bytes, secret: Bytes, random: Option<Bytes>)
    requires Lawful(p) && RandomFits(random)
    ensures Seal(p, data, secret, random).Ok? <==> random.Some?
    ensures random.Some? ==>
      var value := Seal(p, data, secret, random).value;
      IsSealed(value) && Decrypted(p, value, secret) == Ok(data)
  {
    hide Encrypted, Decrypted;
    EncryptionSucceeds(p, data, secret, DEFAULT_OPTIONS, random);
    if random.Some? { EncryptionRoundTrip(p, data, secret, DEFAULT_OPTIONS, random); }
  }

  datatype Op =
    | SetValue(v: Bytes, random: Option<Bytes>)
    | UpdateSecret(secret: Bytes, random: Option<Bytes>)
    | Print(random: Option<Bytes>)

  function After(p: Primitives, env: Bytes, s: State, op: Op): State
    requires Lawful(p) && RandomFits(op.random)
  {
    match op
    case SetValue(v, random) => AfterSetValue(p, env, s, v, random)
    case UpdateSecret(secret, random) => AfterUpdateSecret(p, env, s, secret, random)
    case Print(random) => AfterString(p, env, s, random)
  }

  /** What the caller must see to: plaintexts that do not look sealed, and secrets that are not empty. */
  predicate Allowed(op: Op) {
    && RandomFits(op.random)
    && (op.SetValue? ==> !IsSealed(op.v))
    && (op.UpdateSecret? ==> op.secret != [])
  }

  /** UpdateSecret without random bytes puts the new secret beside the old ciphertext. */
  predicate LeavesCiphertext(s: State, op: Op) {
    op.UpdateSecret? && op.random.None? && IsSealed(s.value)
  }

  /** The plaintext that the string should stand for after op, if it stood for `plain`; None: it is lost.
      SetValue without random bytes empties the string. A ciphertext that is left beside another secret
      must happen to be readable under it. */
  function Expected(p: Primitives, env: Bytes, s: State, plain: Option<Bytes>, op: Op): Option<Bytes>
    requires Lawful(p)
  {
    match op
    case SetValue(v, random) => Some(if random.None? && SecretOf(s, env) != [] then [] else v)
    case UpdateSecret(secret, _) =>
      if plain.Some? && LeavesCiphertext(s, op) && Decrypted(p, s.value, secret) != Ok(plain.value) then None
      else plain
    case Print(_) => plain
  }

  /** s stands for plain; if the plaintext is lost, s has at least a secret of its own. */
  ghost predicate Tracks(p: Primitives, env: Bytes, s: State, plain: Option<Bytes>)
    requires Lawful(p)
  {
    match plain
    case Some(x) => Holds(p, env, s, x)
    case None => s.secret != []
  }

  lemma StepHolds(p: Primitives, env: Bytes, s: State, plain: Option<Bytes>, op: Op)
    requires Lawful(p) && Allowed(op)
    ensures Tracks(p, env, s, plain) ==> Tracks(p, env, After(p, env, s, op), Expected(p, env, s, plain, op))
  {
    hide Seal, Decrypted;
    if plain.Some? { HoldsReads(p, env, s, plain.value); }
    match op
    case SetValue(v, random) => SealHolds(p, v, SecretOf(s, env), random);
    case UpdateSecret(secret, random) =>
      if plain.Some? { SealHolds(p, plain.value, secret, random); }
    case Print(random) => SealHolds(p, s.value, s.secret, random);
  }

  /** The end of a run, with the plaintext that it should stand for. */
  function Run(p: Primitives, env: Bytes, s: State, plain: Option<Bytes>, ops: seq<Op>): (State, Option<Bytes>)
    requires Lawful(p) && forall i :: 0 <= i < |ops| ==> Allowed(ops[i])
    decreases |ops|
  {
    if ops == [] then (s, plain)
    else
      assert Allowed(ops[0]);
      Run(p, env, After(p, env, s, ops[0]), Expected(p, env, s, plain, ops[0]), ops[1..])
  }

  /** Over every run, whenever the random source fails: unless the plaintext is lost, UnsafeString returns
      it. */
  lemma {:induction false} RunHolds(p: Primitives, env: Bytes, s: State, plain: Option<Bytes>, ops: seq<Op>)
    requires Lawful(p) && forall i :: 0 <= i < |ops| ==> Allowed(ops[i])
    ensures var (end, last) := Run(p, env, s, plain, ops);
            Tracks(p, env, s, plain) && last.Some? ==> Unsafe(p, env, end) == Ok(last.value)
    decreases |ops|
  {
    hide Holds, Unsafe, After, Expected;
    if ops == [] {
      if plain.Some? { HoldsReads(p, env, s, plain.value); }
    } else {
      StepHolds(p, env, s, plain, ops[0]);
      RunHolds(p, env, After(p, env, s, ops[0]), Expected(p, env, s, plain, ops[0]), ops[1..]);
    }
  }

  /** The last value set, or the one at the start. */
  function LastSet(plain: Bytes, ops: seq<Op>): Bytes
    decreases |ops|
  {
    if ops == [] then plain else LastSet(if ops[0].SetValue? then ops[0].v else plain, ops[1..])
  }

  lemma {:induction false} RunExpectsLastSet(p: Primitives, env: Bytes, s: State, plain: Bytes, ops: seq<Op>)
    requires Lawful(p) && forall i :: 0 <= i < |ops| ==> Allowed(ops[i]) && ops[i].random.Some?
    ensures Run(p, env, s, Some(plain), ops).1 == Some(LastSet(plain, ops))
    decreases |ops|
  {
    hide Decrypted, After;
    if ops != [] {
      var next := if ops[0].SetValue? then ops[0].v else plain;
      assert Expected(p, env, s, Some(plain), ops[0]) == Some(next);
      RunExpectsLastSet(p, env, After(p, env, s, ops[0]), next, ops[1..]);
    }
  }

  /** Over every run of a zero value or of NewEncryptedString with a secret, for every environment secret
      and every number of re-keyings, UnsafeString returns the plaintext that the string should stand
      for; with a working random source that is the one that was set last. */
  lemma PlaintextSurvives(p: Primitives, env: Bytes, plain: Bytes, secret: Bytes, random: Option<Bytes>, ops: seq<Op>)
    requires Lawful(p) && RandomFits(random) && !IsSealed(plain) && secret != []
    requires forall i :: 0 <= i < |ops| ==> Allowed(ops[i])
    ensures var (end, last) := Run(p, env, State([], []), Some([]), ops);
            && (last.Some? ==> Unsafe(p, env, end) == Ok(last.value))
            && ((forall i :: 0 <= i < |ops| ==> ops[i].random.Some?) ==> last == Some(LastSet([], ops)))
    ensures var (end, last) := Run(p, env, Created(p, plain, secret, random), Some(plain), ops);
            && (last.Some? ==> Unsafe(p, env, end) == Ok(last.value))
            && ((forall i :: 0 <= i < |ops| ==> ops[i].random.Some?) ==> last == Some(LastSet(plain, ops)))
  {
    hide Seal, Unsafe, Run, Decrypted;
    var zero, made := State([], []), Created(p, plain, secret, random);
    SealHolds(p, plain, secret, random);
    RunHolds(p, env, zero, Some([]), ops);
    RunHolds(p, env, made, Some(plain), ops);
    if forall i :: 0 <= i < |ops| ==> ops[i].random.Some? {
      RunExpectsLastSet(p, env, zero, [], ops);
      RunExpectsLastSet(p, env, made, plain, ops);
    }
  }

  // ----- what is stored

  /** Nothing, an envelope, or a text for which there is no secret. */
  predicate Closed(env: Bytes, s: State) {
    s.value == [] || IsSealed(s.value) || SecretOf(s, env) == []
  }

  /** With random bytes a value is sealed under the secret that it will be read with: by SetValue, if there is
      a secret, its own or the environment's; by UpdateSecret under the new one; by String if it was open. */
  lemma StepSeals(p: Primitives, env: Bytes, s: State, op: Op)
    requires Lawful(p) && Allowed(op) && op.random.Some?
    ensures op.SetValue? && op.v != [] && SecretOf(s, env) != [] ==>
      var s' := After(p, env, s, op);
      && IsSealed(s'.value) && s'.secret == (if s.secret != [] then s.secret else env)
      && Decrypted(p, s'.value, s'.secret) == Ok(op.v)
    ensures op.SetValue? && (op.v == [] || SecretOf(s, env) == []) ==> After(p, env, s, op) == s.(value := op.v)
    ensures op.UpdateSecret? && Unsafe(p, env, s).Ok? ==>
      var s' := After(p, env, s, op);
      IsSealed(s'.value) && s'.secret == op.secret && Decrypted(p, s'.value, op.secret) == Unsafe(p, env, s)
    ensures op.UpdateSecret? && !Unsafe(p, env, s).Ok? ==> After(p, env, s, op) == s
    ensures op.Print? && Closed(env, s) ==> After(p, env, s, op) == s
    ensures op.Print? && !Closed(env, s) ==>
      var s' := After(p, env, s, op);
      IsSealed(s'.value) && s'.secret == s.secret && Decrypted(p, s'.value, s.secret) == Ok(s.value)
  {
    hide Decrypted, Encrypted;
    match op
    case SetValue(v, random) => SealHolds(p, v, SecretOf(s, env), random);
    case UpdateSecret(secret, random) =>
      if Unsafe(p, env, s).Ok? { SealHolds(p, Unsafe(p, env, s).value, secret, random); }
    case Print(random) => SealHolds(p, s.value, s.secret, random);
  }

  lemma StepCloses(p: Primitives, env: Bytes, s: State, op: Op)
    requires Lawful(p) && Allowed(op) && op.random.Some?
    ensures Closed(env, s) || op.Print? ==> Closed(env, After(p, env, s, op))
  {
    hide Decrypted, Unsafe, After;
    StepSeals(p, env, s, op);
  }

  /** Over every run with a working random source from a state without an open text beside a secret: there is
      none after any operation, and what String returns is empty or sealed where there is a secret. */
  lemma {:induction false} RunStaysClosed(p: Primitives, env: Bytes, s: State, plain: Option<Bytes>, ops: seq<Op>)
    requires Lawful(p) && forall i :: 0 <= i < |ops| ==> Allowed(ops[i]) && ops[i].random.Some?
    ensures Closed(env, s) ==> Closed(env, Run(p, env, s, plain, ops).0)
    decreases |ops|
  {
    hide Closed, After, Expected;
    if ops != [] {
      StepCloses(p, env, s, ops[0]);
      RunStaysClosed(p, env, After(p, env, s, ops[0]), Expected(p, env, s, plain, ops[0]), ops[1..]);
    }
  }

  /** A zero value and NewEncryptedString with a secret start so. */
  lemma StartsClosed(p: Primitives, env: Bytes, plain: Bytes, secret: Bytes, random: Bytes)
    requires Lawful(p) && |random| >= 16 && secret != []
    ensures Closed(env, State([], []))
    ensures var made := Created(p, plain, secret, Some(random));
            && IsSealed(made.value) && made.secret == secret
            && (IsSealed(plain) ==> made.value == plain)
            && (!IsSealed(plain) ==> Decrypted(p, made.value, secret) == Ok(plain))
  {
    hide Decrypted, Seal;
    SealHolds(p, plain, secret, Some(random));
  }

  // ----- where UpdateSecret loses the plaintext

  /** UpdateSecret without random bytes changes the secret alone. An open value is not affected; a sealed
      one will be decrypted under a secret that it was not encrypted with. */
  lemma RekeyWithoutRandom(p: Primitives, env: Bytes, s: State, secret: Bytes)
    requires Lawful(p) && secret != [] && Unsafe(p, env, s).Ok?
    ensures var s' := AfterUpdateSecret(p, env, s, secret, None);
            && s' == State(s.value, secret)
            && Unsafe(p, env, s') == if IsSealed(s.value) then Decrypted(p, s.value, secret) else Unsafe(p, env, s)
  {
    hide Decrypted, Encrypted;
    SealHolds(p, Unsafe(p, env, s).value, secret, None);
  }

  /** The cipher that the previous secret selects, and that the envelope names, does not take a key of the
      length of the other one. Three lengths go with AES. */
  predicate Incompatible(previous: Bytes, secret: Bytes) {
    if |previous| == 8 then |secret| != 8
    else if |previous| == 24 then |secret| != 24
    else |secret| == 8
  }

  lemma IncompatibleKeys(p: Primitives, previous: Bytes, secret: Bytes)
    requires Lawful(p)
    ensures Incompatible(previous, secret) <==> !KeyFits(FixedAlgo(previous, TRIPLE_DES), FixedKey(p, secret))
  {
    HashLength(p, secret);
    hide FixedKey, Lawful;
  }

  /** What is sealed under one secret, read under another: an error if they are incompatible, and otherwise
      some text of the same length, without an error. */
  lemma OtherSecret(p: Primitives, data: Bytes, previous: Bytes, secret: Bytes, random: Option<Bytes>)
    requires Lawful(p) && RandomFits(random) && random.Some?
    ensures Seal(p, data, previous, random).Ok?
    ensures var text := Decrypted(p, Seal(p, data, previous, random).value, secret);
            if Incompatible(previous, secret) then text == Error else text.Ok? && |text.value| == |data|
  {
    hide Decrypted, Encrypted, KeyFits, FixedAlgo, FixedKey, Incompatible, Lawful;
    SealHolds(p, data, previous, random);
    IncompatibleKeys(p, previous, secret);
    if Incompatible(previous, secret) {
      UnfitKeyCannotDecrypt(p, data, previous, DEFAULT_OPTIONS, random, secret);
    } else {
      FittingKeyDecrypts(p, data, previous, DEFAULT_OPTIONS, random, secret);
    }
  }

  /** A string sealed under the previous secret, after UpdateSecret without random bytes. */
  function Rekeyed(p: Primitives, env: Bytes, data: Bytes, previous: Bytes, secret: Bytes, random: Bytes): State
    requires Lawful(p) && |random| >= 16 && Seal(p, data, previous, Some(random)).Ok?
  {
    AfterUpdateSecret(p, env, State(Seal(p, data, previous, Some(random)).value, previous), secret, None)
  }

  /** Before the call the plaintext can be read; after it UnsafeString fails, or returns without an error some
      text of the length of the plaintext. */
  lemma RekeyWithoutRandomOutcome(
    p: Primitives, env: Bytes, data: Bytes, previous: Bytes, secret: Bytes, random: Bytes)
    requires Lawful(p) && |random| >= 16 && previous != [] && secret != []
    ensures Seal(p, data, previous, Some(random)).Ok?
    ensures Unsafe(p, env, State(Seal(p, data, previous, Some(random)).value, previous)) == Ok(data)
    ensures var text := Unsafe(p, env, Rekeyed(p, env, data, previous, secret, random));
            && (if Incompatible(previous, secret) then text == Error else text.Ok? && |text.value| == |data|)
            && text == Decrypted(p, Seal(p, data, previous, Some(random)).value, secret)
  {
    hide Decrypted, Seal, AfterUpdateSecret, Incompatible, Lawful;
    SealHolds(p, data, previous, Some(random));
    OtherSecret(p, data, previous, secret, Some(random));
    RekeyWithoutRandom(p, env, State(Seal(p, data, previous, Some(random)).value, previous), secret);
  }

  ghost predicate RekeyKeeps(p: Primitives, env: Bytes, data: Bytes, previous: Bytes, secret: Bytes, random: Bytes)
    requires Lawful(p) && |random| >= 16
  {
    && Seal(p, data, previous, Some(random)).Ok?
    && Unsafe(p, env, Rekeyed(p, env, data, previous, secret, random)) == Ok(data)
  }

  /** Over all ciphers: the plaintext survives a re-keying without random bytes if and only if the secret does
      not change, or the plaintext is empty and the secrets are compatible. */
  lemma RekeyWithoutRandomExactly(env: Bytes, data: Bytes, previous: Bytes, secret: Bytes, random: Bytes)
    requires |random| >= 16 && previous != [] && secret != []
    ensures (forall p | Lawful(p) :: RekeyKeeps(p, env, data, previous, secret, random)) <==>
            secret == previous || (data == [] && !Incompatible(previous, secret))
  {
    hide Decrypted, Encrypted, Incompatible, Lawful, Rekeyed, Unsafe;
    forall p | Lawful(p)
      ensures secret == previous || (data == [] && !Incompatible(previous, secret)) ==>
        RekeyKeeps(p, env, data, previous, secret, random)
      ensures Incompatible(previous, secret) ==> !RekeyKeeps(p, env, data, previous, secret, random)
    {
      RekeyWithoutRandomOutcome(p, env, data, previous, secret, random);
      SealHolds(p, data, previous, Some(random));
    }
    if secret != previous {
      if data != [] {
        var p := OtherKeyMisreads(data, previous, secret, random);
        RekeyWithoutRandomOutcome(p, env, data, previous, secret, random);
        assert !RekeyKeeps(p, env, data, previous, secret, random);
      } else if Incompatible(previous, secret) {
        var p := SomeCiphers();
        assert !RekeyKeeps(p, env, data, previous, secret, random);
      }
    }
  }

  lemma SomeCiphers() returns (p: Primitives)
    ensures Lawful(p)
  {
    p := OtherKeyMisreads([0], [0], [1], Repeat(0, 16));
  }

  // ----- where String() loses the plaintext

  /** An open value without a secret of its own, as Scan leaves it, while the environment has one. */
  predicate Exposed(env: Bytes, s: State) {
    s.value != [] && !IsSealed(s.value) && s.secret == [] && env != []
  }

  /** Outside that case, or without random bytes, String() does not change what the string stands for.
      In it, the plaintext can be read with the empty secret, which is not the one that UnsafeString will
      use: that fails with an environment secret of 8 bytes, and with any other returns without an error
      some text of the same length. */
  lemma StringKeepsPlaintext(p: Primitives, env: Bytes, s: State, random: Option<Bytes>)
    requires Lawful(p) && RandomFits(random)
    ensures !(Exposed(env, s) && random.Some?) ==>
      Unsafe(p, env, AfterString(p, env, s, random)) == Unsafe(p, env, s)
    ensures Exposed(env, s) && random.Some? ==>
      var s' := AfterString(p, env, s, random);
      var text := Unsafe(p, env, s');
      && Decrypted(p, s'.value, []) == Ok(s.value) == Unsafe(p, env, s)
      && if |env| == 8 then text == Error else text.Ok? && |text.value| == |s.value|
  {
    hide Decrypted, Seal;
    if s.value != [] && !IsSealed(s.value) && SecretOf(s, env) != [] {
      SealHolds(p, s.value, s.secret, random);
      if Exposed(env, s) && random.Some? { OtherSecret(p, s.value, [], env, random); }
    }
  }

  ghost predicate StringKeeps(p: Primitives, env: Bytes, s: State, random: Option<Bytes>)
    requires Lawful(p) && RandomFits(random)
  {
    Unsafe(p, env, AfterString(p, env, s, random)) == Unsafe(p, env, s)
  }

  /** Over all ciphers: String() keeps what UnsafeString returns if and only if it is not that case, whatever
      the environment secret is. */
  lemma StringKeepsExactly(env: Bytes, s: State, random: Option<Bytes>)
    requires RandomFits(random)
    ensures (forall p | Lawful(p) :: StringKeeps(p, env, s, random)) <==> !(Exposed(env, s) && random.Some?)
  {
    hide Decrypted, Encrypted, Lawful, Unsafe;
    if Exposed(env, s) && random.Some? {
      var p := OtherKeyMisreads(s.value, [], env, random.value);
      ExposedReads(p, env, s, random);
      assert !StringKeeps(p, env, s, random);
    } else {
      forall p | Lawful(p)
        ensures StringKeeps(p, env, s, random)
      {
        StringKeepsPlaintext(p, env, s, random);
      }
    }
  }

  lemma ExposedReads(p: Primitives, env: Bytes, s: State, random: Option<Bytes>)
    requires Lawful(p) && RandomFits(random) && random.Some? && Exposed(env, s)
    ensures Unsafe(p, env, s) == Ok(s.value)
    ensures Seal(p, s.value, [], random).Ok?
    ensures Unsafe(p, env, AfterString(p, env, s, random)) == Decrypted(p, Seal(p, s.value, [], random).value, env)
  {
    hide Decrypted, Seal;
    SealHolds(p, s.value, [], random);
  }

  // ----- the code

  class SafeString {
    var value: Bytes
    var secret: Bytes

    function Abstract(): State
      reads this
    {
      State(value, secret)
    }

    /** The zero value. */
    constructor ()
      ensures Abstract() == State([], [])
    {
      value, secret := [], [];
    }

    /** NewEncryptedString. */
    constructor New(p: Primitives, plain: Bytes, secret: Bytes, random: Option<Bytes>)
      requires Lawful(p) && RandomFits(random)
      ensures Abstract() == Created(p, plain, secret, random)
    {
      hide Encrypted;
      var safe := plain;
      if !IsSealed(plain) {
        if |secret| > 0 {
          var r := Encrypt(p, plain, secret, null, random);
          if r.Ok? {
            safe := r.value;
          }
        }
      }
      value := safe;
      this.secret := secret;
    }

    method GetSecret(env: Bytes) returns (r: Bytes)
      ensures r == SecretOf(Abstract(), env)
    {
      if secret != [] {
        return secret;
      }
      return env;
    }

    method UnsafeString(p: Primitives, env: Bytes) returns (r: Outcome<Bytes>)
      requires Lawful(p)
      ensures r == Unsafe(p, env, Abstract())
    {
      hide Decrypted;
      if value == [] {
        return Ok([]);
      }
      if IsSealed(value) {
        var s := GetSecret(env);
        if s != [] {
          r := Decrypt(p, value, s);
          return;
        }
      }
      return Ok(value);
    }

    method SetValue(p: Primitives, env: Bytes, v: Bytes, random: Option<Bytes>) returns (ok: bool)
      requires Lawful(p) && RandomFits(random)
      modifies this
      ensures Abstract() == AfterSetValue(p, env, old(Abstract()), v, random)
      ensures ok <==> random.Some? || IsSealed(v) || v == [] || old(SecretOf(Abstract(), env)) == []
    {
      hide Encrypted;
      if !IsSealed(v) {
        var s := GetSecret(env);
        if s != [] && v != [] {
          secret := s;
          var r := Encrypt(p, v, secret, null, random);
          SealHolds(p, v, s, random);
          value := if r.Ok? then r.value else [];
          return r.Ok?;
        }
      }
      value := v;
      return true;
    }

    /** Errors are swallowed; a panic of Decrypt is passed on. */
    method UpdateSecret(p: Primitives, env: Bytes, secret: Bytes, random: Option<Bytes>) returns (r: Outcome<()>)
      requires Lawful(p) && RandomFits(random)
      modifies this
      ensures Abstract() == AfterUpdateSecret(p, env, old(Abstract()), secret, random)
      ensures r == if old(Unsafe(p, env, Abstract())) == Panic then Panic else Ok(())
    {
      hide Encrypted, Unsafe;
      var plain := UnsafeString(p, env);
      if !plain.Ok? {
        return if plain.Panic? then Panic else Ok(());
      }
      if |secret| != 0 {
        var sealed := Encrypt(p, plain.value, secret, null, random);
        if sealed.Ok? {
          value := sealed.value;
        }
      }
      this.secret := secret;
      return Ok(());
    }

    method String(p: Primitives, env: Bytes, random: Option<Bytes>) returns (r: Bytes)
      requires Lawful(p) && RandomFits(random)
      modifies this
      ensures Abstract() == AfterString(p, env, old(Abstract()), random) && r == value
      ensures random.Some? ==> Closed(env, Abstract())
    {
      hide Encrypted;
      if value == [] {
        return [];
      }
      if !IsSealed(value) {
        var s := GetSecret(env);
        if s != [] {
          var sealed := Encrypt(p, value, secret, null, random);
          SealHolds(p, value, secret, random);
          if sealed.Ok? {
            value := sealed.value;
          }
        }
      }
      return value;
    }
  }
}
