/** Setting, verifying and changing account passwords over a store of records (auth/passwords.go). */
module Passwords {
  import opened Strings
  import opened Varint
  import opened Auth

  type Account = nat

  type Password = seq<Byte>

  /** scrypt.Key: password, salt, N, r, p and key length; None when the parameters are rejected. */
  type KDF = (Password, seq<Byte>, Int, Int, Int, Int) -> Option<Slice>

  datatype Error = RandFailed | KdfFailed | StoreFailed | UnknownAccount | InvalidAccount | BadData | InvalidPassword | Panic

  /** One call's randomness and the store's mood: the salt, None when rand fails, and whether writing works. */
  datatype Chance = Chance(salt: Option<Slice>, writes: bool)

  /** The account store: accounts it knows, and the record text of those that have one. */
  datatype Accounts = Accounts(known: set<Account>, data: map<Account, string>)

  function HashPassword(kdf: KDF, c: Config, password: Password, salt: seq<Byte>): Option<Slice> {
    kdf(password, salt, c.N, c.R, c.P, c.HashLen)
  }

  /** Whatever the receiver's parameters, the check hashes with the default configuration. */
  function CheckPassword(kdf: KDF, password: Password, salt: seq<Byte>, hash: seq<Byte>): Option<Error> {
    var hash2 := HashPassword(kdf, DefaultConfig, password, salt);
    if hash2.None? then Some(KdfFailed) else if hash2.value != hash then Some(InvalidPassword) else None
  }

  function VerifyResult(kdf: KDF, s: Accounts, a: Account, password: Password): Option<Error> {
    if a !in s.known then Some(UnknownAccount)
    else if a !in s.data || s.data[a] == "" then Some(InvalidAccount)
    else match DecodedText(s.data[a])
      case BadBase64 => Some(BadData)
      case Raw(Panicked) => Some(Panic)
      case Raw(Returned(_, salt, hash, headerError)) =>
        if headerError then Some(BadData) else CheckPassword(kdf, password, salt, hash)
  }

  /** The store after Set, and its error. */
  function SetResult(kdf: KDF, c: Config, s: Accounts, a: Account, password: Password, ch: Chance): (Accounts, Option<Error>) {
    if ch.salt.None? then (s, Some(RandFailed))
    else
      var hash := HashPassword(kdf, c, password, ch.salt.value);
      if hash.None? then (s, Some(KdfFailed))
      else
        var text := EncodedText(c, ch.salt.value, hash.value);
        if text.None? then (s, Some(Panic))
        else if a !in s.known || !ch.writes then (s, Some(StoreFailed))
        else (s.(data := s.data[a := text.value]), None)
  }

  function ChangeResult(kdf: KDF, c: Config, s: Accounts, a: Account, current: Password, new_: Password, ch: Chance): (Accounts, Option<Error>) {
    var err := VerifyResult(kdf, s, a, current);
    if err.Some? then (s, err) else SetResult(kdf, c, s, a, new_, ch)
  }

  // ----- the objects -----

  class AccountStore {
    const known: set<Account>
    var data: map<Account, string>

    constructor (known: set<Account>)
      ensures Value() == Accounts(known, map[])
    {
      this.known, data := known, map[];
    }

    function Value(): Accounts
      reads this
    {
      Accounts(known, data)
    }

    method SetAccountPasswordData(a: Account, text: string, writes: bool) returns (ok: bool)
      modifies this
      ensures ok == (a in known && writes)
      ensures data == if ok then old(data)[a := text] else old(data)
    {
      ok := a in known && writes;
      if ok {
        data := data[a := text];
      }
    }

    /** An account without a record yields empty data, an unknown one an error. */
    method GetAccountPasswordData(a: Account) returns (text: Option<string>)
      ensures text == if a !in known then None else Some(if a in data then data[a] else "")
    {
      if a !in known {
        return None;
      }
      return Some(if a in data then data[a] else "");
    }
  }

  class Passwords {
    const config: Config
    const kdf: KDF
    const store: AccountStore

    constructor (config: Config, kdf: KDF, store: AccountStore)
      ensures this.config == config && this.kdf == kdf && this.store == store
    {
      this.config, this.kdf, this.store := config, kdf, store;
    }

    method Set(a: Account, password: Password, ch: Chance) returns (err: Option<Error>)
      modifies store
      ensures (store.Value(), err) == SetResult(kdf, config, old(store.Value()), a, password, ch)
    {
      if ch.salt.None? {
        return Some(RandFailed);
      }
      var hash := HashPassword(kdf, config, password, ch.salt.value);
      if hash.None? {
        return Some(KdfFailed);
      }
      var text := Encode(config, ch.salt.value, hash.value);
      if text.None? {
        return Some(Panic);
      }
      var ok := store.SetAccountPasswordData(a, text.value, ch.writes);
      return if ok then None else Some(StoreFailed);
    }

    method Verify(a: Account, password: Password) returns (err: Option<Error>)
      ensures err == VerifyResult(kdf, store.Value(), a, password)
    {
      var data := store.GetAccountPasswordData(a);
      if data.None? {
        return Some(UnknownAccount);
      }
      if |data.value| == 0 {
        return Some(InvalidAccount);
      }
      var r := Decode(data.value);
      if r.BadBase64? {
        return Some(BadData);
      }
      if r.raw.Panicked? {
        return Some(Panic);
      }
      if r.raw.headerError {
        return Some(BadData);
      }
      return CheckPassword(kdf, password, r.raw.salt, r.raw.hash);
    }

    method Change(a: Account, current: Password, new_: Password, ch: Chance) returns (err: Option<Error>)
      modifies store
      ensures (store.Value(), err) == ChangeResult(kdf, config, old(store.Value()), a, current, new_, ch)
    {
      err := Verify(a, current);
      if err.Some? {
        return;
      }
      err := Set(a, new_, ch);
    }
  }

  // ----- runs -----

  datatype Op =
    | DoSet(a: Account, password: Password, ch: Chance)
    | DoChange(a: Account, current: Password, password: Password, ch: Chance)

  function Do(kdf: KDF, c: Config, s: Accounts, op: Op): (Accounts, Option<Error>) {
    match op
    case DoSet(a, p, ch) => SetResult(kdf, c, s, a, p, ch)
    case DoChange(a, cur, p, ch) => ChangeResult(kdf, c, s, a, cur, p, ch)
  }

  function DoAll(kdf: KDF, c: Config, s: Accounts, ops: seq<Op>): Accounts {
    if ops == [] then s else Do(kdf, c, DoAll(kdf, c, s, ops[..|ops| - 1]), ops[|ops| - 1]).0
  }

  // ----- the reference: which password and salt each account was last set with -----

  datatype Secret = Secret(password: Password, salt: Slice)

  /** A configuration's key for a password and a salt. */
  function KeyOf(kdf: KDF, c: Config, x: Secret): Option<Slice> {
    kdf(x.password, x.salt, c.N, c.R, c.P, c.HashLen)
  }

  /** What Verify should answer: the key under the default parameters 32768, 8, 1 and 32 must be the one stored. */
  function Expected(kdf: KDF, c: Config, known: set<Account>, ref: map<Account, Secret>, a: Account, p: Password): Option<Error> {
    if a !in known then Some(UnknownAccount)
    else if a !in ref then Some(InvalidAccount)
    else
      var key := kdf(p, ref[a].salt, 32768, 8, 1, 32);
      if key.None? then Some(KdfFailed)
      else if key != KeyOf(kdf, c, ref[a]) then Some(InvalidPassword) else None
  }

  /** What Set should answer. */
  function ExpectedSet(kdf: KDF, c: Config, known: set<Account>, a: Account, p: Password, ch: Chance): Option<Error> {
    if ch.salt.None? then Some(RandFailed)
    else
      var key := kdf(p, ch.salt.value, c.N, c.R, c.P, c.HashLen);
      if key.None? then Some(KdfFailed)
      else if !HeaderFits(c, ch.salt.value, key.value) then Some(Panic)
      else if a !in known || !ch.writes then Some(StoreFailed) else None
  }

  /** What a call should answer: a Change first checks the current password, then sets the new one. */
  function ExpectedAnswer(kdf: KDF, c: Config, known: set<Account>, ref: map<Account, Secret>, op: Op): Option<Error> {
    if op.DoChange? && Expected(kdf, c, known, ref, op.a, op.current).Some? then
      Expected(kdf, c, known, ref, op.a, op.current)
    else
      ExpectedSet(kdf, c, known, op.a, op.password, op.ch)
  }

  /** The password and salt of each account's last successful Set or Change. */
  function LastSet(kdf: KDF, c: Config, known: set<Account>, ops: seq<Op>): map<Account, Secret> {
    if ops == [] then map[]
    else
      var earlier, last := LastSet(kdf, c, known, ops[..|ops| - 1]), ops[|ops| - 1];
      if ExpectedAnswer(kdf, c, known, earlier, last).Some? || last.ch.salt.None? then earlier
      else earlier[last.a := Secret(last.password, last.ch.salt.value)]
  }

  /** The record holds the derived key of the secret, under its salt. */
  predicate RecordOf(kdf: KDF, c: Config, text: string, secret: Secret) {
    var key := KeyOf(kdf, c, secret);
    key.Some? && EncodedText(c, secret.salt, key.value) == Some(text)
  }

  predicate InStep(kdf: KDF, c: Config, s: Accounts, ref: map<Account, Secret>) {
    s.data.Keys == ref.Keys && forall a :: a in ref ==> a in s.known && RecordOf(kdf, c, s.data[a], ref[a])
  }

  /** Verify answers as the reference has it. */
  lemma VerifyInStep(kdf: KDF, c: Config, s: Accounts, ref: map<Account, Secret>, a: Account, p: Password)
    requires InStep(kdf, c, s, ref)
    ensures VerifyResult(kdf, s, a, p) == Expected(kdf, c, s.known, ref, a, p)
  {
    hide EncodedText, DecodedText;
    if a in ref { CodecRoundTripUnbroken(c, ref[a].salt, KeyOf(kdf, c, ref[a]).value); }
  }

  lemma SetInStep(kdf: KDF, c: Config, s: Accounts, ref: map<Account, Secret>, a: Account, p: Password, ch: Chance)
    requires InStep(kdf, c, s, ref)
    ensures var (t, err) := SetResult(kdf, c, s, a, p, ch);
      && err == ExpectedSet(kdf, c, s.known, a, p, ch) && t.known == s.known
      && InStep(kdf, c, t, if err.Some? || ch.salt.None? then ref else ref[a := Secret(p, ch.salt.value)])
  {
    hide HeaderFits;
  }

  lemma StepInStep(kdf: KDF, c: Config, s: Accounts, ref: map<Account, Secret>, op: Op)
    requires InStep(kdf, c, s, ref)
    ensures var (t, err) := Do(kdf, c, s, op);
      && err == ExpectedAnswer(kdf, c, s.known, ref, op) && t.known == s.known
      && InStep(kdf, c, t, if err.Some? || op.ch.salt.None? then ref else ref[op.a := Secret(op.password, op.ch.salt.value)])
  {
    hide InStep, SetResult, VerifyResult, Expected, ExpectedSet;
    SetInStep(kdf, c, s, ref, op.a, op.password, op.ch);
    if op.DoChange? { VerifyInStep(kdf, c, s, ref, op.a, op.current); }
  }

  /** After any run, failures included, the records are exactly those of the passwords last set. */
  lemma {:induction false} RunInStep(kdf: KDF, c: Config, known: set<Account>, ops: seq<Op>)
    ensures InStep(kdf, c, DoAll(kdf, c, Accounts(known, map[]), ops), LastSet(kdf, c, known, ops))
    ensures DoAll(kdf, c, Accounts(known, map[]), ops).known == known
  {
    if ops != [] {
      hide InStep, Do, ExpectedAnswer;
      var init := ops[..|ops| - 1];
      RunInStep(kdf, c, known, init);
      StepInStep(kdf, c, DoAll(kdf, c, Accounts(known, map[]), init), LastSet(kdf, c, known, init), ops[|ops| - 1]);
    }
  }

  /** Every call of a run answers what the passwords last set before it demand. */
  lemma AnswersAfterRun(kdf: KDF, c: Config, known: set<Account>, ops: seq<Op>, op: Op)
    ensures Do(kdf, c, DoAll(kdf, c, Accounts(known, map[]), ops), op).1 ==
      ExpectedAnswer(kdf, c, known, LastSet(kdf, c, known, ops), op)
  {
    RunInStep(kdf, c, known, ops);
    StepInStep(kdf, c, DoAll(kdf, c, Accounts(known, map[]), ops), LastSet(kdf, c, known, ops), op);
  }

  /**
   * Password runs: after any run of Set and Change over any accounts, failures included, Verify of an
   * account and a password succeeds exactly when the account has been set and scrypt gives the password,
   * under the default parameters, the key that it gave the password last set under the configuration's.
   * An account that has been set is never reported invalid.
   */
  lemma VerifyAfterRun(kdf: KDF, c: Config, known: set<Account>, ops: seq<Op>, a: Account, p: Password)
    ensures var s, ref := DoAll(kdf, c, Accounts(known, map[]), ops), LastSet(kdf, c, known, ops);
      && VerifyResult(kdf, s, a, p) == Expected(kdf, c, known, ref, a, p)
      && (VerifyResult(kdf, s, a, p).None? <==>
            a in ref && var (q, salt) := (ref[a].password, ref[a].salt);
            kdf(p, salt, 32768, 8, 1, 32).Some? && kdf(p, salt, 32768, 8, 1, 32) == kdf(q, salt, c.N, c.R, c.P, c.HashLen))
      && (VerifyResult(kdf, s, a, p) == Some(InvalidAccount) <==> a in known && a !in ref)
  {
    RunInStep(kdf, c, known, ops);
    VerifyInStep(kdf, c, DoAll(kdf, c, Accounts(known, map[]), ops), LastSet(kdf, c, known, ops), a, p);
  }

  /** No two inputs have the same key. */
  ghost predicate Injective(kdf: KDF) {
    forall p, salt, n, r, q, l, p', salt', n', r', q', l' ::
      kdf(p, salt, n, r, q, l).Some? && kdf(p, salt, n, r, q, l) == kdf(p', salt', n', r', q', l') ==>
        p == p' && salt == salt' && n == n' && r == r' && q == q' && l == l'
  }

  /** The configuration derives keys as the default one does; salt lengths may differ. */
  predicate AgreesWithDefault(c: Config) {
    c.N == DefaultConfig.N && c.R == DefaultConfig.R && c.P == DefaultConfig.P && c.HashLen == DefaultConfig.HashLen
  }

  /**
   * With a configuration that agrees with the default one, the password last set verifies. Without
   * collisions nothing else ever does: no other password, and under another configuration none at all.
   */
  lemma AgreeingConfigVerifies(kdf: KDF, c: Config, known: set<Account>, ops: seq<Op>, a: Account, p: Password)
    ensures var s, ref := DoAll(kdf, c, Accounts(known, map[]), ops), LastSet(kdf, c, known, ops);
      && (a in ref && AgreesWithDefault(c) ==> VerifyResult(kdf, s, a, ref[a].password).None?)
      && (Injective(kdf) ==>
            (VerifyResult(kdf, s, a, p).None? <==> a in ref && AgreesWithDefault(c) && p == ref[a].password))
  {
    hide VerifyResult;
    RunInStep(kdf, c, known, ops);
    VerifyAfterRun(kdf, c, known, ops, a, p);
    var ref := LastSet(kdf, c, known, ops);
    if a in ref { VerifyAfterRun(kdf, c, known, ops, a, ref[a].password); }
  }

  /** Without collisions, records hold the same key exactly when password and salt are the same. */
  lemma SaltsSeparateRecords(kdf: KDF, c: Config, x: Secret, y: Secret, text: string, other: string)
    requires Injective(kdf) && RecordOf(kdf, c, text, x) && RecordOf(kdf, c, other, y)
    ensures DecodedText(text).Raw? && DecodedText(other).Raw?
    ensures var a, b := DecodedText(text).raw, DecodedText(other).raw;
      a.Returned? && b.Returned? && a.salt == x.salt && b.salt == y.salt && (a.hash == b.hash <==> x == y)
  {
    CodecRoundTripUnbroken(c, x.salt, KeyOf(kdf, c, x).value);
    CodecRoundTripUnbroken(c, y.salt, KeyOf(kdf, c, y).value);
  }

  /** scrypt returns keys of the length asked for. */
  predicate KeepsLength(kdf: KDF, c: Config, p: Password, salt: seq<Byte>) {
    HashPassword(kdf, c, p, salt).Some? ==> |HashPassword(kdf, c, p, salt).value| == c.HashLen
  }

  /**
   * The agreement is needed: with another hash length, no password ever verifies, not even the one that
   * was just set, since the check derives a key of the default length.
   */
  lemma OtherHashLengthNeverVerifies(kdf: KDF, c: Config, known: set<Account>, ops: seq<Op>, a: Account, p: Password)
    requires c.HashLen != DefaultConfig.HashLen
    requires var ref := LastSet(kdf, c, known, ops);
      a in ref ==> KeepsLength(kdf, DefaultConfig, p, ref[a].salt) && KeepsLength(kdf, c, ref[a].password, ref[a].salt)
    ensures VerifyResult(kdf, DoAll(kdf, c, Accounts(known, map[]), ops), a, p).Some?
  {
    VerifyAfterRun(kdf, c, known, ops, a, p);
  }

  // ----- exactly when a password that was set verifies -----

  ghost predicate KeepsLengths(kdf: KDF) {
    forall p, salt, n, r, q, l: Int :: kdf(p, salt, n, r, q, l).Some? ==> |kdf(p, salt, n, r, q, l).value| == l
  }

  /** Whatever scrypt, store, account and password: right after a successful Set, Verify succeeds. */
  ghost predicate VerifiesWhenSet(c: Config, salt: Slice) {
    forall kdf: KDF, s: Accounts, a: Account, p: Password ::
      var (t, err) := SetResult(kdf, c, s, a, p, Chance(Some(salt), true));
      KeepsLengths(kdf) && err.None? ==> VerifyResult(kdf, t, a, p).None?
  }

  function Key(l: Int, b: Byte): (key: Slice)
    requires 0 <= l
    ensures |key| == l && forall i :: 0 <= i < l ==> key[i] == b
  {
    seq(l, _ => b)
  }

  /** A key of the configured length can be had, and its record fits the buffer: otherwise no Set succeeds. */
  predicate Storable(c: Config, salt: Slice) {
    0 <= c.HashLen && HeaderFits(c, salt, Key(c.HashLen, 0))
  }

  lemma FitsByLength(c: Config, salt: Slice, hash: Slice, other: Slice)
    requires |hash| == |other|
    ensures HeaderFits(c, salt, hash) == HeaderFits(c, salt, other)
  {
    assert HeaderValues(c, salt, hash) == HeaderValues(c, salt, other);
  }

  lemma SetThenVerify(kdf: KDF, c: Config, s: Accounts, a: Account, p: Password, salt: Slice)
    ensures var (t, err) := SetResult(kdf, c, s, a, p, Chance(Some(salt), true));
      var hash := HashPassword(kdf, c, p, salt);
      err.None? ==> hash.Some? && HeaderFits(c, salt, hash.value) && VerifyResult(kdf, t, a, p) == CheckPassword(kdf, p, salt, hash.value)
    ensures var hash := HashPassword(kdf, c, p, salt);
      hash.Some? && HeaderFits(c, salt, hash.value) && a in s.known ==> SetResult(kdf, c, s, a, p, Chance(Some(salt), true)).1.None?
  {
    hide DecodedText, HeaderFits;
    var (t, err) := SetResult(kdf, c, s, a, p, Chance(Some(salt), true));
    if err.None? { CodecRoundTripUnbroken(c, salt, HashPassword(kdf, c, p, salt).value); }
  }

  /** A key derivation that tells the default parameters from all others. */
  function Telling(p: Password, salt: seq<Byte>, n: Int, r: Int, q: Int, l: Int): Option<Slice> {
    if l < 0 then None
    else Some(Key(l, if n == DefaultConfig.N && r == DefaultConfig.R && q == DefaultConfig.P then 0 else 1))
  }

  lemma TellingRejects(c: Config, p: Password, salt: Slice)
    requires 0 <= c.HashLen && !AgreesWithDefault(c)
    ensures KeepsLengths(Telling)
    ensures var hash := HashPassword(Telling, c, p, salt);
      hash.Some? && |hash.value| == c.HashLen && CheckPassword(Telling, p, salt, hash.value) == Some(InvalidPassword)
  {
    var hash, hash2 := HashPassword(Telling, c, p, salt).value, HashPassword(Telling, DefaultConfig, p, salt).value;
    assert hash2[0] == 0;
    if c.HashLen == DefaultConfig.HashLen { assert hash[0] == 1; }
  }

  /**
   * A password that was set verifies, whatever scrypt does beyond keeping lengths, exactly when the
   * configuration agrees with the default one in N, R, P and HashLen, or lets no Set succeed at all.
   */
  lemma VerifiesExactlyWhenAgreeing(c: Config, salt: Slice)
    ensures VerifiesWhenSet(c, salt) <==> AgreesWithDefault(c) || !Storable(c, salt)
  {
    hide SetResult, VerifyResult, HeaderFits;
    if AgreesWithDefault(c) || !Storable(c, salt) {
      forall kdf: KDF, s: Accounts, a: Account, p: Password | KeepsLengths(kdf)
        ensures var (t, err) := SetResult(kdf, c, s, a, p, Chance(Some(salt), true));
          err.None? ==> VerifyResult(kdf, t, a, p).None?
      {
        SetThenVerify(kdf, c, s, a, p, salt);
        var hash := HashPassword(kdf, c, p, salt);
        if hash.Some? { FitsByLength(c, salt, hash.value, Key(c.HashLen, 0)); }
      }
    } else {
      var s := Accounts({0}, map[]);
      TellingRejects(c, [], salt);
      SetThenVerify(Telling, c, s, 0, [], salt);
      FitsByLength(c, salt, HashPassword(Telling, c, [], salt).value, Key(c.HashLen, 0));
    }
  }

  /** A Change whose current password fails alters nothing, and no call touches another account. */
  lemma ChangeGuarded(kdf: KDF, c: Config, s: Accounts, op: Op, other: Account)
    ensures op.DoChange? && VerifyResult(kdf, s, op.a, op.current).Some? ==>
      Do(kdf, c, s, op) == (s, VerifyResult(kdf, s, op.a, op.current))
    ensures Do(kdf, c, s, op).1.Some? ==> Do(kdf, c, s, op).0 == s
    ensures other != op.a ==>
      var t := Do(kdf, c, s, op).0; (other in t.data <==> other in s.data) && (other in s.data ==> t.data[other] == s.data[other])
  {
  }

  /** With parameters and lengths below 2^35, Set never runs into the record buffer's end. */
  lemma SmallConfigNeverPanics(kdf: KDF, c: Config, s: Accounts, a: Account, p: Password, ch: Chance)
    requires 0 <= c.N < 0x8_0000_0000 && 0 <= c.R < 0x8_0000_0000 && 0 <= c.P < 0x8_0000_0000
    requires ch.salt.Some? ==> |ch.salt.value| < 0x8_0000_0000
    requires ch.salt.Some? && HashPassword(kdf, c, p, ch.salt.value).Some? ==>
      |HashPassword(kdf, c, p, ch.salt.value).value| < 0x8_0000_0000
    ensures SetResult(kdf, c, s, a, p, ch).1 != Some(Panic)
  {
    if ch.salt.Some? && HashPassword(kdf, c, p, ch.salt.value).Some? {
      SmallValuesFit(c, ch.salt.value, HashPassword(kdf, c, p, ch.salt.value).value);
    }
  }
}
