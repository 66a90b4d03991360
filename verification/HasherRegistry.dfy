/**
 * Which hasher verifies a stored hash, and when it is rewritten (hasher/registry/registry.go).
 */
module HasherRegistry {
  import opened Outcomes
  import opened Text
  import opened Decimal
  import Base64
  import opened PasswordHashes

  // ----- identifying a hash -----

  /** The position of the first `$` at or after `from`, or the length. */
  function NextDollar(s: string, from: nat): (i: nat)
    requires from <= |s|
    ensures from <= i <= |s| && (i < |s| ==> s[i] == '$') && forall j :: from <= j < i ==> s[j] != '$'
    decreases |s| - from
  {
    if from == |s| || s[from] == '$' then from else NextDollar(s, from + 1)
  }

  /** The text up to the end of its first field; all of it when there is no separator. */
  function HashFormatPrefix(hash: string): string {
    if hash == "" then ""
    else
      var start := if hash[0] == '$' then 1 else 0;
      var next := NextDollar(hash, start);
      if next == |hash| then hash else hash[..next + 1]
  }

  /** Everything before the last two fields: algorithm and parameters, without salt and digest. */
  function HashParameterFingerprint(hash: string): string {
    var parts := Split(hash, '$');
    if |parts| < 4 then "" else Join(parts[..|parts| - 2], "$")
  }

  const ARGON2ID := "$argon2id$"
  const BCRYPT_PREFIXES := ["$2a$", "$2b$", "$2x$", "$2y$"]

  predicate IsBcryptFormat(hash: string) {
    exists i :: 0 <= i < |BCRYPT_PREFIXES| && BCRYPT_PREFIXES[i] <= hash
  }

  /** bcrypt.Cost, which belongs to another package: the cost a stored hash carries, if it can be read. */
  type CostReader = string -> Option<int>

  // ----- the registry -----

  /**
   * A hasher by number: the input limit it declares, the hash it made of the probe, if it could, and
   * whether it verified it.
   */
  datatype Hasher = Hasher(number: nat, limit: Option<int>, probe: Option<string>, verifiesOwn: bool)

  datatype Registry = Registry(
    current: Hasher, forVerify: map<string, nat>, currentPrefix: string, currentParameters: string,
    probe: string, currentIsBcrypt: bool, currentCost: int)

  datatype Problem = NilHasher | NegativeLimit | HashFailed | CannotVerifyOwn | NoPrefix | NoCost | NoBcryptLegacy

  /** Argon2id's built-in verifier. */
  const BUILT_IN: nat := 0

  predicate Identifies(probe: string) { HashFormatPrefix(probe) != "" && HashFormatPrefix(probe) != probe }

  predicate UsableCurrent(current: Option<Hasher>) {
    && current.Some? && (current.value.limit.Some? ==> current.value.limit.value >= 0)
    && current.value.probe.Some? && current.value.verifiesOwn && Identifies(current.value.probe.value)
  }

  predicate UsableLegacy(h: Option<Hasher>) {
    h.Some? ==> h.value.probe.Some? && (IsBcryptFormat(h.value.probe.value) || Identifies(h.value.probe.value))
  }

  predicate WritesBcrypt(h: Option<Hasher>) { h.Some? && h.value.probe.Some? && IsBcryptFormat(h.value.probe.value) }

  /** When construction succeeds: a bcrypt current with a readable cost, or any other with usable legacies of which one is bcrypt. */
  predicate Constructible(current: Option<Hasher>, legacy: seq<Option<Hasher>>, cost: CostReader) {
    && UsableCurrent(current)
    && if IsBcryptFormat(HashFormatPrefix(current.value.probe.value)) then cost(current.value.probe.value).Some?
       else
         && (forall i :: 0 <= i < |legacy| ==> UsableLegacy(legacy[i]))
         && (exists i :: 0 <= i < |legacy| && WritesBcrypt(legacy[i]))
  }

  /** Registers a hasher under several prefixes, over those already taken or beside them. */
  function Registered(table: map<string, nat>, prefixes: seq<string>, number: nat, replace: bool): map<string, nat>
    decreases prefixes
  {
    if prefixes == [] then table
    else Registered(if replace || prefixes[0] !in table then table[prefixes[0] := number] else table, prefixes[1..], number, replace)
  }

  lemma {:induction false} RegisteredAt(table: map<string, nat>, prefixes: seq<string>, number: nat, replace: bool, p: string)
    ensures var later := Registered(table, prefixes, number, replace);
      && (p in later <==> p in table || p in prefixes)
      && (p in later ==> later[p] == if p in prefixes && (replace || p !in table) then number else table[p])
    decreases prefixes
  {
    if prefixes != [] {
      RegisteredAt(if replace || prefixes[0] !in table then table[prefixes[0] := number] else table, prefixes[1..], number, replace, p);
      assert prefixes == [prefixes[0]] + prefixes[1..];
    }
  }

  method Register(table: map<string, nat>, prefixes: seq<string>, number: nat, replace: bool) returns (result: map<string, nat>)
    ensures result == Registered(table, prefixes, number, replace)
  {
    result := table;
    for i := 0 to |prefixes|
      invariant Registered(result, prefixes[i..], number, replace) == Registered(table, prefixes, number, replace)
    {
      assert prefixes[i..][0] == prefixes[i] && prefixes[i..][1..] == prefixes[i + 1..];
      if replace || prefixes[i] !in result {
        result := result[prefixes[i] := number];
      }
    }
  }

  /** Legacy bcrypt takes the prefixes of its family that are free; any other legacy takes its own. */
  function WithLegacy(table: map<string, nat>, h: Option<Hasher>): map<string, nat>
    requires UsableLegacy(h)
  {
    if h.None? then table
    else if IsBcryptFormat(h.value.probe.value) then Registered(table, BCRYPT_PREFIXES, h.value.number, false)
    else table[HashFormatPrefix(h.value.probe.value) := h.value.number]
  }

  predicate AllUsable(legacy: seq<Option<Hasher>>) { forall i :: 0 <= i < |legacy| ==> UsableLegacy(legacy[i]) }

  function WithLegacies(table: map<string, nat>, legacy: seq<Option<Hasher>>): map<string, nat>
    requires AllUsable(legacy)
    decreases legacy
  {
    if legacy == [] then table
    else
      assert UsableLegacy(legacy[0]) && AllUsable(legacy[1..]);
      WithLegacies(WithLegacy(table, legacy[0]), legacy[1..])
  }

  const FIRST_TABLE: map<string, nat> := map[ARGON2ID := BUILT_IN]

  function Table(current: Hasher, legacy: seq<Option<Hasher>>, cost: CostReader): map<string, nat>
    requires Constructible(Some(current), legacy, cost)
  {
    var prefix := HashFormatPrefix(current.probe.value);
    if IsBcryptFormat(prefix) then Registered(FIRST_TABLE, BCRYPT_PREFIXES, current.number, true)
    else WithLegacies(FIRST_TABLE, legacy)[prefix := current.number]
  }

  function Built(current: Hasher, legacy: seq<Option<Hasher>>, cost: CostReader): Registry
    requires Constructible(Some(current), legacy, cost)
  {
    var probe := current.probe.value;
    var isBcrypt := IsBcryptFormat(HashFormatPrefix(probe));
    Registry(current, Table(current, legacy, cost), HashFormatPrefix(probe), HashParameterFingerprint(probe), probe,
             isBcrypt, if isBcrypt then cost(probe).value else 0)
  }

  lemma PrefixOfHash(hash: string)
    ensures HashFormatPrefix(hash) <= hash
  {}

  /** A table holds the first bcrypt prefix exactly when some legacy writes bcrypt. */
  lemma {:induction false} BcryptRegistered(table: map<string, nat>, legacy: seq<Option<Hasher>>)
    requires AllUsable(legacy)
    ensures BCRYPT_PREFIXES[0] in WithLegacies(table, legacy) <==>
      BCRYPT_PREFIXES[0] in table || exists i :: 0 <= i < |legacy| && WritesBcrypt(legacy[i])
    decreases legacy
  {
    if legacy != [] {
      var h := legacy[0];
      assert UsableLegacy(h) && AllUsable(legacy[1..]);
      BcryptRegistered(WithLegacy(table, h), legacy[1..]);
      OneLegacy(table, h);
      assert forall i :: 0 <= i < |legacy| - 1 ==> legacy[1..][i] == legacy[i + 1];
      if i :| 0 <= i < |legacy| && WritesBcrypt(legacy[i]) {
        assert i == 0 || WritesBcrypt(legacy[1..][i - 1]);
      }
    }
  }

  lemma OneLegacy(table: map<string, nat>, h: Option<Hasher>)
    requires UsableLegacy(h)
    ensures BCRYPT_PREFIXES[0] in WithLegacy(table, h) <==> BCRYPT_PREFIXES[0] in table || WritesBcrypt(h)
  {}

  method NewRegistry(current: Option<Hasher>, legacy: seq<Option<Hasher>>, cost: CostReader) returns (r: Result<Registry, Problem>)
    ensures r.Ok? <==> Constructible(current, legacy, cost)
    ensures r.Ok? ==> r.value == Built(current.value, legacy, cost)
  {
    if current.None? {
      return Err(NilHasher);
    }
    if current.value.limit.Some? && current.value.limit.value < 0 {
      return Err(NegativeLimit);
    }
    if current.value.probe.None? {
      return Err(HashFailed);
    }
    if !current.value.verifiesOwn {
      return Err(CannotVerifyOwn);
    }
    var probe := current.value.probe.value;
    var prefix := HashFormatPrefix(probe);
    if prefix == "" || prefix == probe {
      return Err(NoPrefix);
    }
    var registry := Registry(current.value, FIRST_TABLE, prefix, HashParameterFingerprint(probe), probe, false, 0);
    if IsBcryptFormat(prefix) {
      var currentCost := cost(probe);
      if currentCost.None? {
        return Err(NoCost);
      }
      var all := Register(FIRST_TABLE, BCRYPT_PREFIXES, current.value.number, true);
      return Ok(registry.(forVerify := all, currentIsBcrypt := true, currentCost := currentCost.value));
    }
    var table, problem := RegisterLegacies(legacy);
    if problem.Some? {
      return Err(problem.value);
    }
    BcryptRegistered(FIRST_TABLE, legacy);
    NotBcrypt();
    if BCRYPT_PREFIXES[0] !in table {
      return Err(NoBcryptLegacy);
    }
    return Ok(registry.(forVerify := table[prefix := current.value.number]));
  }

  lemma NotBcrypt()
    ensures BCRYPT_PREFIXES[0] !in FIRST_TABLE
  {}

  method RegisterLegacies(legacy: seq<Option<Hasher>>) returns (table: map<string, nat>, problem: Option<Problem>)
    ensures problem.None? <==> AllUsable(legacy)
    ensures problem.None? ==> table == WithLegacies(FIRST_TABLE, legacy)
  {
    table, problem := FIRST_TABLE, None;
    for i := 0 to |legacy|
      invariant AllUsable(legacy[..i])
      invariant AllUsable(legacy[i..]) ==> AllUsable(legacy) && WithLegacies(table, legacy[i..]) == WithLegacies(FIRST_TABLE, legacy)
    {
      assert legacy[i..][0] == legacy[i] && legacy[i..][1..] == legacy[i + 1..];
      assert legacy[..i + 1] == legacy[..i] + [legacy[i]];
      var h := legacy[i];
      if h.Some? {
        if h.value.probe.None? {
          assert !UsableLegacy(legacy[i]);
          return table, Some(HashFailed);
        }
        var probe := h.value.probe.value;
        if IsBcryptFormat(probe) {
          table := Register(table, BCRYPT_PREFIXES, h.value.number, false);
        } else {
          var prefix := HashFormatPrefix(probe);
          if prefix == "" || prefix == probe {
            assert !UsableLegacy(legacy[i]);
            return table, Some(NoPrefix);
          }
          table := table[prefix := h.value.number];
        }
      }
    }
    assert legacy[..|legacy|] == legacy;
  }

  // ----- dispatch -----

  /** A prefix in the bcrypt family is one of the four. */
  lemma BcryptPrefixExact(hash: string)
    requires IsBcryptFormat(HashFormatPrefix(hash))
    ensures HashFormatPrefix(hash) in BCRYPT_PREFIXES
  {
    var prefix := HashFormatPrefix(hash);
    var i :| 0 <= i < |BCRYPT_PREFIXES| && BCRYPT_PREFIXES[i] <= prefix;
    FourLetters(i);
    PrefixOfHash(hash);
    FirstFieldEnds(hash, 3);
    assert prefix == BCRYPT_PREFIXES[i];
  }

  lemma FourLetters(i: nat)
    requires i < |BCRYPT_PREFIXES|
    ensures |BCRYPT_PREFIXES[i]| == 4 && BCRYPT_PREFIXES[i][0] == '$' && BCRYPT_PREFIXES[i][3] == '$'
  {}

  /** The first separator past the start ends the prefix. */
  lemma FirstFieldEnds(hash: string, n: nat)
    requires 0 < n < |hash| && hash[n] == '$'
    ensures |HashFormatPrefix(hash)| <= n + 1
  {}

  /** All four, or none. */
  predicate BcryptWhole(table: map<string, nat>) {
    BCRYPT_PREFIXES[0] in table ==> forall i :: 0 <= i < |BCRYPT_PREFIXES| ==> BCRYPT_PREFIXES[i] in table
  }

  lemma LegacyKeepsWhole(table: map<string, nat>, h: Option<Hasher>)
    requires UsableLegacy(h) && BcryptWhole(table)
    ensures BcryptWhole(WithLegacy(table, h)) && table.Keys <= WithLegacy(table, h).Keys
  {}

  lemma {:induction false} LegaciesKeepWhole(table: map<string, nat>, legacy: seq<Option<Hasher>>)
    requires AllUsable(legacy) && BcryptWhole(table)
    ensures BcryptWhole(WithLegacies(table, legacy)) && table.Keys <= WithLegacies(table, legacy).Keys
    decreases legacy
  {
    if legacy != [] {
      assert UsableLegacy(legacy[0]) && AllUsable(legacy[1..]);
      LegacyKeepsWhole(table, legacy[0]);
      LegaciesKeepWhole(WithLegacy(table, legacy[0]), legacy[1..]);
    }
  }

  /** A built registry verifies what its current hasher writes with that hasher, and every bcrypt and Argon2id hash with some hasher. */
  lemma BuiltDispatches(current: Hasher, legacy: seq<Option<Hasher>>, cost: CostReader)
    requires Constructible(Some(current), legacy, cost)
    ensures var r := Built(current, legacy, cost);
      && r.currentPrefix in r.forVerify && r.forVerify[r.currentPrefix] == current.number
      && ARGON2ID in r.forVerify
      && (forall i :: 0 <= i < |BCRYPT_PREFIXES| ==> BCRYPT_PREFIXES[i] in r.forVerify)
  {
    var prefix := HashFormatPrefix(current.probe.value);
    NotBcrypt();
    if IsBcryptFormat(prefix) {
      BcryptPrefixExact(current.probe.value);
      forall p: string
        ensures var later := Registered(FIRST_TABLE, BCRYPT_PREFIXES, current.number, true);
          (p in later <==> p in FIRST_TABLE || p in BCRYPT_PREFIXES) && (p in BCRYPT_PREFIXES ==> later[p] == current.number)
      {
        RegisteredAt(FIRST_TABLE, BCRYPT_PREFIXES, current.number, true, p);
      }
    } else {
      BcryptRegistered(FIRST_TABLE, legacy);
      LegaciesKeepWhole(FIRST_TABLE, legacy);
    }
  }

  // ----- who verifies what -----

  /** The legacy writes hashes of that prefix, which is not one of bcrypt's. */
  predicate Writes(h: Option<Hasher>, prefix: string) {
    && h.Some? && h.value.probe.Some? && !IsBcryptFormat(h.value.probe.value)
    && HashFormatPrefix(h.value.probe.value) == prefix
  }

  predicate FirstBcrypt(legacy: seq<Option<Hasher>>, i: nat) {
    i < |legacy| && WritesBcrypt(legacy[i]) && forall j :: 0 <= j < i ==> !WritesBcrypt(legacy[j])
  }

  predicate LastWriter(legacy: seq<Option<Hasher>>, prefix: string, i: nat) {
    i < |legacy| && Writes(legacy[i], prefix) && forall j :: i < j < |legacy| ==> !Writes(legacy[j], prefix)
  }

  predicate NobodyWrites(legacy: seq<Option<Hasher>>, prefix: string) {
    forall i :: 0 <= i < |legacy| ==> !Writes(legacy[i], prefix)
  }

  lemma BcryptAreBcrypt(prefix: string)
    requires prefix in BCRYPT_PREFIXES
    ensures IsBcryptFormat(prefix)
  {
    var i :| 0 <= i < |BCRYPT_PREFIXES| && BCRYPT_PREFIXES[i] == prefix;
    assert BCRYPT_PREFIXES[i] <= prefix;
  }

  /** A stored hash of the bcrypt family has one of its four prefixes. */
  lemma BcryptHashPrefix(hash: string)
    requires IsBcryptFormat(hash)
    ensures IsBcryptFormat(HashFormatPrefix(hash)) && HashFormatPrefix(hash) in BCRYPT_PREFIXES
  {
    var i :| 0 <= i < |BCRYPT_PREFIXES| && BCRYPT_PREFIXES[i] <= hash;
    FourLetters(i);
    BcryptLetters(i);
    FirstFieldEnds(hash, 3);
    PrefixOfHash(hash);
    assert hash[..4] == BCRYPT_PREFIXES[i];
    assert HashFormatPrefix(hash) == BCRYPT_PREFIXES[i];
  }

  lemma BcryptExactly(hash: string)
    ensures IsBcryptFormat(hash) <==> HashFormatPrefix(hash) in BCRYPT_PREFIXES
  {
    PrefixOfHash(hash);
    if IsBcryptFormat(hash) {
      BcryptHashPrefix(hash);
    }
    if i :| 0 <= i < |BCRYPT_PREFIXES| && BCRYPT_PREFIXES[i] == HashFormatPrefix(hash) {
      assert BCRYPT_PREFIXES[i] <= hash;
    }
  }

  lemma BcryptLetters(i: nat)
    requires i < |BCRYPT_PREFIXES|
    ensures |BCRYPT_PREFIXES[i]| == 4 && BCRYPT_PREFIXES[i][1] != '$' && BCRYPT_PREFIXES[i][2] != '$'
  {}

  /** One legacy, seen at one prefix. */
  lemma WithLegacyAt(table: map<string, nat>, h: Option<Hasher>, p: string)
    requires UsableLegacy(h)
    ensures var later := WithLegacy(table, h);
      && (Writes(h, p) ==> p in later && later[p] == h.value.number)
      && (p in BCRYPT_PREFIXES && p !in table && WritesBcrypt(h) ==> p in later && later[p] == h.value.number)
      && (!Writes(h, p) && !(p in BCRYPT_PREFIXES && p !in table && WritesBcrypt(h)) ==>
            (p in later <==> p in table) && (p in table ==> later[p] == table[p]))
  {
    if WritesBcrypt(h) {
      RegisteredAt(table, BCRYPT_PREFIXES, h.value.number, false, p);
    }
  }

  lemma NeverBoth(h: Option<Hasher>, p: string)
    requires p in BCRYPT_PREFIXES
    ensures !Writes(h, p)
  {
    if h.Some? && h.value.probe.Some? {
      BcryptExactly(h.value.probe.value);
    }
  }

  /** The first legacy that writes bcrypt gets the free prefixes of its family. */
  lemma {:induction false} FirstBcryptAt(table: map<string, nat>, legacy: seq<Option<Hasher>>, i: nat, p: string)
    requires AllUsable(legacy) && p in BCRYPT_PREFIXES
    ensures var later := WithLegacies(table, legacy);
      && (p in table ==> p in later && later[p] == table[p])
      && (p !in table && FirstBcrypt(legacy, i) ==> p in later && later[p] == legacy[i].value.number)
    decreases legacy
  {
    if legacy != [] {
      assert UsableLegacy(legacy[0]) && AllUsable(legacy[1..]);
      NeverBoth(legacy[0], p);
      WithLegacyAt(table, legacy[0], p);
      if i > 0 && FirstBcrypt(legacy, i) {
        assert !WritesBcrypt(legacy[0]);
        assert FirstBcrypt(legacy[1..], i - 1);
      }
      FirstBcryptAt(WithLegacy(table, legacy[0]), legacy[1..], if i > 0 then i - 1 else 0, p);
    }
  }

  /** Of the legacies that write any other prefix the last one gets it. */
  lemma {:induction false} LastWriterAt(table: map<string, nat>, legacy: seq<Option<Hasher>>, i: nat, p: string)
    requires AllUsable(legacy) && p !in BCRYPT_PREFIXES
    ensures var later := WithLegacies(table, legacy);
      && (LastWriter(legacy, p, i) ==> p in later && later[p] == legacy[i].value.number)
      && (NobodyWrites(legacy, p) ==> (p in later <==> p in table) && (p in table ==> later[p] == table[p]))
    decreases legacy
  {
    if legacy != [] {
      assert UsableLegacy(legacy[0]) && AllUsable(legacy[1..]);
      WithLegacyAt(table, legacy[0], p);
      assert forall j :: 0 <= j < |legacy| - 1 ==> legacy[1..][j] == legacy[j + 1];
      if LastWriter(legacy, p, i) {
        if i == 0 {
          assert NobodyWrites(legacy[1..], p);
        } else {
          assert LastWriter(legacy[1..], p, i - 1);
        }
      }
      LastWriterAt(WithLegacy(table, legacy[0]), legacy[1..], if i > 0 then i - 1 else 0, p);
    }
  }

  /** Compare's dispatch: the hasher that a stored hash is given to. */
  function VerifierOf(r: Registry, stored: string): Option<nat> {
    if HashFormatPrefix(stored) in r.forVerify then Some(r.forVerify[HashFormatPrefix(stored)]) else None
  }

  /**
   * Under a current hasher that is not bcrypt: a stored bcrypt hash goes to the first legacy that
   * writes bcrypt, one of the current format to the current hasher, one of any other format to the
   * last legacy that writes it, and Argon2id to the built-in verifier when nobody writes it.
   */
  lemma DispatchExactly(current: Hasher, legacy: seq<Option<Hasher>>, cost: CostReader, stored: string, i: nat)
    requires Constructible(Some(current), legacy, cost) && !IsBcryptFormat(HashFormatPrefix(current.probe.value))
    ensures var to := VerifierOf(Built(current, legacy, cost), stored);
      var prefix := HashFormatPrefix(stored);
      if IsBcryptFormat(stored) then FirstBcrypt(legacy, i) ==> to == Some(legacy[i].value.number)
      else if prefix == HashFormatPrefix(current.probe.value) then to == Some(current.number)
      else
        && (LastWriter(legacy, prefix, i) ==> to == Some(legacy[i].value.number))
        && (NobodyWrites(legacy, prefix) ==> to == if prefix == ARGON2ID then Some(BUILT_IN) else None)
  {
    var prefix := HashFormatPrefix(stored);
    NotBcrypt();
    BcryptExactly(stored);
    if IsBcryptFormat(stored) {
      BcryptAreBcrypt(prefix);
      NotFirst(prefix);
      FirstBcryptAt(FIRST_TABLE, legacy, i, prefix);
    } else {
      LastWriterAt(FIRST_TABLE, legacy, i, prefix);
    }
  }

  lemma NotFirst(prefix: string)
    requires prefix in BCRYPT_PREFIXES
    ensures prefix !in FIRST_TABLE
  {
    BcryptAreBcrypt(prefix);
    NotBcryptFormat();
  }

  /** Under a current bcrypt hasher it verifies its whole family, Argon2id is built in, and nothing else has a verifier. */
  lemma BcryptDispatch(current: Hasher, legacy: seq<Option<Hasher>>, cost: CostReader, stored: string)
    requires Constructible(Some(current), legacy, cost) && IsBcryptFormat(HashFormatPrefix(current.probe.value))
    ensures VerifierOf(Built(current, legacy, cost), stored) ==
      if IsBcryptFormat(stored) then Some(current.number)
      else if HashFormatPrefix(stored) == ARGON2ID then Some(BUILT_IN)
      else None
  {
    var prefix := HashFormatPrefix(stored);
    RegisteredAt(FIRST_TABLE, BCRYPT_PREFIXES, current.number, true, prefix);
    BcryptExactly(stored);
    assert ARGON2ID !in BCRYPT_PREFIXES by {
      if ARGON2ID in BCRYPT_PREFIXES {
        BcryptAreBcrypt(ARGON2ID);
        NotBcryptFormat();
      }
    }
  }

  // ----- rewriting -----

  function NeedsRehash(r: Registry, stored: string, cost: CostReader): bool {
    var storedPrefix := HashFormatPrefix(stored);
    if storedPrefix !in r.forVerify then true
    else if storedPrefix != r.currentPrefix && (!r.currentIsBcrypt || !IsBcryptFormat(stored)) then true
    else if !r.currentIsBcrypt then r.currentParameters != "" && HashParameterFingerprint(stored) != r.currentParameters
    else cost(stored) != Some(r.currentCost)
  }

  lemma EncodedPrefix(o: Options, salt: seq<Base64.Byte>, key: seq<Base64.Byte>)
    ensures HashFormatPrefix(Encode(o, salt, key)) == ARGON2ID && Encode(o, salt, key) != ARGON2ID
  {
    var hash := Encode(o, salt, key);
    EncodedStart(o, salt, key);
    DollarAtNine(hash);
  }

  lemma EncodedStart(o: Options, salt: seq<Base64.Byte>, key: seq<Base64.Byte>)
    ensures ARGON2ID <= Encode(o, salt, key) && |Encode(o, salt, key)| > |ARGON2ID|
  {}

  lemma DollarAtNine(hash: string)
    requires ARGON2ID <= hash && |hash| > |ARGON2ID|
    ensures HashFormatPrefix(hash) == ARGON2ID
  {
    assert hash[0] == ARGON2ID[0] == '$' && hash[9] == ARGON2ID[9] == '$';
    assert forall j :: 1 <= j < 9 ==> hash[j] == ARGON2ID[j] && ARGON2ID[j] != '$';
    FirstFieldEnds(hash, 9);
  }

  /** The fingerprint of a printed hash is its version and parameter text. */
  lemma EncodedFingerprint(o: Options, salt: seq<Base64.Byte>, key: seq<Base64.Byte>)
    ensures HashParameterFingerprint(Encode(o, salt, key)) == Join(["", "argon2id", "v=" + Format(VERSION), Parameters(o)], "$")
  {
    EncodeSplits(o, salt, key);
    assert Fields(o, salt, key)[..4] == ["", "argon2id", "v=" + Format(VERSION), Parameters(o)];
  }

  predicate SameCost(a: Options, b: Options) {
    a.memory == b.memory && a.iterations == b.iterations && a.parallelism == b.parallelism
  }

  predicate InWidth(o: Options) { o.memory < 0x1_0000_0000 && o.iterations < 0x1_0000_0000 && o.parallelism < 256 }

  lemma FingerprintsTell(a: Options, b: Options)
    requires InWidth(a) && InWidth(b)
    requires Join(["", "argon2id", "v=" + Format(VERSION), Parameters(a)], "$") == Join(["", "argon2id", "v=" + Format(VERSION), Parameters(b)], "$")
    ensures SameCost(a, b)
  {
    HeadFree(a);
    HeadFree(b);
    SplitJoin(["", "argon2id", "v=" + Format(VERSION), Parameters(a)], '$');
    SplitJoin(["", "argon2id", "v=" + Format(VERSION), Parameters(b)], '$');
    assert Parameters(a) == Parameters(b);
    ParametersReadBack(a, 0, 0);
    ParametersReadBack(b, 0, 0);
  }

  lemma HeadFree(o: Options)
    ensures Free(["", "argon2id", "v=" + Format(VERSION), Parameters(o)], '$')
  {}

  lemma FingerprintNotEmpty(o: Options, salt: seq<Base64.Byte>, key: seq<Base64.Byte>)
    ensures HashParameterFingerprint(Encode(o, salt, key)) != ""
  {
    EncodedFingerprint(o, salt, key);
    JoinCons("", ["argon2id", "v=" + Format(VERSION), Parameters(o)], "$");
    assert [""] + ["argon2id", "v=" + Format(VERSION), Parameters(o)] == ["", "argon2id", "v=" + Format(VERSION), Parameters(o)];
  }

  /** The current hasher is Argon2id with these options: it made its probe with them. */
  predicate CurrentIsArgon2id(current: Hasher, o: Options, salt: seq<Base64.Byte>, key: seq<Base64.Byte>) {
    current.probe == Some(Encode(o, salt, key)) && InWidth(o)
  }

  /**
   * Under a current Argon2id hasher a stored Argon2id hash is rewritten exactly when its memory,
   * iterations or parallelism differ from the current ones, whatever its salt and key.
   */
  lemma RehashExactly(current: Hasher, o: Options, salt: seq<Base64.Byte>, key: seq<Base64.Byte>, legacy: seq<Option<Hasher>>, cost: CostReader,
                      stored: Options, storedSalt: seq<Base64.Byte>, storedKey: seq<Base64.Byte>)
    requires Constructible(Some(current), legacy, cost) && CurrentIsArgon2id(current, o, salt, key) && InWidth(stored)
    ensures NeedsRehash(Built(current, legacy, cost), Encode(stored, storedSalt, storedKey), cost) <==> !SameCost(o, stored)
  {
    EncodedPrefix(o, salt, key);
    EncodedPrefix(stored, storedSalt, storedKey);
    NotBcryptFormat();
    BuiltDispatches(current, legacy, cost);
    EncodedFingerprint(o, salt, key);
    EncodedFingerprint(stored, storedSalt, storedKey);
    FingerprintNotEmpty(o, salt, key);
    assert SameCost(o, stored) ==> Parameters(o) == Parameters(stored);
    if HashParameterFingerprint(Encode(stored, storedSalt, storedKey)) == HashParameterFingerprint(Encode(o, salt, key)) {
      FingerprintsTell(stored, o);
    }
  }

  lemma NotBcryptFormat()
    ensures !IsBcryptFormat(ARGON2ID)
  {
    forall i | 0 <= i < |BCRYPT_PREFIXES|
      ensures !(BCRYPT_PREFIXES[i] <= ARGON2ID)
    {
      assert BCRYPT_PREFIXES[i][1] == '2' && ARGON2ID[1] == 'a';
    }
  }

  /** A hash the current hasher has just written never needs rewriting. */
  lemma FreshNeverRehashed(current: Hasher, o: Options, salt: seq<Base64.Byte>, key: seq<Base64.Byte>, legacy: seq<Option<Hasher>>, cost: CostReader,
                           newSalt: seq<Base64.Byte>, newKey: seq<Base64.Byte>)
    requires Constructible(Some(current), legacy, cost) && CurrentIsArgon2id(current, o, salt, key)
    ensures !NeedsRehash(Built(current, legacy, cost), Encode(o, newSalt, newKey), cost)
  {
    RehashExactly(current, o, salt, key, legacy, cost, o, newSalt, newKey);
  }

  /**
   * Under a current bcrypt hasher a stored hash is kept exactly when it is bcrypt of whichever
   * variant with a readable cost equal to the current one.
   */
  lemma BcryptRehashExactly(current: Hasher, legacy: seq<Option<Hasher>>, cost: CostReader, stored: string)
    requires Constructible(Some(current), legacy, cost) && IsBcryptFormat(HashFormatPrefix(current.probe.value))
    ensures NeedsRehash(Built(current, legacy, cost), stored, cost) <==>
      !(IsBcryptFormat(stored) && cost(stored).Some? && cost(stored) == cost(current.probe.value))
  {
    BcryptDispatch(current, legacy, cost, stored);
    BcryptDispatch(current, legacy, cost, current.probe.value);
    BcryptExactly(stored);
    BcryptExactly(current.probe.value);
    NotFirst(HashFormatPrefix(current.probe.value));
  }
}
