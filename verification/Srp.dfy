/**
  Password login by SRP: the verifier, the challenge, the check of the client's proof, and the store of
  challenges. Hashes and the password hash are functions handed in; the theorems need only the algebra
  of powers modulo the prime, and hold for every modulus.
 */
module Srp {
  import Arithmetic

  datatype Option<T> = None | Some(value: T)

  // ------------------------------------------------------------------- powers

  function Pow(b: int, e: nat): int {
    if e == 0 then 1 else b * Pow(b, e - 1)
  }

  function ModPow(b: int, e: nat, p: nat): (r: nat)
    requires p > 0
    ensures r < p
  {
    Pow(b, e) % p
  }

  predicate Congruent(x: int, y: int, p: nat)
    requires p > 0
  {
    x % p == y % p
  }

  lemma RemainderIsCongruent(x: int, p: nat)
    requires p > 0
    ensures Congruent(x % p, x, p)
  {
    Arithmetic.Euclid(x, p);
    Arithmetic.DivideUnique(x % p, 0, x % p, p);
  }

  /** Congruent numbers differ by a multiple of the modulus. */
  lemma CongruentDiffer(x: int, y: int, p: nat) returns (k: int)
    requires p > 0 && Congruent(x, y, p)
    ensures x == y + k * p
  {
    Arithmetic.Euclid(x, p);
    Arithmetic.Euclid(y, p);
    k := x / p - y / p;
    Arithmetic.Distribute(x / p, y / p, p);
  }

  lemma MultiplesAreCongruent(x: int, y: int, k: int, p: nat)
    requires p > 0 && x == y + k * p
    ensures Congruent(x, y, p)
  {
    Arithmetic.AddMultiple(y, k, p);
  }

  lemma CongruentProduct(x: int, y: int, v: int, w: int, p: nat)
    requires p > 0 && Congruent(x, y, p) && Congruent(v, w, p)
    ensures Congruent(x * v, y * w, p)
  {
    var k := CongruentDiffer(x, y, p);
    var l := CongruentDiffer(v, w, p);
    assert x * v == y * w + (k * w + l * y + k * l * p) * p by {
      assert x * v == (y + k * p) * (w + l * p);
      assert (y + k * p) * (w + l * p) == y * w + y * (l * p) + (k * p) * w + (k * p) * (l * p);
      assert y * (l * p) == (l * y) * p;
      assert (k * p) * w == (k * w) * p;
      assert (k * p) * (l * p) == (k * l * p) * p;
    }
    MultiplesAreCongruent(x * v, y * w, k * w + l * y + k * l * p, p);
  }

  lemma CongruentDifference(x: int, y: int, v: int, p: nat)
    requires p > 0 && Congruent(x, y, p)
    ensures Congruent(x - v, y - v, p)
  {
    var k := CongruentDiffer(x, y, p);
    MultiplesAreCongruent(x - v, y - v, k, p);
  }

  lemma {:induction false} CongruentPower(x: int, y: int, e: nat, p: nat)
    requires p > 0 && Congruent(x, y, p)
    ensures Congruent(Pow(x, e), Pow(y, e), p)
  {
    if e > 0 {
      CongruentPower(x, y, e - 1, p);
      CongruentProduct(x, y, Pow(x, e - 1), Pow(y, e - 1), p);
    }
  }

  lemma {:induction false} PowerSum(b: int, e: nat, f: nat)
    ensures Pow(b, e + f) == Pow(b, e) * Pow(b, f)
  {
    if e == 0 {
    } else {
      PowerSum(b, e - 1, f);
      assert b * (Pow(b, e - 1) * Pow(b, f)) == (b * Pow(b, e - 1)) * Pow(b, f);
    }
  }

  lemma {:induction false} PowerProduct(b: int, e: nat, f: nat)
    ensures e * f >= 0 && Pow(b, e * f) == Pow(Pow(b, e), f)
  {
    if f == 0 {
      assert e * f == 0;
    } else {
      PowerProduct(b, e, f - 1);
      assert e * f == e + e * (f - 1);
      PowerSum(b, e, e * (f - 1));
    }
  }

  // ------------------------------------------------------------------ algebra

  /** The public key of the server. */
  function ServerPublic(k: nat, v: nat, g: nat, b: nat, p: nat): nat
    requires p > 0
  {
    (k * v + ModPow(g, b, p)) % p
  }

  /** The premaster secret as the server computes it. */
  function ServerSecret(A: nat, v: nat, u: nat, b: nat, p: nat): nat
    requires p > 0
  {
    ModPow(A * ModPow(v, u, p) % p, b, p)
  }

  /** The premaster secret as the client computes it, section 2.6 of RFC 5054. */
  function ClientSecret(B: nat, k: nat, x: nat, a: nat, u: nat, g: nat, p: nat): nat
    requires p > 0
  {
    ModPow((B - k * ModPow(g, x, p)) % p, a + u * x, p)
  }

  /** Both secrets are the same power of the generator. */
  lemma ServerPower(g: nat, x: nat, a: nat, b: nat, u: nat, p: nat)
    requires p > 0
    ensures u * x >= 0 && (a + u * x) * b >= 0
    ensures Congruent(ServerSecret(ModPow(g, a, p), ModPow(g, x, p), u, b, p), Pow(g, (a + u * x) * b), p)
  {
    var v, A := ModPow(g, x, p), ModPow(g, a, p);
    // v^u is g^(x u)
    RemainderIsCongruent(Pow(g, x), p);
    CongruentPower(v, Pow(g, x), u, p);
    PowerProduct(g, x, u);
    assert x * u == u * x;
    RemainderIsCongruent(Pow(v, u), p);
    assert Congruent(ModPow(v, u, p), Pow(g, u * x), p);
    // A v^u is g^(a + u x)
    RemainderIsCongruent(Pow(g, a), p);
    CongruentProduct(A, Pow(g, a), ModPow(v, u, p), Pow(g, u * x), p);
    PowerSum(g, a, u * x);
    var base := A * ModPow(v, u, p);
    RemainderIsCongruent(base, p);
    // its power
    CongruentPower(base % p, Pow(g, a + u * x), b, p);
    PowerProduct(g, a + u * x, b);
    RemainderIsCongruent(Pow(base % p, b), p);
  }

  lemma ClientPower(k: nat, g: nat, x: nat, a: nat, b: nat, u: nat, p: nat)
    requires p > 0
    ensures u * x >= 0 && b * (a + u * x) >= 0
    ensures var B := ServerPublic(k, ModPow(g, x, p), g, b, p);
            Congruent(ClientSecret(B, k, x, a, u, g, p), Pow(g, b * (a + u * x)), p)
  {
    var v := ModPow(g, x, p);
    var B, e := ServerPublic(k, v, g, b, p), a + u * x;
    // B - k v is g^b
    RemainderIsCongruent(k * v + ModPow(g, b, p), p);
    CongruentDifference(B, k * v + ModPow(g, b, p), k * v, p);
    RemainderIsCongruent(Pow(g, b), p);
    RemainderIsCongruent(B - k * v, p);
    // its power
    CongruentPower((B - k * v) % p, Pow(g, b), e, p);
    PowerProduct(g, b, e);
    RemainderIsCongruent(Pow((B - k * v) % p, e), p);
  }

  lemma SmallCongruent(x: nat, y: nat, p: nat)
    requires x < p && y < p && Congruent(x, y, p)
    ensures x == y
  {
    Arithmetic.DivideUnique(x, 0, x, p);
    Arithmetic.DivideUnique(y, 0, y, p);
  }

  /** Whatever the secrets and the scrambling, both sides compute the same premaster secret. */
  lemma SecretsAgree(k: nat, g: nat, x: nat, a: nat, b: nat, u: nat, p: nat)
    requires p > 0
    ensures var v := ModPow(g, x, p);
            ServerSecret(ModPow(g, a, p), v, u, b, p) == ClientSecret(ServerPublic(k, v, g, b, p), k, x, a, u, g, p)
  {
    ServerPower(g, x, a, b, u, p);
    ClientPower(k, g, x, a, b, u, p);
    assert (a + u * x) * b == b * (a + u * x);
    SmallCongruent(
      ServerSecret(ModPow(g, a, p), ModPow(g, x, p), u, b, p),
      ClientSecret(ServerPublic(k, ModPow(g, x, p), g, b, p), k, x, a, u, g, p), p);
  }

  // -------------------------------------------------------------------- bytes

  type Byte = x: int | 0 <= x < 256

  type Bytes = seq<Byte>

  /** The big-endian number of some bytes. */
  function FromBytes(bytes: Bytes): nat {
    if bytes == [] then 0 else FromBytes(bytes[..|bytes| - 1]) * 256 + bytes[|bytes| - 1]
  }

  /** The last `length` big-endian bytes of a number. */
  function ToBytes(value: nat, length: nat): (r: Bytes)
    ensures |r| == length
  {
    if length == 0 then [] else ToBytes(value / 256, length - 1) + [value % 256]
  }

  lemma SmallQuotient(value: nat, m: int)
    requires value < 256 * m
    ensures value / 256 < m
  {
  }

  lemma {:induction false} NumberSurvives(value: nat, length: nat)
    requires value < Pow(256, length)
    ensures FromBytes(ToBytes(value, length)) == value
  {
    if length > 0 {
      var bytes := ToBytes(value, length);
      assert bytes[..length - 1] == ToBytes(value / 256, length - 1);
      SmallQuotient(value, Pow(256, length - 1));
      hide Pow;
      NumberSurvives(value / 256, length - 1);
    }
  }

  lemma {:induction false} BytesSurvive(bytes: Bytes)
    ensures ToBytes(FromBytes(bytes), |bytes|) == bytes && FromBytes(bytes) < Pow(256, |bytes|)
  {
    if bytes != [] {
      var init, last := bytes[..|bytes| - 1], bytes[|bytes| - 1];
      BytesSurvive(init);
      var n := FromBytes(init);
      assert (n * 256 + last) / 256 == n && (n * 256 + last) % 256 == last;
      assert bytes == init + [last];
    }
  }

  // ------------------------------------------------------ challenge and check

  const LENGTH: nat := 256

  /** The hash, the exclusive or of two hashes, and the stretching of a password under a salt. */
  datatype Hashes = Hashes(sha256: Bytes -> Bytes, xor: (Bytes, Bytes) -> Bytes, pbkdf2: (Bytes, Bytes) -> Bytes)

  /** The prime and the generator with their encodings, and the multiplier hashed from them. */
  datatype Group = Group(p: nat, g: nat, k: nat, pBytes: Bytes, gBytes: Bytes)

  ghost predicate ValidGroup(group: Group) {
    group.p > 0 && |group.pBytes| == LENGTH && FromBytes(group.pBytes) == group.p
  }

  datatype Verifier = Verifier(v: Bytes, salt1: Bytes, salt2: Bytes)

  datatype Challenge = Challenge(srpId: int, b: nat, B: nat, verifier: Verifier)

  datatype Request = Request(srpId: int, A: Bytes, M1: Bytes)

  function SaltedHash(hashes: Hashes, data: Bytes, salt: Bytes): Bytes {
    hashes.sha256(salt + data + salt)
  }

  function ComputePasswordHash(hashes: Hashes, password: Bytes, salt1: Bytes, salt2: Bytes): nat {
    var ph1 := SaltedHash(hashes, SaltedHash(hashes, password, salt1), salt2);
    FromBytes(SaltedHash(hashes, hashes.pbkdf2(ph1, salt1), salt2))
  }

  /** The verifier of a password. */
  function GenerateSrpVerifier(hashes: Hashes, group: Group, password: Bytes, salt1: Bytes, salt2: Bytes): Verifier
    requires group.p > 0
  {
    var x := ComputePasswordHash(hashes, password, salt1, salt2);
    Verifier(ToBytes(ModPow(group.g, x, group.p), LENGTH), salt1, salt2)
  }

  function MakeChallenge(group: Group, srpId: int, b: nat, verifier: Verifier): Challenge
    requires group.p > 0
  {
    Challenge(srpId, b, ServerPublic(group.k, FromBytes(verifier.v), group.g, b, group.p), verifier)
  }

  /** The scrambling parameter. */
  function Scramble(hashes: Hashes, A: nat, B: nat): nat {
    FromBytes(hashes.sha256(ToBytes(A, LENGTH) + ToBytes(B, LENGTH)))
  }

  /** What a proof is the hash of. */
  function ProofInput(hashes: Hashes, group: Group, salt1: Bytes, salt2: Bytes, A: nat, B: nat, secret: nat): Bytes {
    hashes.xor(hashes.sha256(group.pBytes), hashes.sha256(group.gBytes)) +
    hashes.sha256(salt1) + hashes.sha256(salt2) +
    ToBytes(A, LENGTH) + ToBytes(B, LENGTH) + hashes.sha256(ToBytes(secret, LENGTH))
  }

  /** The proof of a premaster secret. */
  function Proof(hashes: Hashes, group: Group, salt1: Bytes, salt2: Bytes, A: nat, B: nat, secret: nat): Bytes {
    hashes.sha256(ProofInput(hashes, group, salt1, salt2, A, B, secret))
  }

  /** The premaster secret of a challenge for a public key of a client. */
  function SecretOf(hashes: Hashes, group: Group, challenge: Challenge, A: nat): nat
    requires group.p > 0
  {
    ServerSecret(A, FromBytes(challenge.verifier.v), Scramble(hashes, A, challenge.B), challenge.b, group.p)
  }

  /** Checks the proof of a client. */
  predicate VerifySrpChallenge(hashes: Hashes, group: Group, challenge: Challenge, request: Request)
    requires group.p > 0
  {
    if request.srpId != challenge.srpId then false
    else
      var A := FromBytes(request.A);
      if A <= 1 || A >= group.p then false
      else
        var secret := SecretOf(hashes, group, challenge, A);
        request.M1 == Proof(hashes, group, challenge.verifier.salt1, challenge.verifier.salt2, A, challenge.B, secret)
  }

  /**
    The password hash as a client of the protocol computes it: the hash of a hash salted on both sides with either
    salt, stretched under the first, and salted with the second.
   */
  function ClientPasswordHash(hashes: Hashes, password: Bytes, salt1: Bytes, salt2: Bytes): nat {
    var inner := hashes.sha256(salt1 + password + salt1);
    var stretched := hashes.pbkdf2(hashes.sha256(salt2 + inner + salt2), salt1);
    FromBytes(hashes.sha256(salt2 + stretched + salt2))
  }

  /**
    What a client that knows a password answers with the secret exponent `a`: its public key, and the hash of the
    two group parameters, the salts, the public keys and the session key, each in its place.
   */
  function HonestRequest(hashes: Hashes, group: Group, challenge: Challenge, password: Bytes, a: nat): Request
    requires group.p > 0
  {
    var salt1, salt2 := challenge.verifier.salt1, challenge.verifier.salt2;
    var x, A := ClientPasswordHash(hashes, password, salt1, salt2), ModPow(group.g, a, group.p);
    var gA, gB := ToBytes(A, 256), ToBytes(challenge.B, 256);
    var u := FromBytes(hashes.sha256(gA + gB));
    var sessionKey := hashes.sha256(ToBytes(ClientSecret(challenge.B, group.k, x, a, u, group.g, group.p), 256));
    var parameters := hashes.xor(hashes.sha256(group.pBytes), hashes.sha256(group.gBytes));
    Request(
      challenge.srpId, gA,
      hashes.sha256(parameters + hashes.sha256(salt1) + hashes.sha256(salt2) + gA + gB + sessionKey))
  }

  lemma Fits(group: Group, value: nat)
    requires ValidGroup(group) && value < group.p
    ensures FromBytes(ToBytes(value, LENGTH)) == value
  {
    BytesSurvive(group.pBytes);
    NumberSurvives(value, LENGTH);
  }

  /** Server and client compute the same from a password. */
  lemma PasswordHashesAgree(hashes: Hashes, password: Bytes, salt1: Bytes, salt2: Bytes)
    ensures ComputePasswordHash(hashes, password, salt1, salt2) == ClientPasswordHash(hashes, password, salt1, salt2)
  {
  }

  lemma HonestIsProof(hashes: Hashes, group: Group, challenge: Challenge, password: Bytes, a: nat)
    requires group.p > 0
    ensures var salt1, salt2 := challenge.verifier.salt1, challenge.verifier.salt2;
            var x, A := ClientPasswordHash(hashes, password, salt1, salt2), ModPow(group.g, a, group.p);
            var secret := ClientSecret(challenge.B, group.k, x, a, Scramble(hashes, A, challenge.B), group.g, group.p);
            HonestRequest(hashes, group, challenge, password, a) ==
            Request(challenge.srpId, ToBytes(A, LENGTH), Proof(hashes, group, salt1, salt2, A, challenge.B, secret))
  {
    hide ToBytes, FromBytes, ModPow, ClientSecret, ClientPasswordHash;
  }

  /** A client that knows the password is accepted exactly when its public key is more than 1. */
  lemma HonestClientIsAccepted(
      hashes: Hashes, group: Group, password: Bytes, salt1: Bytes, salt2: Bytes, srpId: int, b: nat, a: nat)
    requires ValidGroup(group)
    ensures var challenge := MakeChallenge(group, srpId, b, GenerateSrpVerifier(hashes, group, password, salt1, salt2));
            VerifySrpChallenge(hashes, group, challenge, HonestRequest(hashes, group, challenge, password, a)) <==>
              ModPow(group.g, a, group.p) > 1
  {
    hide ModPow, ServerPublic, ServerSecret, ClientSecret, Proof, Scramble, FromBytes, ToBytes;
    hide ComputePasswordHash, ClientPasswordHash, HonestRequest;
    var challenge := MakeChallenge(group, srpId, b, GenerateSrpVerifier(hashes, group, password, salt1, salt2));
    var x, A := ClientPasswordHash(hashes, password, salt1, salt2), ModPow(group.g, a, group.p);
    PasswordHashesAgree(hashes, password, salt1, salt2);
    HonestIsProof(hashes, group, challenge, password, a);
    Fits(group, ModPow(group.g, x, group.p));
    Fits(group, A);
    SecretsAgree(group.k, group.g, x, a, b, Scramble(hashes, A, challenge.B), group.p);
  }

  lemma SameSuffix(prefix: Bytes, s: Bytes, t: Bytes)
    requires prefix + s == prefix + t
    ensures s == t
  {
    assert s == (prefix + s)[|prefix|..];
    assert t == (prefix + t)[|prefix|..];
  }

  predicate Collide(hashes: Hashes, s: Bytes, t: Bytes) {
    s != t && hashes.sha256(s) == hashes.sha256(t)
  }

  /**
    The proof of a secret is accepted exactly if it names the challenge, the public key is in range and the secret
    is that of the server, or else the hash collides on the two secrets or on what the two proofs are hashes of.
   */
  lemma OnlyTheSecretIsAccepted(hashes: Hashes, group: Group, challenge: Challenge, srpId: int, A: Bytes, secret: nat)
    requires ValidGroup(group) && secret < group.p
    ensures var salt1, salt2, B := challenge.verifier.salt1, challenge.verifier.salt2, challenge.B;
            var right := SecretOf(hashes, group, challenge, FromBytes(A));
            var proof := Proof(hashes, group, salt1, salt2, FromBytes(A), B, secret);
            VerifySrpChallenge(hashes, group, challenge, Request(srpId, A, proof)) <==>
              srpId == challenge.srpId && 1 < FromBytes(A) < group.p &&
              (|| secret == right
               || Collide(hashes, ToBytes(secret, LENGTH), ToBytes(right, LENGTH))
               || Collide(hashes, ProofInput(hashes, group, salt1, salt2, FromBytes(A), B, secret),
                          ProofInput(hashes, group, salt1, salt2, FromBytes(A), B, right)))
  {
    hide ToBytes, FromBytes, SecretOf;
    var verifier, right := challenge.verifier, SecretOf(hashes, group, challenge, FromBytes(A));
    var prefix := hashes.xor(hashes.sha256(group.pBytes), hashes.sha256(group.gBytes)) +
      hashes.sha256(verifier.salt1) + hashes.sha256(verifier.salt2) +
      ToBytes(FromBytes(A), LENGTH) + ToBytes(challenge.B, LENGTH);
    assert right < group.p by {
      SecretIsSmall(hashes, group, challenge, FromBytes(A));
    }
    Fits(group, secret);
    Fits(group, right);
    if ProofInput(hashes, group, verifier.salt1, verifier.salt2, FromBytes(A), challenge.B, secret) ==
       ProofInput(hashes, group, verifier.salt1, verifier.salt2, FromBytes(A), challenge.B, right)
    {
      SameSuffix(prefix, hashes.sha256(ToBytes(secret, LENGTH)), hashes.sha256(ToBytes(right, LENGTH)));
    }
  }

  lemma SecretIsSmall(hashes: Hashes, group: Group, challenge: Challenge, A: nat)
    requires group.p > 0
    ensures SecretOf(hashes, group, challenge, A) < group.p
  {
  }

  // -------------------------------------------------------------------- store

  const CHALLENGE_TTL_MS: int := 5 * 60_000

  datatype Entry = Entry(challenge: Challenge, expiresAt: int)

  type Entries = map<string, Entry>

  datatype Event = Begin(authKeyId: string, challenge: Challenge, now: int) | Get(authKeyId: string, now: int) | Delete(authKeyId: string)

  function Pruned(entries: Entries, now: int): Entries {
    map key | key in entries && entries[key].expiresAt > now :: entries[key]
  }

  function Next(entries: Entries, event: Event): Entries {
    match event
    case Begin(authKeyId, challenge, now) => Pruned(entries, now)[authKeyId := Entry(challenge, now + CHALLENGE_TTL_MS)]
    case Get(_, now) => Pruned(entries, now)
    case Delete(authKeyId) => entries - {authKeyId}
  }

  function Found(entries: Entries, authKeyId: string, now: int): Option<Challenge> {
    var pruned := Pruned(entries, now);
    if authKeyId in pruned then Some(pruned[authKeyId].challenge) else None
  }

  ghost predicate Run(states: seq<Entries>, events: seq<Event>) {
    && |states| == |events| + 1 && states[0] == map[]
    && forall i :: 0 <= i < |events| ==> states[i + 1] == Next(states[i], events[i])
  }

  /** The clock does not run backwards. */
  ghost predicate Monotone(events: seq<Event>) {
    forall i, j :: 0 <= i < j < |events| && !events[i].Delete? && !events[j].Delete? ==> events[i].now <= events[j].now
  }

  predicate Touches(event: Event, authKeyId: string) {
    !event.Get? && event.authKeyId == authKeyId
  }

  lemma {:induction false} ChallengeStays(states: seq<Entries>, events: seq<Event>, i: nat, j: nat)
    requires Run(states, events) && i < j < |states| && events[i].Begin?
    requires forall m :: i < m < j ==> !Touches(events[m], events[i].authKeyId)
    ensures var key, entry := events[i].authKeyId, Entry(events[i].challenge, events[i].now + CHALLENGE_TTL_MS);
            && (key in states[j] ==> states[j][key] == entry)
            && ((forall m :: i < m < j && !events[m].Delete? ==> events[m].now < entry.expiresAt) ==> key in states[j])
  {
    assert states[j] == Next(states[j - 1], events[j - 1]);
    if i + 1 < j {
      ChallengeStays(states, events, i, j - 1);
    }
  }

  /**
    A challenge is found until it is replaced or deleted, for exactly five minutes; a failed check does
    not take it away, so that the client can try again with the same key of the server.
   */
  lemma ChallengeLivesFiveMinutes(states: seq<Entries>, events: seq<Event>, i: nat, j: nat)
    requires Run(states, events) && Monotone(events) && i < j < |events| && events[i].Begin? && events[j].Get?
    requires events[j].authKeyId == events[i].authKeyId
    requires forall m :: i < m < j ==> !Touches(events[m], events[i].authKeyId)
    ensures Found(states[j], events[j].authKeyId, events[j].now) ==
              if events[j].now < events[i].now + 300_000 then Some(events[i].challenge) else None
  {
    ChallengeStays(states, events, i, j);
  }

  class SrpChallengeStore {
    const group: Group
    var entries: Entries

    constructor (group: Group)
      ensures this.group == group && entries == map[]
    {
      this.group := group;
      entries := map[];
    }

    /** Drops what has expired, key by key. */
    method Prune(now: int)
      modifies this
      ensures entries == Pruned(old(entries), now)
    {
      var keys := entries.Keys;
      while keys != {}
        invariant keys <= old(entries).Keys
        invariant entries == map key | key in old(entries) && (key in keys || old(entries)[key].expiresAt > now) :: old(entries)[key]
        decreases |keys|
      {
        var key :| key in keys;
        if entries[key].expiresAt <= now {
          entries := entries - {key};
        }
        keys := keys - {key};
      }
    }

    /** Begins a challenge with fresh random values; it replaces the one before. */
    method BeginChallenge(authKeyId: string, verifier: Verifier, b: nat, srpId: int, now: int) returns (challenge: Challenge)
      requires group.p > 0
      modifies this
      ensures challenge == MakeChallenge(group, srpId, b, verifier)
      ensures entries == Next(old(entries), Begin(authKeyId, challenge, now))
    {
      Prune(now);
      challenge := MakeChallenge(group, srpId, b, verifier);
      entries := entries[authKeyId := Entry(challenge, now + CHALLENGE_TTL_MS)];
    }

    method GetChallenge(authKeyId: string, now: int) returns (challenge: Option<Challenge>)
      modifies this
      ensures challenge == Found(old(entries), authKeyId, now)
      ensures entries == Next(old(entries), Get(authKeyId, now))
    {
      Prune(now);
      return if authKeyId in entries then Some(entries[authKeyId].challenge) else None;
    }

    method DeleteChallenge(authKeyId: string)
      modifies this
      ensures entries == Next(old(entries), Delete(authKeyId))
    {
      entries := entries - {authKeyId};
    }
  }
}
