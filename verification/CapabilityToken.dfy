/** Capability tokens: 98 bytes in which a user grants a friend the right to ask for its location. */
module CapabilityTokens {
  import opened ByteCodec
  import opened Packet
  import opened Signing
  import opened Wrappers

  const TOKEN_VERSION := 1
  const BODY_SIZE := 34
  const TOKEN_SIZE := 98

  datatype CapabilityToken = CapabilityToken(
    version: int,
    issuerPubkeyId: Bytes,
    granteePubkeyId: Bytes,
    issuedAt: int,
    expiresAt: int,
    scope: int,
    nonce: Bytes,
    signature: Bytes)

  /** The first eight bytes of the hash of a public key. */
  function PubkeyId(hash: Bytes -> Bytes, key: Bytes): Result<Bytes> {
    if |key| != 32 then Err(BadKeyLength) else Ok(Field(hash(key), 8))
  }

  function Body(t: CapabilityToken): (r: Result<Bytes>)
    ensures r.Ok? <==> 0 <= t.version <= 255 && 0 <= t.issuedAt <= 4_294_967_295
                       && 0 <= t.expiresAt <= 4_294_967_295 && 0 <= t.scope <= 255
    ensures r.Ok? ==> |r.value| == 34
  {
    if FitsU8(t.version) && FitsU32(t.issuedAt) && FitsU32(t.expiresAt) && FitsU8(t.scope) then
      Ok([t.version] + Field(t.issuerPubkeyId, 8) + Field(t.granteePubkeyId, 8) + U32(t.issuedAt)
         + U32(t.expiresAt) + [t.scope] + Field(t.nonce, 8))
    else
      Err(FieldOutOfRange)
  }

  function ParseToken(raw: Bytes): (r: Result<CapabilityToken>)
    ensures r.Ok? <==> |raw| == 98
  {
    if |raw| != TOKEN_SIZE then Err(BadTokenLength)
    else
      Ok(CapabilityToken(
        raw[0], raw[1..9], raw[9..17], ReadU32(raw[17..21]), ReadU32(raw[21..25]), raw[25],
        raw[26..34], raw[BODY_SIZE..]))
  }

  /** Two sets of flag bits share a bit: the bitwise and is not zero. */
  predicate Overlap(a: nat, b: nat) {
    a > 0 && b > 0 && ((a % 2 == 1 && b % 2 == 1) || Overlap(a / 2, b / 2))
  }

  function Issue(
    hash: Bytes -> Bytes, scheme: SignatureScheme, issuer: DeviceIdentity, grantee: Bytes, scope: int,
    issuedAt: int, expiryS: int, nonce: Bytes): Result<Bytes>
  {
    var issuerId :- PubkeyId(hash, issuer.publicKey);
    var granteeId :- PubkeyId(hash, grantee);
    var body :- Body(CapabilityToken(
      TOKEN_VERSION, issuerId, granteeId, issuedAt, issuedAt + expiryS, scope, nonce, []));
    Ok(body + scheme.sign(issuer.secret, body))
  }

  /** Whether the bytes are a currently valid grant. A key of the wrong length raises, and does so
      only once the checks before it have passed. */
  function Verify(
    hash: Bytes -> Bytes, verify: Verifier, raw: Bytes, target: Bytes, grantee: Bytes, now: int, scope: nat)
    : Result<bool>
  {
    var parsed := ParseToken(raw);
    if parsed.Err? then Ok(false)
    else
      var t := parsed.value;
      if t.version != TOKEN_VERSION then Ok(false)
      else
        var targetId :- PubkeyId(hash, target);
        if t.issuerPubkeyId != targetId then Ok(false)
        else
          var granteeId :- PubkeyId(hash, grantee);
          if t.granteePubkeyId != granteeId then Ok(false)
          else if !Overlap(t.scope, scope) then Ok(false)
          else if !(t.issuedAt <= now < t.expiresAt) then Ok(false)
          else var body :- Body(t); Ok(verify(target, body, t.signature))
  }

  function RevocationKey(t: CapabilityToken): (Bytes, Bytes, int, Bytes) {
    (t.issuerPubkeyId, t.granteePubkeyId, t.issuedAt, t.nonce)
  }

  // ----- the codec -----

  /** Parsing a body and a 64-byte signature recovers the token. */
  lemma ParseUndoesBody(t: CapabilityToken)
    requires Body(t).Ok? && |t.signature| == SIGNATURE_SIZE
    requires |t.issuerPubkeyId| == 8 && |t.granteePubkeyId| == 8 && |t.nonce| == 8
    ensures ParseToken(Body(t).value + t.signature) == Ok(t)
  {
    var raw := Body(t).value + t.signature;
    U32RoundTrip(t.issuedAt);
    U32RoundTrip(t.expiresAt);
    assert raw[1..9] == t.issuerPubkeyId;
    assert raw[9..17] == t.granteePubkeyId;
    assert raw[17..21] == U32(t.issuedAt);
    assert raw[21..25] == U32(t.expiresAt);
    assert raw[26..34] == t.nonce;
    assert raw[BODY_SIZE..] == t.signature;
  }

  /** Any 98 bytes parse, and the parsed token serialises to exactly those bytes. */
  lemma BodyUndoesParse(raw: Bytes)
    requires |raw| == TOKEN_SIZE
    ensures var t := ParseToken(raw).value;
            && Body(t) == Ok(raw[..BODY_SIZE]) && t.signature == raw[BODY_SIZE..]
            && Body(t).value + t.signature == raw
  {
    var t := ParseToken(raw).value;
    ReadU32RoundTrip(raw[17..21]);
    ReadU32RoundTrip(raw[21..25]);
    assert raw[..9] == [t.version] + raw[1..9];
    assert raw[..17] == raw[..9] + raw[9..17];
    assert raw[..21] == raw[..17] + raw[17..21];
    assert raw[..25] == raw[..21] + raw[21..25];
    assert raw[..26] == raw[..25] + [t.scope];
    assert raw[..BODY_SIZE] == raw[..26] + raw[26..34];
    assert raw == raw[..BODY_SIZE] + raw[BODY_SIZE..];
  }

  /** Where each field of a token is, the highest byte of a number first. */
  lemma TokenOnTheWire(raw: Bytes)
    requires |raw| == 98
    ensures var t := ParseToken(raw).value;
            && t.version == raw[0] && t.issuerPubkeyId == raw[1..9] && t.granteePubkeyId == raw[9..17]
            && t.issuedAt
               == 16_777_216 * raw[17] as int + 65_536 * raw[18] as int + 256 * raw[19] as int + raw[20] as int
            && t.expiresAt
               == 16_777_216 * raw[21] as int + 65_536 * raw[22] as int + 256 * raw[23] as int + raw[24] as int
            && t.scope == raw[25] && t.nonce == raw[26..34] && t.signature == raw[34..]
  {
    ReadU32Weights(raw[17..21]);
    ReadU32Weights(raw[21..25]);
  }

  /** A revocation key names exactly one grant among those with the same expiry and scope. */
  lemma RevocationKeyDetermines(raw1: Bytes, raw2: Bytes)
    requires |raw1| == TOKEN_SIZE && |raw2| == TOKEN_SIZE
    ensures var t1, t2 := ParseToken(raw1).value, ParseToken(raw2).value;
            RevocationKey(t1) == RevocationKey(t2) && t1.version == t2.version
            && t1.expiresAt == t2.expiresAt && t1.scope == t2.scope
            <==> raw1[..BODY_SIZE] == raw2[..BODY_SIZE]
  {
    BodyUndoesParse(raw1);
    BodyUndoesParse(raw2);
    var t1, t2 := ParseToken(raw1).value, ParseToken(raw2).value;
    if raw1[..BODY_SIZE] == raw2[..BODY_SIZE] {
      var b1, b2 := raw1[..BODY_SIZE], raw2[..BODY_SIZE];
      assert raw1[1..9] == b1[1..9] && raw2[1..9] == b2[1..9];
      assert raw1[9..17] == b1[9..17] && raw2[9..17] == b2[9..17];
      assert raw1[17..21] == b1[17..21] && raw2[17..21] == b2[17..21];
      assert raw1[21..25] == b1[21..25] && raw2[21..25] == b2[21..25];
      assert raw1[26..34] == b1[26..34] && raw2[26..34] == b2[26..34];
      assert raw1[0] == b1[0] && raw2[0] == b2[0] && raw1[25] == b1[25] && raw2[25] == b2[25];
    }
  }

  // ----- issued tokens -----

  /** When a token is issued at all. */
  lemma IssuesIff(
    hash: Bytes -> Bytes, scheme: SignatureScheme, issuer: DeviceIdentity, grantee: Bytes, scope: int,
    issuedAt: int, expiryS: int, nonce: Bytes)
    ensures Issue(hash, scheme, issuer, grantee, scope, issuedAt, expiryS, nonce).Ok? <==>
            && |issuer.publicKey| == 32 && |grantee| == 32 && 0 <= scope <= 255
            && 0 <= issuedAt <= 4_294_967_295 && 0 <= issuedAt + expiryS <= 4_294_967_295
  {
  }

  /** Whose body the bytes start with is the token they parse to. */
  lemma TokenOfBody(raw: Bytes, t: CapabilityToken)
    requires |raw| == TOKEN_SIZE && Body(t) == Ok(raw[..BODY_SIZE])
    requires |t.issuerPubkeyId| == 8 && |t.granteePubkeyId| == 8 && |t.nonce| == 8
    ensures ParseToken(raw) == Ok(t.(signature := raw[BODY_SIZE..]))
  {
    var signed := t.(signature := raw[BODY_SIZE..]);
    assert Body(signed) == Body(t);
    ParseUndoesBody(signed);
    assert raw == raw[..BODY_SIZE] + raw[BODY_SIZE..];
  }

  lemma BodyPadsNonce(t: CapabilityToken)
    ensures Body(t.(nonce := Field(t.nonce, 8))) == Body(t)
  {
  }

  /** An issued token is the body of the grant and its signature. */
  lemma IssuedBytes(
    hash: Bytes -> Bytes, scheme: SignatureScheme, issuer: DeviceIdentity, grantee: Bytes, scope: int,
    issuedAt: int, expiryS: int, nonce: Bytes) returns (t: CapabilityToken)
    requires Issue(hash, scheme, issuer, grantee, scope, issuedAt, expiryS, nonce).Ok?
    ensures PubkeyId(hash, issuer.publicKey).Ok? && PubkeyId(hash, grantee).Ok?
    ensures t == CapabilityToken(
                   TOKEN_VERSION, PubkeyId(hash, issuer.publicKey).value, PubkeyId(hash, grantee).value,
                   issuedAt, issuedAt + expiryS, scope, Field(nonce, 8), [])
    ensures Body(t).Ok?
    ensures Issue(hash, scheme, issuer, grantee, scope, issuedAt, expiryS, nonce)
            == Ok(Body(t).value + scheme.sign(issuer.secret, Body(t).value))
  {
    t := CapabilityToken(
      TOKEN_VERSION, PubkeyId(hash, issuer.publicKey).value, PubkeyId(hash, grantee).value,
      issuedAt, issuedAt + expiryS, scope, nonce, []);
    BodyPadsNonce(t);
    t := t.(nonce := Field(nonce, 8));
  }

  lemma SignedParses(t: CapabilityToken, signature: Bytes)
    requires Body(t).Ok? && |signature| == SIGNATURE_SIZE
    requires |t.issuerPubkeyId| == 8 && |t.granteePubkeyId| == 8 && |t.nonce| == 8
    ensures ParseToken(Body(t).value + signature) == Ok(t.(signature := signature))
  {
    var signed := t.(signature := signature);
    assert Body(signed) == Body(t);
    ParseUndoesBody(signed);
  }

  /** What an issued token says. */
  lemma IssuedParses(
    hash: Bytes -> Bytes, scheme: SignatureScheme, issuer: DeviceIdentity, grantee: Bytes, scope: int,
    issuedAt: int, expiryS: int, nonce: Bytes)
    requires SignsFor(scheme, issuer)
    requires Issue(hash, scheme, issuer, grantee, scope, issuedAt, expiryS, nonce).Ok?
    ensures ParseToken(Issue(hash, scheme, issuer, grantee, scope, issuedAt, expiryS, nonce).value) ==
            var t := CapabilityToken(
                       TOKEN_VERSION, PubkeyId(hash, issuer.publicKey).value, PubkeyId(hash, grantee).value,
                       issuedAt, issuedAt + expiryS, scope, Field(nonce, 8), []);
            Ok(t.(signature := scheme.sign(issuer.secret, Body(t).value)))
  {
    var t := IssuedBytes(hash, scheme, issuer, grantee, scope, issuedAt, expiryS, nonce);
    SignedParses(t, scheme.sign(issuer.secret, Body(t).value));
  }

  /** An issued token verifies for its grantee at exactly the times issued_at <= now < expires_at
      and for exactly the scopes that overlap its own. */
  lemma IssuedTokenVerifies(
    hash: Bytes -> Bytes, scheme: SignatureScheme, issuer: DeviceIdentity, grantee: Bytes, scope: int,
    issuedAt: int, expiryS: int, nonce: Bytes, now: int, asked: nat)
    requires SignsFor(scheme, issuer)
    requires Issue(hash, scheme, issuer, grantee, scope, issuedAt, expiryS, nonce).Ok?
    ensures var raw := Issue(hash, scheme, issuer, grantee, scope, issuedAt, expiryS, nonce).value;
            && |raw| == TOKEN_SIZE
            && Verify(hash, scheme.verify, raw, issuer.publicKey, grantee, now, asked)
               == Ok(issuedAt <= now < issuedAt + expiryS && Overlap(scope, asked))
  {
    IssuedParses(hash, scheme, issuer, grantee, scope, issuedAt, expiryS, nonce);
    var raw := Issue(hash, scheme, issuer, grantee, scope, issuedAt, expiryS, nonce).value;
    var t := ParseToken(raw).value;
    BodyUndoesParse(raw);
    assert Body(t.(signature := [])) == Body(t);
  }

  /** Two grants that differ in expiry or scope only share their revocation key: both are issued,
      both verify from the moment of issue on, and revoking one names the other as well. */
  lemma SharedRevocationKey(
    hash: Bytes -> Bytes, scheme: SignatureScheme, issuer: DeviceIdentity, grantee: Bytes, issuedAt: int, nonce: Bytes,
    scope1: int, expiry1: int, scope2: int, expiry2: int, asked: nat)
    requires SignsFor(scheme, issuer) && |grantee| == 32 && FitsU32(issuedAt)
    requires FitsU8(scope1) && FitsU8(scope2) && Overlap(scope1, asked) && Overlap(scope2, asked)
    requires expiry1 >= 1 && FitsU32(issuedAt + expiry1) && expiry2 >= 1 && FitsU32(issuedAt + expiry2)
    requires scope1 != scope2 || expiry1 != expiry2
    ensures var r1 := Issue(hash, scheme, issuer, grantee, scope1, issuedAt, expiry1, nonce);
            var r2 := Issue(hash, scheme, issuer, grantee, scope2, issuedAt, expiry2, nonce);
            && r1.Ok? && r2.Ok? && |r1.value| == |r2.value| == TOKEN_SIZE && r1.value != r2.value
            && RevocationKey(ParseToken(r1.value).value) == RevocationKey(ParseToken(r2.value).value)
            && Verify(hash, scheme.verify, r1.value, issuer.publicKey, grantee, issuedAt, asked) == Ok(true)
            && Verify(hash, scheme.verify, r2.value, issuer.publicKey, grantee, issuedAt, asked) == Ok(true)
  {
    IssuedTokenVerifies(hash, scheme, issuer, grantee, scope1, issuedAt, expiry1, nonce, issuedAt, asked);
    IssuedTokenVerifies(hash, scheme, issuer, grantee, scope2, issuedAt, expiry2, nonce, issuedAt, asked);
    IssuedParses(hash, scheme, issuer, grantee, scope1, issuedAt, expiry1, nonce);
    IssuedParses(hash, scheme, issuer, grantee, scope2, issuedAt, expiry2, nonce);
  }

  /** When asking about a token raises: exactly when it has the right size and version, and either
      the target's key has the wrong length, or the target is the issuer and the grantee's has. */
  lemma VerifyRaises(
    hash: Bytes -> Bytes, verify: Verifier, raw: Bytes, target: Bytes, grantee: Bytes, now: int, scope: nat)
    ensures Verify(hash, verify, raw, target, grantee, now, scope).Err? <==>
            && |raw| == 98 && raw[0] == 1
            && (|target| != 32 || (raw[1..9] == Field(hash(target), 8) && |grantee| != 32))
  {
    if |raw| == TOKEN_SIZE {
      BodyUndoesParse(raw);
    }
  }

  /** Scopes overlap reflexively and symmetrically, and location, flag 1, overlaps exactly the odd scopes. */
  lemma {:induction false} OverlapLaws(a: nat, b: nat)
    ensures Overlap(a, b) <==> Overlap(b, a)
    ensures a > 0 ==> Overlap(a, a)
    ensures Overlap(a, 1) <==> a % 2 == 1
  {
    if a > 0 && b > 0 {
      OverlapLaws(a / 2, b / 2);
    } else if a > 0 {
      OverlapLaws(a / 2, b);
    }
  }

  /** The k-th lowest bit of n. */
  predicate HasFlag(n: nat, k: nat)
    decreases k
  {
    if k == 0 then n % 2 == 1 else HasFlag(n / 2, k - 1)
  }

  lemma {:induction false} NoFlags(k: nat)
    ensures !HasFlag(0, k)
  {
    if k > 0 {
      NoFlags(k - 1);
    }
  }

  predicate BothHave(a: nat, b: nat, k: nat) {
    HasFlag(a, k) && HasFlag(b, k)
  }

  lemma {:induction false} CommonFlagOverlaps(a: nat, b: nat, k: nat)
    requires BothHave(a, b, k)
    ensures Overlap(a, b)
    decreases k
  {
    NoFlags(k);
    if k > 0 {
      CommonFlagOverlaps(a / 2, b / 2, k - 1);
    }
  }

  lemma {:induction false} CommonFlag(a: nat, b: nat) returns (k: nat)
    requires Overlap(a, b)
    ensures BothHave(a, b, k)
  {
    if a % 2 == 1 && b % 2 == 1 {
      k := 0;
    } else {
      k := CommonFlag(a / 2, b / 2);
      k := k + 1;
    }
  }

  /** Two sets of flags overlap iff some flag is in both. */
  lemma OverlapIsSharedFlag(a: nat, b: nat)
    ensures Overlap(a, b) <==> exists k: nat :: BothHave(a, b, k)
  {
    if Overlap(a, b) {
      var k := CommonFlag(a, b);
    }
    if k: nat :| BothHave(a, b, k) {
      CommonFlagOverlaps(a, b, k);
    }
  }

  // ----- soundness -----

  /** Everything a device ever signs: packets it builds and tokens it issues. */
  datatype Signed =
    | SignedPacket(msgId: Bytes, ephemId: Bytes, timestamp: int, ttl: int, sprayL: int, zoneId: int, msgType: int,
                   payload: Bytes)
    | SignedToken(grantee: Bytes, scope: int, issuedAt: int, expiryS: int, nonce: Bytes)

  /** The bytes handed to the signing library for one of these, if it gets that far. */
  function SignedBytes(hash: Bytes -> Bytes, key: Bytes, s: Signed): Option<Bytes> {
    match s
    case SignedPacket(msgId, ephemId, timestamp, ttl, sprayL, zoneId, msgType, payload) =>
      var header := PackHeader(msgId, key, ephemId, timestamp, ttl, sprayL, zoneId, msgType, |payload|);
      if header.Ok? then Some(SignedRegion(header.value + payload, |payload|)) else None
    case SignedToken(grantee, scope, issuedAt, expiryS, nonce) =>
      if PubkeyId(hash, key).Err? || PubkeyId(hash, grantee).Err? then None
      else
        var body := Body(CapabilityToken(TOKEN_VERSION, PubkeyId(hash, key).value, PubkeyId(hash, grantee).value,
                                         issuedAt, issuedAt + expiryS, scope, nonce, []));
        if body.Ok? then Some(body.value) else None
  }

  /** The token presented is not a forgery: if its signature verifies under the key, the owner of
      the key signed these bytes. Nothing is said of signatures that nobody presents. */
  ghost predicate NotForged(hash: Bytes -> Bytes, verify: Verifier, key: Bytes, history: seq<Signed>, raw: Bytes) {
    |raw| == TOKEN_SIZE && verify(key, raw[..BODY_SIZE], raw[BODY_SIZE..]) ==>
      exists i :: 0 <= i < |history| && SignedBytes(hash, key, history[i]) == Some(raw[..BODY_SIZE])
  }

  /** A packet's signed region is never a token body. */
  lemma PacketsAreNotTokens(hash: Bytes -> Bytes, key: Bytes, s: Signed)
    requires s.SignedPacket? && SignedBytes(hash, key, s).Some?
    ensures |SignedBytes(hash, key, s).value| >= 73 > 34 == BODY_SIZE
  {
  }

  /** What a positive answer means, field by field. */
  lemma VerifyMeans(
    hash: Bytes -> Bytes, verify: Verifier, raw: Bytes, target: Bytes, grantee: Bytes, now: int, scope: nat)
    requires Verify(hash, verify, raw, target, grantee, now, scope) == Ok(true)
    ensures |raw| == TOKEN_SIZE
    ensures var t := ParseToken(raw).value;
            && PubkeyId(hash, target) == Ok(t.issuerPubkeyId) && PubkeyId(hash, grantee) == Ok(t.granteePubkeyId)
            && t.issuedAt <= now < t.expiresAt && Overlap(t.scope, scope)
            && verify(target, raw[..BODY_SIZE], raw[BODY_SIZE..])
  {
    BodyUndoesParse(raw);
  }

  /** The token a grant's body describes. */
  lemma GrantParses(hash: Bytes -> Bytes, target: Bytes, g: Signed, raw: Bytes)
    requires g.SignedToken? && |raw| == TOKEN_SIZE && SignedBytes(hash, target, g) == Some(raw[..BODY_SIZE])
    ensures PubkeyId(hash, target).Ok? && PubkeyId(hash, g.grantee).Ok?
    ensures ParseToken(raw) == Ok(CapabilityToken(
              TOKEN_VERSION, PubkeyId(hash, target).value, PubkeyId(hash, g.grantee).value,
              g.issuedAt, g.issuedAt + g.expiryS, g.scope, Field(g.nonce, 8), raw[BODY_SIZE..]))
    ensures FitsU8(g.scope)
  {
    var granted := CapabilityToken(TOKEN_VERSION, PubkeyId(hash, target).value, PubkeyId(hash, g.grantee).value,
                                   g.issuedAt, g.issuedAt + g.expiryS, g.scope, Field(g.nonce, 8), raw[BODY_SIZE..]);
    assert Body(granted) == Ok(raw[..BODY_SIZE]);
    TokenOfBody(raw, granted);
  }

  /** If a token verifies against a target, the target itself issued a token with exactly that
      body, to a grantee whose id is the given one's, with these times and nonce, and the question
      falls within its validity and scope, even though the same key also signs packets. */
  lemma VerifiedTokenWasIssued(
    hash: Bytes -> Bytes, verify: Verifier, raw: Bytes, target: Bytes, grantee: Bytes, now: int, scope: nat,
    history: seq<Signed>) returns (i: nat)
    requires NotForged(hash, verify, target, history, raw)
    requires Verify(hash, verify, raw, target, grantee, now, scope) == Ok(true)
    ensures i < |history| && history[i].SignedToken?
    ensures |raw| == TOKEN_SIZE && SignedBytes(hash, target, history[i]) == Some(raw[..BODY_SIZE])
    ensures var g := history[i];
            && PubkeyId(hash, g.grantee) == PubkeyId(hash, grantee)
            && g.issuedAt <= now < g.issuedAt + g.expiryS
            && FitsU8(g.scope) && Overlap(g.scope, scope)
            && RevocationKey(ParseToken(raw).value)
               == (PubkeyId(hash, target).value, PubkeyId(hash, grantee).value, g.issuedAt, Field(g.nonce, 8))
  {
    VerifyMeans(hash, verify, raw, target, grantee, now, scope);
    i :| 0 <= i < |history| && SignedBytes(hash, target, history[i]) == Some(raw[..BODY_SIZE]);
    if history[i].SignedPacket? {
      PacketsAreNotTokens(hash, target, history[i]);
    }
    GrantParses(hash, target, history[i], raw);
  }

  /** The grant has this body, and allows the grantee to ask for this scope now. */
  ghost predicate Allows(
    hash: Bytes -> Bytes, key: Bytes, g: Signed, body: Bytes, grantee: Bytes, now: int, scope: nat)
  {
    && g.SignedToken? && SignedBytes(hash, key, g) == Some(body)
    && PubkeyId(hash, g.grantee) == PubkeyId(hash, grantee)
    && g.issuedAt <= now < g.issuedAt + g.expiryS
    && g.scope >= 0 && Overlap(g.scope, scope)
  }

  /** A grant of the target's, presented with a verifying signature, is honoured. */
  lemma AllowedVerifies(
    hash: Bytes -> Bytes, verify: Verifier, target: Bytes, g: Signed, raw: Bytes, grantee: Bytes, now: int, scope: nat)
    requires |raw| == TOKEN_SIZE && verify(target, raw[..BODY_SIZE], raw[BODY_SIZE..]) && |grantee| == 32
    requires Allows(hash, target, g, raw[..BODY_SIZE], grantee, now, scope)
    ensures Verify(hash, verify, raw, target, grantee, now, scope) == Ok(true)
  {
    GrantParses(hash, target, g, raw);
    BodyUndoesParse(raw);
  }

  /** Token consent is sound and complete at once, for a target whose key pair signs as it should:
      a presented token that carries the target's signature verifies iff the target issued a grant
      with this very body that allows the grantee to ask for this scope now. */
  lemma ConsentIsExact(
    hash: Bytes -> Bytes, scheme: SignatureScheme, target: DeviceIdentity, history: seq<Signed>, raw: Bytes,
    grantee: Bytes, now: int, scope: nat)
    requires SignsFor(scheme, target) && |grantee| == 32
    requires NotForged(hash, scheme.verify, target.publicKey, history, raw)
    ensures Verify(hash, scheme.verify, raw, target.publicKey, grantee, now, scope) == Ok(true) <==>
            && |raw| == TOKEN_SIZE && scheme.verify(target.publicKey, raw[..BODY_SIZE], raw[BODY_SIZE..])
            && exists i :: 0 <= i < |history| &&
                           Allows(hash, target.publicKey, history[i], raw[..BODY_SIZE], grantee, now, scope)
    ensures |raw| == TOKEN_SIZE && raw[BODY_SIZE..] == scheme.sign(target.secret, raw[..BODY_SIZE]) ==>
            scheme.verify(target.publicKey, raw[..BODY_SIZE], raw[BODY_SIZE..])
  {
    var key := target.publicKey;
    if Verify(hash, scheme.verify, raw, key, grantee, now, scope) == Ok(true) {
      VerifyMeans(hash, scheme.verify, raw, key, grantee, now, scope);
      var i := VerifiedTokenWasIssued(hash, scheme.verify, raw, key, grantee, now, scope, history);
      assert Allows(hash, key, history[i], raw[..BODY_SIZE], grantee, now, scope);
    } else if |raw| == TOKEN_SIZE && scheme.verify(key, raw[..BODY_SIZE], raw[BODY_SIZE..]) {
      forall i | 0 <= i < |history| ensures !Allows(hash, key, history[i], raw[..BODY_SIZE], grantee, now, scope) {
        if Allows(hash, key, history[i], raw[..BODY_SIZE], grantee, now, scope) {
          AllowedVerifies(hash, scheme.verify, key, history[i], raw, grantee, now, scope);
        }
      }
    }
  }

  /** What Issue returns is the bytes recorded for the grant, signed; so a token issued by the
      owner of the key is never a forgery, and the theorem above speaks about it. */
  lemma IssuedIsNotForged(
    hash: Bytes -> Bytes, scheme: SignatureScheme, issuer: DeviceIdentity, grantee: Bytes, scope: int,
    issuedAt: int, expiryS: int, nonce: Bytes, history: seq<Signed>)
    requires SignsFor(scheme, issuer)
    requires SignedToken(grantee, scope, issuedAt, expiryS, nonce) in history
    ensures var issued := Issue(hash, scheme, issuer, grantee, scope, issuedAt, expiryS, nonce);
            var signed := SignedBytes(hash, issuer.publicKey, SignedToken(grantee, scope, issuedAt, expiryS, nonce));
            && (issued.Ok? <==> signed.Some?)
            && (issued.Ok? ==>
                  && issued.value == signed.value + scheme.sign(issuer.secret, signed.value)
                  && NotForged(hash, scheme.verify, issuer.publicKey, history, issued.value))
  {
    var g := SignedToken(grantee, scope, issuedAt, expiryS, nonce);
    var i :| 0 <= i < |history| && history[i] == g;
    var issued := Issue(hash, scheme, issuer, grantee, scope, issuedAt, expiryS, nonce);
    if issued.Ok? {
      assert SignedBytes(hash, issuer.publicKey, history[i]) == Some(issued.value[..BODY_SIZE]);
    }
  }
}
