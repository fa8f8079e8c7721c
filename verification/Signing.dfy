/** Building signed packets and rewriting the two hop-mutable bytes of a relayed one. */
module Signing {
  import opened ByteCodec
  import opened Packet
  import opened SprayAndWait
  import opened Wrappers

  /** A signing library: sign with a secret, verify against a public key. */
  datatype SignatureScheme = SignatureScheme(
    sign: (Bytes, Bytes) -> Bytes,
    verify: Verifier)

  datatype DeviceIdentity = DeviceIdentity(publicKey: Bytes, secret: Bytes)

  /** What Ed25519 promises of one key pair: 64-byte signatures that verify. */
  ghost predicate SignsFor(scheme: SignatureScheme, id: DeviceIdentity) {
    && |id.publicKey| == 32
    && forall region :: |scheme.sign(id.secret, region)| == SIGNATURE_SIZE
                        && scheme.verify(id.publicKey, region, scheme.sign(id.secret, region))
  }

  /** The content address of a message, with the hash left abstract (its first 16 bytes are used). */
  function ComputeMsgId(hash: Bytes -> Bytes, senderKey: Bytes, timestamp: int, msgType: int, payload: Bytes)
    : (r: Result<Bytes>)
    ensures r.Ok? <==> 0 <= timestamp <= 4_294_967_295 && 0 <= msgType <= 255
  {
    if FitsU32(timestamp) && FitsU8(msgType) then
      var digest := hash(senderKey + U32(timestamp) + [msgType] + payload);
      Ok(if |digest| >= 16 then digest[..16] else digest)
    else
      Err(FieldOutOfRange)
  }

  /** sim/packet.py: the caller chooses the message id. */
  function BuildPacket(
    scheme: SignatureScheme, id: DeviceIdentity, msgId: Bytes, ephemId: Bytes, timestamp: int, ttl: int,
    sprayL: int, zoneId: int, msgType: int, payload: Bytes): Result<Bytes>
  {
    var header :- PackHeader(msgId, id.publicKey, ephemId, timestamp, ttl, sprayL, zoneId, msgType, |payload|);
    var unsigned := header + payload;
    Ok(unsigned + scheme.sign(id.secret, SignedRegion(unsigned, |payload|)))
  }

  /** identity/signing.py: the message id is derived from the content. */
  function BuildSignedPacket(
    hash: Bytes -> Bytes, scheme: SignatureScheme, id: DeviceIdentity, ephemId: Bytes, ttl: int,
    sprayL: int, zoneId: int, msgType: int, payload: Bytes, timestamp: int): Result<Bytes>
  {
    var msgId :- ComputeMsgId(hash, id.publicKey, timestamp, msgType, payload);
    BuildPacket(scheme, id, msgId, ephemId, timestamp, ttl, sprayL, zoneId, msgType, payload)
  }

  /** The signed region ignores what follows the payload. */
  lemma RegionIgnoresTail(unsigned: Bytes, tail: Bytes, payloadLen: nat)
    requires |unsigned| == HEADER_SIZE + payloadLen
    ensures SignedRegion(unsigned + tail, payloadLen) == SignedRegion(unsigned, payloadLen)
  {
  }

  /** Parse undoes build, and the built packet passes the signature check. */
  lemma ParseUndoesBuild(
    scheme: SignatureScheme, id: DeviceIdentity, msgId: Bytes, ephemId: Bytes, timestamp: int, ttl: int,
    sprayL: int, zoneId: int, msgType: int, payload: Bytes)
    requires SignsFor(scheme, id)
    ensures var built := BuildPacket(scheme, id, msgId, ephemId, timestamp, ttl, sprayL, zoneId, msgType, payload);
            && (built.Ok? <==> 0 <= timestamp <= 4_294_967_295 && 0 <= ttl <= 255 && 0 <= sprayL <= 255
                               && 0 <= zoneId <= 65_535 && 0 <= msgType <= 255 && |payload| <= 65_535)
            && (built.Ok? ==>
                  && |built.value| == 75 + |payload| + 64
                  && ParsePacket(built.value).Ok?
                  && var m := ParsePacket(built.value).value;
                     && m.msgId == Field(msgId, 16) && m.senderKey == id.publicKey
                     && m.ephemId == Field(ephemId, 16) && m.timestamp == timestamp
                     && m.ttl == ttl && m.sprayL == sprayL && m.zoneId == zoneId && m.msgType == msgType
                     && m.payload == payload
                     && CheckSignature(scheme.verify, m))
  {
    var built := BuildPacket(scheme, id, msgId, ephemId, timestamp, ttl, sprayL, zoneId, msgType, payload);
    if built.Ok? {
      var header := PackHeader(msgId, id.publicKey, ephemId, timestamp, ttl, sprayL, zoneId, msgType, |payload|).value;
      var unsigned := header + payload;
      var signature := scheme.sign(id.secret, SignedRegion(unsigned, |payload|));
      ParseUndoesPack(msgId, id.publicKey, ephemId, timestamp, ttl, sprayL, zoneId, msgType, payload, signature);
      RegionIgnoresTail(unsigned, signature, |payload|);
    }
  }

  /** On these two inputs the hash gives at least 16 bytes, the first 16 of which tell them apart. */
  predicate TellsApart(hash: Bytes -> Bytes, a: Bytes, b: Bytes) {
    |hash(a)| >= 16 && |hash(b)| >= 16 && (hash(a)[..16] == hash(b)[..16] ==> a == b)
  }

  lemma SameMaterial(
    key1: Bytes, timestamp1: int, type1: byte, payload1: Bytes,
    key2: Bytes, timestamp2: int, type2: byte, payload2: Bytes)
    requires |key1| == 32 && |key2| == 32 && FitsU32(timestamp1) && FitsU32(timestamp2)
    ensures key1 + U32(timestamp1) + [type1] + payload1 == key2 + U32(timestamp2) + [type2] + payload2 <==>
            key1 == key2 && timestamp1 == timestamp2 && type1 == type2 && payload1 == payload2
  {
    var a, b := key1 + U32(timestamp1) + [type1] + payload1, key2 + U32(timestamp2) + [type2] + payload2;
    if a == b {
      assert a[..32] == key1 && b[..32] == key2;
      assert a[32..36] == U32(timestamp1) && b[32..36] == U32(timestamp2);
      assert a[36] == type1 && b[36] == type2;
      assert a[37..] == payload1 && b[37..] == payload2;
      U32RoundTrip(timestamp1);
      U32RoundTrip(timestamp2);
    }
  }

  /** A message id names the content: two messages have the same id iff they agree in sender,
      timestamp, type and payload, as long as the hash tells what is hashed apart. */
  lemma IdNamesContent(
    hash: Bytes -> Bytes, key1: Bytes, timestamp1: int, type1: byte, payload1: Bytes,
    key2: Bytes, timestamp2: int, type2: byte, payload2: Bytes)
    requires |key1| == 32 && |key2| == 32 && FitsU32(timestamp1) && FitsU32(timestamp2)
    requires TellsApart(hash, key1 + U32(timestamp1) + [type1] + payload1, key2 + U32(timestamp2) + [type2] + payload2)
    ensures var id1 := ComputeMsgId(hash, key1, timestamp1, type1, payload1);
            var id2 := ComputeMsgId(hash, key2, timestamp2, type2, payload2);
            && id1.Ok? && id2.Ok? && |id1.value| == |id2.value| == 16
            && (id1 == id2 <==> key1 == key2 && timestamp1 == timestamp2 && type1 == type2 && payload1 == payload2)
  {
    SameMaterial(key1, timestamp1, type1, payload1, key2, timestamp2, type2, payload2);
  }

  /** What a device builds carries the id of its content, and everything asked for. */
  lemma BuiltCarriesId(
    hash: Bytes -> Bytes, scheme: SignatureScheme, id: DeviceIdentity, ephemId: Bytes, ttl: int,
    sprayL: int, zoneId: int, msgType: int, payload: Bytes, timestamp: int)
    requires SignsFor(scheme, id)
    ensures var built := BuildSignedPacket(hash, scheme, id, ephemId, ttl, sprayL, zoneId, msgType, payload, timestamp);
            && (built.Ok? <==> 0 <= timestamp <= 4_294_967_295 && 0 <= ttl <= 255 && 0 <= sprayL <= 255
                               && 0 <= zoneId <= 65_535 && 0 <= msgType <= 255 && |payload| <= 65_535)
            && (built.Ok? ==>
                  && ParsePacket(built.value).Ok?
                  && var m := ParsePacket(built.value).value;
                     && m.msgId == Field(ComputeMsgId(hash, id.publicKey, timestamp, msgType, payload).value, 16)
                     && m.senderKey == id.publicKey && m.ephemId == Field(ephemId, 16) && m.timestamp == timestamp
                     && m.ttl == ttl && m.sprayL == sprayL && m.zoneId == zoneId && m.msgType == msgType
                     && m.payload == payload && CheckSignature(scheme.verify, m))
  {
    var msgId := ComputeMsgId(hash, id.publicKey, timestamp, msgType, payload);
    if msgId.Ok? {
      ParseUndoesBuild(scheme, id, msgId.value, ephemId, timestamp, ttl, sprayL, zoneId, msgType, payload);
    }
  }

  /** The packet with new hop bytes; the meaning of the in-place rewrite below. */
  function WithHopBytes(raw: Bytes, ttl: byte, sprayL: byte): (r: Bytes)
    requires |raw| > SPRAY_OFFSET
    ensures |r| == |raw|
  {
    raw[TTL_OFFSET := ttl][SPRAY_OFFSET := sprayL]
  }

  /** Device's rewrite: copy the packet into a byte array and overwrite two cells. */
  method RewriteTtlAndSpray(raw: Bytes, ttl: byte, sprayL: byte) returns (rewritten: Bytes)
    requires |raw| > SPRAY_OFFSET
    ensures |rewritten| == |raw|
    ensures rewritten[TTL_OFFSET] == ttl && rewritten[SPRAY_OFFSET] == sprayL
    ensures forall k :: 0 <= k < |raw| && k != TTL_OFFSET && k != SPRAY_OFFSET ==> rewritten[k] == raw[k]
    ensures rewritten == WithHopBytes(raw, ttl, sprayL)
  {
    var patched := new byte[|raw|](i requires 0 <= i < |raw| => raw[i]);
    patched[TTL_OFFSET] := ttl;
    patched[SPRAY_OFFSET] := sprayL;
    rewritten := patched[..];
  }

  /** The pipeline's onward copy: spliced from slices, absent once either budget is spent. */
  function OnwardCopy(raw: Bytes, m: Message): Option<Bytes>
    requires |raw| > SPRAY_OFFSET
  {
    var nextTtl: int := m.ttl as int - 1;
    var forwardL := SplitCopies(m.sprayL).forward;
    if nextTtl <= 0 || forwardL == 0 then None
    else Some(raw[..TTL_OFFSET] + [nextTtl, forwardL] + raw[SPRAY_OFFSET + 1..])
  }

  /** Device forwards exactly when the pipeline's onward copy exists, and the same bytes. */
  lemma RewriteAgreesWithOnwardCopy(m: Message)
    requires WellFormed(m)
    ensures OnwardCopy(m.raw, m) ==
            if SplitCopies(m.sprayL).forward > 0 && m.ttl > 1
            then Some(WithHopBytes(m.raw, m.ttl - 1, SplitCopies(m.sprayL).forward))
            else None
  {
    if SplitCopies(m.sprayL).forward > 0 && m.ttl > 1 {
      var copy := OnwardCopy(m.raw, m).value;
      var rewritten := WithHopBytes(m.raw, m.ttl - 1, SplitCopies(m.sprayL).forward);
      assert copy == rewritten;
    }
  }

  /** Rewriting the hop bytes changes those two fields of the parsed message and nothing else,
      so the original signature still verifies. */
  lemma RewriteKeepsSignature(raw: Bytes, ttl: byte, sprayL: byte, verify: Verifier)
    requires ParsePacket(raw).Ok?
    ensures var rewritten := WithHopBytes(raw, ttl, sprayL);
            && ParsePacket(rewritten) == Ok(ParsePacket(raw).value.(raw := rewritten, ttl := ttl, sprayL := sprayL))
            && SignedRegion(rewritten, ParsePacket(raw).value.payloadLen)
               == SignedRegion(raw, ParsePacket(raw).value.payloadLen)
            && (CheckSignature(verify, ParsePacket(rewritten).value)
                <==> CheckSignature(verify, ParsePacket(raw).value))
  {
    var rewritten := WithHopBytes(raw, ttl, sprayL);
    var m := ParsePacket(raw).value;
    assert rewritten[73..75] == raw[73..75];
    assert rewritten[..16] == raw[..16];
    assert rewritten[16..48] == raw[16..48];
    assert rewritten[48..64] == raw[48..64];
    assert rewritten[64..68] == raw[64..68];
    assert rewritten[70..72] == raw[70..72];
    assert rewritten[HEADER_SIZE..HEADER_SIZE + m.payloadLen] == raw[HEADER_SIZE..HEADER_SIZE + m.payloadLen];
    assert rewritten[HEADER_SIZE + m.payloadLen..] == raw[HEADER_SIZE + m.payloadLen..];
    assert SignedRegion(rewritten, m.payloadLen) == SignedRegion(raw, m.payloadLen) by {
      assert rewritten[..TTL_OFFSET] == raw[..TTL_OFFSET];
      assert rewritten[TTL_OFFSET + 2..HEADER_SIZE + m.payloadLen] == raw[TTL_OFFSET + 2..HEADER_SIZE + m.payloadLen];
    }
  }
}
