/** The MeshLink envelope: header layout, parsing, the signed region and the stateless checks
    (steps 1, 2, 3 and 6 of the relay pipeline). */
module Packet {
  import opened ByteCodec
  import opened Verdicts
  import opened Wrappers

  const HEADER_SIZE := 75
  const SIGNATURE_SIZE := 64
  const MIN_PACKET := 131
  const MAX_PACKET := 460
  const TTL_OFFSET := 68
  const SPRAY_OFFSET := 69

  const MAX_AGE_SECONDS := 300
  const MAX_FUTURE_SECONDS := 30

  datatype Message = Message(
    raw: Bytes,
    msgId: Bytes,
    senderKey: Bytes,
    ephemId: Bytes,
    timestamp: int,
    ttl: byte,
    sprayL: byte,
    zoneId: int,
    msgType: byte,
    payloadLen: int,
    payload: Bytes,
    signature: Bytes)

  /** Signature verification: public key, signed bytes, signature. */
  type Verifier = (Bytes, Bytes, Bytes) -> bool

  function PackHeader(
    msgId: Bytes, senderKey: Bytes, ephemId: Bytes, timestamp: int, ttl: int, sprayL: int,
    zoneId: int, msgType: int, payloadLen: int): (r: Result<Bytes>)
    ensures r.Ok? <==> 0 <= timestamp <= 4_294_967_295 && 0 <= ttl <= 255 && 0 <= sprayL <= 255
                       && 0 <= zoneId <= 65_535 && 0 <= msgType <= 255 && 0 <= payloadLen <= 65_535
    ensures r.Ok? ==> |r.value| == 75
  {
    if FitsU32(timestamp) && FitsU8(ttl) && FitsU8(sprayL) && FitsU16(zoneId) && FitsU8(msgType)
       && FitsU16(payloadLen) then
      Ok(Field(msgId, 16) + Field(senderKey, 32) + Field(ephemId, 16) + U32(timestamp)
         + [ttl, sprayL] + U16(zoneId) + [msgType] + U16(payloadLen))
    else
      Err(FieldOutOfRange)
  }

  /** Everything the sender signs: header and payload without the two hop-mutable bytes. */
  function SignedRegion(raw: Bytes, payloadLen: nat): Bytes
    requires |raw| >= HEADER_SIZE + payloadLen
  {
    raw[..TTL_OFFSET] + raw[TTL_OFFSET + 2..HEADER_SIZE + payloadLen]
  }

  /** What a parsed message always satisfies, whatever the bytes were. */
  ghost predicate WellFormed(m: Message) {
    && |m.msgId| == 16 && |m.senderKey| == 32 && |m.ephemId| == 16
    && FitsU32(m.timestamp) && FitsU16(m.zoneId) && FitsU16(m.payloadLen)
    && |m.payload| == m.payloadLen
    && |m.signature| == SIGNATURE_SIZE
    && |m.raw| == HEADER_SIZE + m.payloadLen + SIGNATURE_SIZE
    && m.raw[TTL_OFFSET] == m.ttl && m.raw[SPRAY_OFFSET] == m.sprayL
  }

  function ParsePacket(raw: Bytes): (r: Result<Message>)
    ensures r.Ok? ==> WellFormed(r.value) && r.value.raw == raw
  {
    if |raw| < HEADER_SIZE + SIGNATURE_SIZE then
      Err(TooShort)
    else
      var payloadLen := ReadU16(raw[73..75]);
      if |raw| != HEADER_SIZE + payloadLen + SIGNATURE_SIZE then
        Err(LengthMismatch)
      else
        Ok(Message(
          raw,
          raw[..16],
          raw[16..48],
          raw[48..64],
          ReadU32(raw[64..68]),
          raw[68],
          raw[69],
          ReadU16(raw[70..72]),
          raw[72],
          payloadLen,
          raw[HEADER_SIZE..HEADER_SIZE + payloadLen],
          raw[HEADER_SIZE + payloadLen..]))
  }

  /** Step 1. */
  function CheckSize(raw: Bytes): Option<DropReason> {
    if |raw| < MIN_PACKET then Some(TooSmall)
    else if |raw| > MAX_PACKET then Some(TooLarge)
    else None
  }

  /** Step 2. */
  function CheckTtl(m: Message): Option<DropReason> {
    if m.ttl == 0 then Some(TtlExhausted) else None
  }

  /** Step 3: the age is measured against whole seconds of the clock. */
  function CheckTimestamp(m: Message, now: real): Option<DropReason> {
    var age := now.Floor - m.timestamp;
    if age > MAX_AGE_SECONDS then Some(TooOld)
    else if age < -MAX_FUTURE_SECONDS then Some(TooFarInFuture)
    else None
  }

  /** Step 6. */
  predicate CheckSignature(verify: Verifier, m: Message)
    requires WellFormed(m)
  {
    verify(m.senderKey, SignedRegion(m.raw, m.payloadLen), m.signature)
  }

  /** When bytes are a packet: at least 139 of them, of which the 73rd and 74th, the higher first, say
      how many more there are. */
  lemma ParsesIff(raw: Bytes)
    ensures ParsePacket(raw).Ok? <==> |raw| >= 139 && 256 * raw[73] as int + raw[74] as int == |raw| - 139
    ensures |raw| < 139 ==> ParsePacket(raw) == Err(TooShort)
    ensures ParsePacket(raw).Err? && |raw| >= 139 ==> ParsePacket(raw) == Err(LengthMismatch)
  {
  }

  /** Where each field of a packet is. */
  lemma FieldsOnTheWire(raw: Bytes)
    requires ParsePacket(raw).Ok?
    ensures var m := ParsePacket(raw).value;
            && m.msgId == raw[..16] && m.senderKey == raw[16..48] && m.ephemId == raw[48..64]
            && m.timestamp
               == 16_777_216 * raw[64] as int + 65_536 * raw[65] as int + 256 * raw[66] as int + raw[67] as int
            && m.ttl == raw[68] && m.sprayL == raw[69] && m.zoneId == 256 * raw[70] as int + raw[71] as int
            && m.msgType == raw[72] && m.payload == raw[75..|raw| - 64] && m.signature == raw[|raw| - 64..]
  {
  }

  /** Two clock readings that both let the same timestamp through lie less than 331 s apart. */
  lemma TimestampWindowSpan(m1: Message, t1: real, m2: Message, t2: real)
    requires m1.timestamp == m2.timestamp
    requires CheckTimestamp(m1, t1).None? && CheckTimestamp(m2, t2).None?
    ensures t2 - t1 < 331.0
  {
    assert t2 < (t2.Floor + 1) as real;
  }

  /** Every packet that survives size check and parsing has an honest payload length of at most
      321 bytes, and so between 139 and 460 bytes in all. */
  lemma SurvivorBounds(raw: Bytes)
    requires CheckSize(raw).None? && ParsePacket(raw).Ok?
    ensures var m := ParsePacket(raw).value;
            m.payloadLen == |m.payload| <= 321 && 139 <= |raw| <= 460
  {
  }

  /** A header laid out for given field values reads back those values. */
  lemma HeaderReadsBack(
    msgId: Bytes, senderKey: Bytes, ephemId: Bytes, timestamp: int, ttl: int, sprayL: int,
    zoneId: int, msgType: int, payloadLen: int, rest: Bytes)
    requires PackHeader(msgId, senderKey, ephemId, timestamp, ttl, sprayL, zoneId, msgType, payloadLen).Ok?
    ensures var raw :=
              PackHeader(msgId, senderKey, ephemId, timestamp, ttl, sprayL, zoneId, msgType, payloadLen).value + rest;
            && raw[..16] == Field(msgId, 16) && raw[16..48] == Field(senderKey, 32)
            && raw[48..64] == Field(ephemId, 16) && raw[64..68] == U32(timestamp)
            && raw[68] == ttl && raw[69] == sprayL
            && raw[70..72] == U16(zoneId) && raw[72] == msgType && raw[73..75] == U16(payloadLen)
  {
  }

  /** Where each field of a packed header is, the highest byte first. */
  lemma HeaderOnTheWire(
    msgId: Bytes, senderKey: Bytes, ephemId: Bytes, timestamp: int, ttl: int, sprayL: int,
    zoneId: int, msgType: int, payloadLen: int)
    requires PackHeader(msgId, senderKey, ephemId, timestamp, ttl, sprayL, zoneId, msgType, payloadLen).Ok?
    ensures var h := PackHeader(msgId, senderKey, ephemId, timestamp, ttl, sprayL, zoneId, msgType, payloadLen).value;
            && h[..16] == Field(msgId, 16) && h[16..48] == Field(senderKey, 32) && h[48..64] == Field(ephemId, 16)
            && timestamp == 16_777_216 * h[64] as int + 65_536 * h[65] as int + 256 * h[66] as int + h[67] as int
            && h[68] == ttl && h[69] == sprayL && zoneId == 256 * h[70] as int + h[71] as int
            && h[72] == msgType && payloadLen == 256 * h[73] as int + h[74] as int
  {
    var h := PackHeader(msgId, senderKey, ephemId, timestamp, ttl, sprayL, zoneId, msgType, payloadLen).value;
    HeaderReadsBack(msgId, senderKey, ephemId, timestamp, ttl, sprayL, zoneId, msgType, payloadLen, []);
    assert h + [] == h;
    U32RoundTrip(timestamp);
    ReadU32Weights(h[64..68]);
    U16RoundTrip(zoneId);
    U16RoundTrip(payloadLen);
    assert ReadU16(h[70..72]) == zoneId && ReadU16(h[73..75]) == payloadLen;
  }

  /** Parsing a header followed by its payload and a 64-byte signature recovers every field. */
  lemma ParseUndoesPack(
    msgId: Bytes, senderKey: Bytes, ephemId: Bytes, timestamp: int, ttl: int, sprayL: int,
    zoneId: int, msgType: int, payload: Bytes, signature: Bytes)
    requires PackHeader(msgId, senderKey, ephemId, timestamp, ttl, sprayL, zoneId, msgType, |payload|).Ok?
    requires |signature| == SIGNATURE_SIZE
    ensures var raw := PackHeader(msgId, senderKey, ephemId, timestamp, ttl, sprayL, zoneId, msgType, |payload|).value
                       + payload + signature;
            ParsePacket(raw) == Ok(Message(
              raw, Field(msgId, 16), Field(senderKey, 32), Field(ephemId, 16), timestamp, ttl, sprayL,
              zoneId, msgType, |payload|, payload, signature))
  {
    var header := PackHeader(msgId, senderKey, ephemId, timestamp, ttl, sprayL, zoneId, msgType, |payload|).value;
    var raw := header + payload + signature;
    assert raw == header + (payload + signature);
    HeaderReadsBack(msgId, senderKey, ephemId, timestamp, ttl, sprayL, zoneId, msgType, |payload|, payload + signature);
    U32RoundTrip(timestamp);
    U16RoundTrip(zoneId);
    U16RoundTrip(|payload|);
    assert raw[HEADER_SIZE..HEADER_SIZE + |payload|] == payload;
    assert raw[HEADER_SIZE + |payload|..] == signature;
  }

  /** Packing a parsed message's fields again gives back the very bytes it was parsed from:
      no two byte strings parse to the same fields. */
  lemma PackUndoesParse(raw: Bytes)
    requires ParsePacket(raw).Ok?
    ensures var m := ParsePacket(raw).value;
            var header := PackHeader(m.msgId, m.senderKey, m.ephemId, m.timestamp, m.ttl, m.sprayL, m.zoneId, m.msgType,
                                     m.payloadLen);
            header.Ok? && header.value + m.payload + m.signature == raw
  {
    var m := ParsePacket(raw).value;
    ReadU32RoundTrip(raw[64..68]);
    ReadU16RoundTrip(raw[70..72]);
    ReadU16RoundTrip(raw[73..75]);
    var header := PackHeader(m.msgId, m.senderKey, m.ephemId, m.timestamp, m.ttl, m.sprayL, m.zoneId, m.msgType,
                             m.payloadLen).value;
    assert raw[..48] == raw[..16] + raw[16..48];
    assert raw[..64] == raw[..48] + raw[48..64];
    assert raw[..68] == raw[..64] + raw[64..68];
    assert raw[..70] == raw[..68] + [m.ttl, m.sprayL];
    assert raw[..72] == raw[..70] + raw[70..72];
    assert raw[..73] == raw[..72] + [m.msgType];
    assert raw[..HEADER_SIZE] == raw[..73] + raw[73..75];
    assert header == raw[..HEADER_SIZE];
  }

  /** The signature covers everything but ttl, spray_L and itself: packets with the same signed
      region agree in every other field and in every other byte before the signature. */
  lemma RegionDeterminesPacket(raw1: Bytes, raw2: Bytes)
    requires ParsePacket(raw1).Ok? && ParsePacket(raw2).Ok?
    requires SignedRegion(raw1, ParsePacket(raw1).value.payloadLen)
             == SignedRegion(raw2, ParsePacket(raw2).value.payloadLen)
    ensures var m1, m2 := ParsePacket(raw1).value, ParsePacket(raw2).value;
            m1 == m2.(raw := raw1, ttl := m1.ttl, sprayL := m1.sprayL, signature := m1.signature)
    ensures |raw1| == |raw2|
    ensures forall k :: 0 <= k < |raw1| - SIGNATURE_SIZE && k != TTL_OFFSET && k != SPRAY_OFFSET
                        ==> raw1[k] == raw2[k]
  {
    var m1, m2 := ParsePacket(raw1).value, ParsePacket(raw2).value;
    var region := SignedRegion(raw1, m1.payloadLen);
    assert |region| == HEADER_SIZE - 2 + m1.payloadLen == HEADER_SIZE - 2 + m2.payloadLen;
    forall k | 0 <= k < TTL_OFFSET ensures raw1[k] == raw2[k] {
      assert region[k] == raw1[k] && region[k] == raw2[k];
    }
    forall k | TTL_OFFSET + 2 <= k < HEADER_SIZE + m1.payloadLen ensures raw1[k] == raw2[k] {
      assert region[k - 2] == raw1[k] && region[k - 2] == raw2[k];
    }
    assert raw1[..16] == raw2[..16] && raw1[16..48] == raw2[16..48] && raw1[48..64] == raw2[48..64];
    assert raw1[64..68] == raw2[64..68] && raw1[70..72] == raw2[70..72];
    assert raw1[HEADER_SIZE..HEADER_SIZE + m1.payloadLen] == raw2[HEADER_SIZE..HEADER_SIZE + m1.payloadLen];
  }
}
