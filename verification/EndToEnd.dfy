/** A friend message from its author, through any number of relays, to its reader. */
module EndToEnd {
  import opened ByteCodec
  import opened Copies
  import opened FriendWire
  import opened Packet
  import opened Signing
  import opened Wrappers

  /** The parameters of the envelope other than its content. */
  datatype Envelope = Envelope(ephemId: Bytes, ttl: int, sprayL: int, zoneId: int, timestamp: int)

  /** A payload in its envelope. */
  function Enclose(
    hash: Bytes -> Bytes, scheme: SignatureScheme, author: DeviceIdentity, e: Envelope, msgType: byte, payload: Bytes)
    : Result<Bytes>
  {
    BuildSignedPacket(hash, scheme, author, e.ephemId, e.ttl, e.sprayL, e.zoneId, msgType, payload, e.timestamp)
  }

  /** A message is encoded for its recipient and put into a signed packet. */
  function Compose(
    c: Codecs, hash: Bytes -> Bytes, scheme: SignatureScheme, author: DeviceIdentity, m: FriendMessage,
    hint: Bytes, recipientPub: Bytes, ephemeral: Bytes, e: Envelope): Result<Bytes>
  {
    var payload :- Encode(c, m, hint, recipientPub, ephemeral);
    Enclose(hash, scheme, author, e, TypeOf(KindOf(m)), payload)
  }

  /** Every friend message that can be composed arrives: after any number of relays that the hop
      and copy budgets allow, the packet passes the size check, parses with the author's key and a
      verifying signature, and its payload decodes to the original message. */
  lemma MessageArrives(
    c: Codecs, hash: Bytes -> Bytes, scheme: SignatureScheme, author: DeviceIdentity, m: FriendMessage,
    hint: Bytes, priv: Bytes, ephemeral: Bytes, e: Envelope, hops: nat)
    requires c.text.Faithful() && c.box.OpensFor(priv) && SignsFor(scheme, author)
    requires |hint| == RECIPIENT_HINT_SIZE
    requires Compose(c, hash, scheme, author, m, hint, c.box.publicOf(priv), ephemeral, e).Ok?
    ensures var sent := Compose(c, hash, scheme, author, m, hint, c.box.publicOf(priv), ephemeral, e).value;
            && 131 <= |sent| <= 460
            && ParsePacket(sent).Ok?
            && (Alive(sent, hops) ==>
                  && CheckSize(Copy(sent, hops)).None?
                  && ParsePacket(Copy(sent, hops)).Ok?
                  && var got := ParsePacket(Copy(sent, hops)).value;
                     && got.senderKey == author.publicKey && got.msgType == TypeOf(KindOf(m))
                     && (got.msgType == 7 <==> m.FriendRequest?) && (got.msgType == 8 <==> m.FriendAccepted?)
                     && (got.msgType == 9 <==> m.FriendDecline?) && (got.msgType == 13 <==> m.DirectMessage?)
                     && CheckSignature(scheme.verify, got)
                     && RecipientHintOf(got.payload) == Ok(hint)
                     && Decode(c, KindOf(m), got.payload, priv) == Ok(m))
  {
    var payload := Encode(c, m, hint, c.box.publicOf(priv), ephemeral).value;
    PayloadRoundTrip(c, m, hint, priv, ephemeral);
    TypeTellsKind(KindOf(m));
    var kind := TypeOf(KindOf(m));
    var msgId := ComputeMsgId(hash, author.publicKey, e.timestamp, kind, payload).value;
    ParseUndoesBuild(scheme, author, msgId, e.ephemId, e.timestamp, e.ttl, e.sprayL, e.zoneId, kind, payload);
    var sent := Compose(c, hash, scheme, author, m, hint, c.box.publicOf(priv), ephemeral, e).value;
    if Alive(sent, hops) {
      CopyMeans(sent, hops, scheme.verify);
    }
  }

  /** Two messages on their way have the same id iff they agree in author, time, kind and payload, as
      long as the hash tells what is hashed apart: different messages are not taken for duplicates. */
  lemma DifferentMessagesDifferentIds(
    hash: Bytes -> Bytes, scheme: SignatureScheme, author1: DeviceIdentity, e1: Envelope, type1: byte, payload1: Bytes,
    author2: DeviceIdentity, e2: Envelope, type2: byte, payload2: Bytes)
    requires SignsFor(scheme, author1) && SignsFor(scheme, author2)
    requires Enclose(hash, scheme, author1, e1, type1, payload1).Ok?
    requires Enclose(hash, scheme, author2, e2, type2, payload2).Ok?
    requires FitsU32(e1.timestamp) && FitsU32(e2.timestamp)
    requires TellsApart(hash, author1.publicKey + U32(e1.timestamp) + [type1] + payload1,
                        author2.publicKey + U32(e2.timestamp) + [type2] + payload2)
    ensures var p1 := Enclose(hash, scheme, author1, e1, type1, payload1).value;
            var p2 := Enclose(hash, scheme, author2, e2, type2, payload2).value;
            && ParsePacket(p1).Ok? && ParsePacket(p2).Ok?
            && (ParsePacket(p1).value.msgId == ParsePacket(p2).value.msgId <==>
                author1.publicKey == author2.publicKey && e1.timestamp == e2.timestamp && type1 == type2
                && payload1 == payload2)
  {
    BuiltCarriesId(hash, scheme, author1, e1.ephemId, e1.ttl, e1.sprayL, e1.zoneId, type1, payload1, e1.timestamp);
    BuiltCarriesId(hash, scheme, author2, e2.ephemId, e2.ttl, e2.sprayL, e2.zoneId, type2, payload2, e2.timestamp);
    IdNamesContent(hash, author1.publicKey, e1.timestamp, type1, payload1,
                   author2.publicKey, e2.timestamp, type2, payload2);
  }

  /** A direct message of 265 bytes fills the largest packet exactly. */
  lemma LongestMessageFillsPacket(
    c: Codecs, hash: Bytes -> Bytes, scheme: SignatureScheme, author: DeviceIdentity, s: string,
    hint: Bytes, priv: Bytes, ephemeral: Bytes, e: Envelope)
    requires c.text.Faithful() && c.box.OpensFor(priv) && SignsFor(scheme, author)
    requires |hint| == RECIPIENT_HINT_SIZE
    requires Compose(c, hash, scheme, author, DirectMessage(s), hint, c.box.publicOf(priv), ephemeral, e).Ok?
    ensures var m := DirectMessage(s);
            var sent := Compose(c, hash, scheme, author, m, hint, c.box.publicOf(priv), ephemeral, e).value;
            |sent| == 460 <==> |c.text.encode(s)| == 265
  {
    var payload := Encode(c, DirectMessage(s), hint, c.box.publicOf(priv), ephemeral).value;
    SealRoundTrip(c.box, priv, ephemeral, c.text.encode(s), hint);
    var kind := TypeOf(DirectKind);
    var msgId := ComputeMsgId(hash, author.publicKey, e.timestamp, kind, payload).value;
    ParseUndoesBuild(scheme, author, msgId, e.ephemId, e.timestamp, e.ttl, e.sprayL, e.zoneId, kind, payload);
  }
}
