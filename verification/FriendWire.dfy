/** Payload codecs for friend requests, accepts, declines and direct messages. */
module FriendWire {
  import opened ByteCodec
  import opened CapabilityTokens
  import opened Wrappers

  const RECIPIENT_HINT_SIZE := 8
  const MAX_USERNAME_BYTES := 32
  const MAX_DM_TEXT_BYTES := 265
  const SEAL_OVERHEAD := 48
  const MSG_ID_SIZE := 16

  /** UTF-8, left abstract. */
  datatype TextCodec = TextCodec(encode: string -> Bytes, decode: Bytes -> Result<string>) {

    ghost predicate Faithful() {
      && (forall s :: decode(encode(s)) == Ok(s))
      && (forall b :: decode(b).Ok? ==> encode(decode(b).value) == b)
    }
  }

  /** Sealed envelopes, left abstract: seal takes the fresh ephemeral key as an argument. */
  datatype SealBox = SealBox(
    publicOf: Bytes -> Bytes,
    seal: (Bytes, Bytes, Bytes) -> Bytes,
    open: (Bytes, Bytes) -> Result<Bytes>)
  {
    /** Opening undoes sealing to the matching key, and the overhead is 48 bytes. */
    ghost predicate OpensFor(priv: Bytes) {
      && |publicOf(priv)| == 32
      && forall ephemeral, text ::
           && |seal(ephemeral, text, publicOf(priv))| == |text| + SEAL_OVERHEAD
           && open(seal(ephemeral, text, publicOf(priv)), priv) == Ok(text)
    }

    function Seal(ephemeral: Bytes, text: Bytes, pub: Bytes): Result<Bytes> {
      if |pub| != 32 then Err(BadKeyLength) else Ok(seal(ephemeral, text, pub))
    }

    function Unseal(sealed: Bytes, priv: Bytes): Result<Bytes> {
      if |sealed| < SEAL_OVERHEAD then Err(BadSeal)
      else match open(sealed, priv)
        case Ok(text) => Ok(text)
        case Err(_) => Err(BadSeal)
    }
  }

  datatype Identity = Identity(username: string, curve25519Pub: Bytes, ed25519Pub: Bytes)

  datatype FriendAccept = FriendAccept(identity: Identity, capabilityToken: Option<Bytes>)

  function Tail(raw: Bytes, n: nat): Bytes {
    if |raw| >= n then raw[n..] else []
  }

  // ----- the identity block -----

  function PackIdentity(text: TextCodec, id: Identity): (r: Result<Bytes>)
    ensures r.Ok? ==> 66 <= |r.value| <= 97
  {
    var name := text.encode(id.username);
    if !(1 <= |name| <= MAX_USERNAME_BYTES) then Err(BadText)
    else if |id.curve25519Pub| != 32 || |id.ed25519Pub| != 32 then Err(BadKeyLength)
    else Ok([|name|] + name + id.curve25519Pub + id.ed25519Pub)
  }

  /** The identity and whatever follows it. */
  function UnpackIdentity(text: TextCodec, data: Bytes): Result<(Identity, Bytes)> {
    if |data| < 1 then Err(BadPayload)
    else
      var n: int := data[0];
      if !(1 <= n <= MAX_USERNAME_BYTES) || |data| < 1 + n + 64 then Err(BadPayload)
      else
        var name :- text.decode(data[1..1 + n]);
        Ok((Identity(name, data[1 + n..1 + n + 32], data[1 + n + 32..1 + n + 64]), data[1 + n + 64..]))
  }

  predicate IdentityFits(text: TextCodec, id: Identity) {
    1 <= |text.encode(id.username)| <= 32 && |id.curve25519Pub| == 32 && |id.ed25519Pub| == 32
  }

  /** A length byte, the name, the sealing key, the signing key. */
  lemma IdentityOnTheWire(text: TextCodec, id: Identity)
    ensures PackIdentity(text, id).Ok? <==> IdentityFits(text, id)
    ensures PackIdentity(text, id).Ok? ==>
              var block, n := PackIdentity(text, id).value, |text.encode(id.username)|;
              && |block| == 65 + n
              && block[0] == n
              && block[1..1 + n] == text.encode(id.username)
              && block[1 + n..33 + n] == id.curve25519Pub
              && block[33 + n..] == id.ed25519Pub
  {
  }

  lemma UnpackUndoesPack(text: TextCodec, id: Identity, rest: Bytes)
    requires text.Faithful() && PackIdentity(text, id).Ok?
    ensures UnpackIdentity(text, PackIdentity(text, id).value + rest) == Ok((id, rest))
  {
    var name := text.encode(id.username);
    var data := PackIdentity(text, id).value + rest;
    var n := |name|;
    assert data[1..1 + n] == name;
    assert data[1 + n..1 + n + 32] == id.curve25519Pub;
    assert data[1 + n + 32..1 + n + 64] == id.ed25519Pub;
    assert data[1 + n + 64..] == rest;
  }

  lemma PackUndoesUnpack(text: TextCodec, data: Bytes)
    requires text.Faithful() && UnpackIdentity(text, data).Ok?
    ensures var (id, rest) := UnpackIdentity(text, data).value;
            PackIdentity(text, id).Ok? && PackIdentity(text, id).value + rest == data
  {
    var (id, rest) := UnpackIdentity(text, data).value;
    var n := data[0] as int;
    assert data[..1 + n] == [data[0]] + data[1..1 + n];
    assert data[..1 + n + 32] == data[..1 + n] + data[1 + n..1 + n + 32];
    assert data[..1 + n + 64] == data[..1 + n + 32] + data[1 + n + 32..1 + n + 64];
    assert data == data[..1 + n + 64] + data[1 + n + 64..];
  }

  // ----- bodies, before sealing -----

  function AcceptBody(text: TextCodec, p: FriendAccept): Result<Bytes> {
    var block :- PackIdentity(text, p.identity);
    match p.capabilityToken
    case None => Ok(block + [0])
    case Some(token) => if |token| != TOKEN_SIZE then Err(BadTokenLength) else Ok(block + [1] + token)
  }

  function RequestOfBody(text: TextCodec, body: Bytes): Result<Identity> {
    var (id, rest) :- UnpackIdentity(text, body);
    if rest != [] then Err(BadPayload) else Ok(id)
  }

  function AcceptOfBody(text: TextCodec, body: Bytes): Result<FriendAccept> {
    var (id, rest) :- UnpackIdentity(text, body);
    if |rest| < 1 then Err(BadPayload)
    else if rest[0] != 0 then
      if |rest| - 1 != TOKEN_SIZE then Err(BadPayload) else Ok(FriendAccept(id, Some(rest[1..])))
    else if |rest| > 1 then Err(BadPayload)
    else Ok(FriendAccept(id, None))
  }

  /** The identity block, a byte that says whether a token follows, and the token. */
  lemma AcceptOnTheWire(text: TextCodec, p: FriendAccept)
    requires AcceptBody(text, p).Ok?
    ensures var body, n := AcceptBody(text, p).value, |text.encode(p.identity.username)|;
            && PackIdentity(text, p.identity) == Ok(body[..65 + n])
            && body[65 + n] == (if p.capabilityToken.Some? then 1 else 0)
            && body[66 + n..] == if p.capabilityToken.Some? then p.capabilityToken.value else []
  {
    IdentityOnTheWire(text, p.identity);
    var body, block := AcceptBody(text, p).value, PackIdentity(text, p.identity).value;
    assert body[..|block|] == block;
  }

  lemma AcceptBodyRoundTrip(text: TextCodec, p: FriendAccept)
    requires text.Faithful() && AcceptBody(text, p).Ok?
    ensures AcceptOfBody(text, AcceptBody(text, p).value) == Ok(p)
  {
    var block := PackIdentity(text, p.identity).value;
    match p.capabilityToken
    case None =>
      UnpackUndoesPack(text, p.identity, [0]);
    case Some(token) =>
      UnpackUndoesPack(text, p.identity, [1] + token);
      assert block + [1] + token == block + ([1] + token);
      assert ([1] + token)[1..] == token;
  }

  /** A request body decodes only if it is the encoding of what it decodes to. */
  lemma RequestBodyCanonical(text: TextCodec, body: Bytes)
    requires text.Faithful()
    ensures RequestOfBody(text, body).Ok? ==> PackIdentity(text, RequestOfBody(text, body).value) == Ok(body)
    ensures RequestOfBody(text, body).Ok? <==> exists id :: PackIdentity(text, id) == Ok(body)
  {
    if RequestOfBody(text, body).Ok? {
      PackUndoesUnpack(text, body);
      var (id, rest) := UnpackIdentity(text, body).value;
      assert PackIdentity(text, id).value + rest == PackIdentity(text, id).value;
    }
    if exists id :: PackIdentity(text, id) == Ok(body) {
      var id :| PackIdentity(text, id) == Ok(body);
      UnpackUndoesPack(text, id, []);
      assert body + [] == body;
    }
  }

  /** The byte after the identity block. */
  function TokenFlag(text: TextCodec, body: Bytes): byte
    requires AcceptOfBody(text, body).Ok?
  {
    UnpackIdentity(text, body).value.1[0]
  }

  /** An accept body that decodes is the encoding of what it decodes to exactly when its flag byte
      is 0 or 1: any other nonzero flag decodes as well. */
  lemma AcceptBodyCanonicalIff(text: TextCodec, body: Bytes)
    requires text.Faithful() && AcceptOfBody(text, body).Ok?
    ensures AcceptBody(text, AcceptOfBody(text, body).value) == Ok(body) <==> TokenFlag(text, body) <= 1
  {
    PackUndoesUnpack(text, body);
    var (id, rest) := UnpackIdentity(text, body).value;
    var block := PackIdentity(text, id).value;
    assert body == block + rest && body[|block|] == rest[0];
    if rest[0] == 0 {
      assert rest == [0];
    } else {
      var again := AcceptBody(text, AcceptOfBody(text, body).value).value;
      assert again == block + [1] + rest[1..] && again[|block|] == 1;
      assert rest == [rest[0]] + rest[1..];
      if rest[0] == 1 {
        assert again == body;
      }
    }
  }

  /** Such a body exists for every accept with a token. */
  lemma FlagTwoDecodes(text: TextCodec, id: Identity, token: Bytes)
    requires text.Faithful() && PackIdentity(text, id).Ok? && |token| == 98
    ensures var body := PackIdentity(text, id).value + ([2] + token);
            && AcceptOfBody(text, body) == Ok(FriendAccept(id, Some(token)))
            && AcceptBody(text, FriendAccept(id, Some(token))) != Ok(body)
  {
    var body := PackIdentity(text, id).value + ([2] + token);
    UnpackUndoesPack(text, id, [2] + token);
    assert ([2] + token)[1..] == token;
    AcceptBodyCanonicalIff(text, body);
  }

  // ----- payloads -----

  datatype FriendMessage =
    | FriendRequest(identity: Identity)
    | FriendAccepted(accept: FriendAccept)
    | FriendDecline(requestMsgId: Bytes)
    | DirectMessage(text: string)

  datatype FriendKind = RequestKind | AcceptKind | DeclineKind | DirectKind

  function KindOf(m: FriendMessage): FriendKind {
    match m
    case FriendRequest(_) => RequestKind
    case FriendAccepted(_) => AcceptKind
    case FriendDecline(_) => DeclineKind
    case DirectMessage(_) => DirectKind
  }

  /** The msg_type of the envelope. */
  function TypeOf(k: FriendKind): byte {
    match k
    case RequestKind => 0x07
    case AcceptKind => 0x08
    case DeclineKind => 0x09
    case DirectKind => 0x0D
  }

  /** The type says which of the four messages an envelope holds. */
  lemma TypeTellsKind(k: FriendKind)
    ensures TypeOf(k) == 7 <==> k == RequestKind
    ensures TypeOf(k) == 8 <==> k == AcceptKind
    ensures TypeOf(k) == 9 <==> k == DeclineKind
    ensures TypeOf(k) == 13 <==> k == DirectKind
  {
  }

  /** The libraries the codecs stand on. */
  datatype Codecs = Codecs(text: TextCodec, box: SealBox)

  function Encode(c: Codecs, m: FriendMessage, hint: Bytes, recipientPub: Bytes, ephemeral: Bytes): Result<Bytes> {
    match m
    case FriendRequest(id) =>
      var body :- PackIdentity(c.text, id);
      var sealed :- c.box.Seal(ephemeral, body, recipientPub);
      Ok(hint + sealed)
    case FriendAccepted(p) =>
      var body :- AcceptBody(c.text, p);
      var sealed :- c.box.Seal(ephemeral, body, recipientPub);
      Ok(hint + sealed)
    case FriendDecline(msgId) =>
      if |msgId| != MSG_ID_SIZE then Err(BadPayload) else Ok(hint + msgId)
    case DirectMessage(s) =>
      var body := c.text.encode(s);
      if !(1 <= |body| <= MAX_DM_TEXT_BYTES) then Err(BadText)
      else
        var sealed :- c.box.Seal(ephemeral, body, recipientPub);
        Ok(hint + sealed)
  }

  function Decode(c: Codecs, k: FriendKind, raw: Bytes, priv: Bytes): Result<FriendMessage> {
    match k
    case RequestKind =>
      var body :- c.box.Unseal(Tail(raw, RECIPIENT_HINT_SIZE), priv);
      var id :- RequestOfBody(c.text, body);
      Ok(FriendRequest(id))
    case AcceptKind =>
      var body :- c.box.Unseal(Tail(raw, RECIPIENT_HINT_SIZE), priv);
      var p :- AcceptOfBody(c.text, body);
      Ok(FriendAccepted(p))
    case DeclineKind =>
      if |raw| != RECIPIENT_HINT_SIZE + MSG_ID_SIZE then Err(BadPayload)
      else Ok(FriendDecline(raw[RECIPIENT_HINT_SIZE..]))
    case DirectKind =>
      var body :- c.box.Unseal(Tail(raw, RECIPIENT_HINT_SIZE), priv);
      if !(1 <= |body| <= MAX_DM_TEXT_BYTES) then Err(BadPayload)
      else
        var s :- c.text.decode(body);
        Ok(DirectMessage(s))
  }

  function RecipientHintOf(raw: Bytes): Result<Bytes> {
    if |raw| < RECIPIENT_HINT_SIZE then Err(BadPayload) else Ok(raw[..RECIPIENT_HINT_SIZE])
  }

  /** Name length, name, the two keys, and what comes after them. */
  ghost predicate BlockReads(text: TextCodec, body: Bytes) {
    |body| >= 1 && 1 <= body[0] <= 32 && |body| >= 65 + body[0] && text.decode(body[1..1 + body[0]]).Ok?
  }

  /** When a payload is a message of a kind: a decline has 24 bytes, anything else opens after the
      hint to a body with nothing missing and nothing left over. */
  lemma DecodesIff(c: Codecs, k: FriendKind, raw: Bytes, priv: Bytes)
    ensures var unsealed := if |raw| >= 56 then c.box.open(raw[8..], priv) else Err(BadSeal);
            Decode(c, k, raw, priv).Ok? <==>
            if k == DeclineKind then |raw| == 24
            else
              && unsealed.Ok?
              && var body := unsealed.value;
                 match k
                 case RequestKind => BlockReads(c.text, body) && |body| == 65 + body[0]
                 case AcceptKind =>
                   && BlockReads(c.text, body) && |body| >= 66 + body[0]
                   && |body| == if body[65 + body[0]] == 0 then 66 + body[0] else 164 + body[0]
                 case _ => 1 <= |body| <= 265 && c.text.decode(body).Ok?
    ensures RecipientHintOf(raw).Ok? <==> |raw| >= 8
  {
  }

  /** The hint comes first and in the clear; a decline names the request's id, everything else is sealed. */
  lemma PayloadOnTheWire(c: Codecs, m: FriendMessage, hint: Bytes, recipientPub: Bytes, ephemeral: Bytes)
    requires |hint| == 8 && Encode(c, m, hint, recipientPub, ephemeral).Ok?
    ensures var raw := Encode(c, m, hint, recipientPub, ephemeral).value;
            && |raw| >= 8 && raw[..8] == hint
            && match m
               case FriendDecline(msgId) => raw[8..] == msgId
               case FriendRequest(id) => raw[8..] == c.box.seal(ephemeral, PackIdentity(c.text, id).value, recipientPub)
               case FriendAccepted(p) => raw[8..] == c.box.seal(ephemeral, AcceptBody(c.text, p).value, recipientPub)
               case DirectMessage(s) => raw[8..] == c.box.seal(ephemeral, c.text.encode(s), recipientPub)
  {
  }

  lemma SealRoundTrip(box: SealBox, priv: Bytes, ephemeral: Bytes, body: Bytes, hint: Bytes)
    requires box.OpensFor(priv) && |hint| == RECIPIENT_HINT_SIZE
    ensures box.Seal(ephemeral, body, box.publicOf(priv)).Ok?
    ensures var raw := hint + box.Seal(ephemeral, body, box.publicOf(priv)).value;
            && |raw| == RECIPIENT_HINT_SIZE + SEAL_OVERHEAD + |body|
            && box.Unseal(Tail(raw, RECIPIENT_HINT_SIZE), priv) == Ok(body)
  {
    var sealed := box.seal(ephemeral, body, box.publicOf(priv));
    assert (hint + sealed)[RECIPIENT_HINT_SIZE..] == sealed;
  }

  /** Whatever is encoded for a recipient decodes, with the recipient's key, to the same message;
      the hint is readable by everyone; and the payload fits the envelope. */
  lemma PayloadRoundTrip(c: Codecs, m: FriendMessage, hint: Bytes, priv: Bytes, ephemeral: Bytes)
    requires c.text.Faithful() && c.box.OpensFor(priv) && |hint| == RECIPIENT_HINT_SIZE
    requires Encode(c, m, hint, c.box.publicOf(priv), ephemeral).Ok?
    ensures var raw := Encode(c, m, hint, c.box.publicOf(priv), ephemeral).value;
            && Decode(c, KindOf(m), raw, priv) == Ok(m)
            && RecipientHintOf(raw) == Ok(hint)
            && |raw| <= 321
  {
    match m
    case FriendRequest(id) =>
      var body := PackIdentity(c.text, id).value;
      SealRoundTrip(c.box, priv, ephemeral, body, hint);
      UnpackUndoesPack(c.text, id, []);
      assert body + [] == body;
    case FriendAccepted(p) =>
      SealRoundTrip(c.box, priv, ephemeral, AcceptBody(c.text, p).value, hint);
      AcceptBodyRoundTrip(c.text, p);
    case FriendDecline(msgId) =>
      assert (hint + msgId)[RECIPIENT_HINT_SIZE..] == msgId;
    case DirectMessage(s) =>
      SealRoundTrip(c.box, priv, ephemeral, c.text.encode(s), hint);
  }

  /** Which messages can be encoded at all, and for which recipient's keys. */
  lemma Encodable(c: Codecs, m: FriendMessage, hint: Bytes, recipientPub: Bytes, ephemeral: Bytes)
    ensures Encode(c, m, hint, recipientPub, ephemeral).Ok? <==>
            (m.FriendDecline? || |recipientPub| == 32) &&
            match m
            case FriendRequest(id) => IdentityFits(c.text, id)
            case FriendAccepted(p) =>
              IdentityFits(c.text, p.identity) && (p.capabilityToken.Some? ==> |p.capabilityToken.value| == 98)
            case FriendDecline(msgId) => |msgId| == 16
            case DirectMessage(s) => 1 <= |c.text.encode(s)| <= 265
  {
  }

  /** The direct-message cap is tight: a payload has room for exactly 265 bytes of text. */
  lemma DirectMessageCapTight(c: Codecs, s: string, hint: Bytes, priv: Bytes, ephemeral: Bytes)
    requires c.box.OpensFor(priv) && |hint| == RECIPIENT_HINT_SIZE
    ensures |hint + c.box.seal(ephemeral, c.text.encode(s), c.box.publicOf(priv))| <= 321
            <==> |c.text.encode(s)| <= 265
    ensures |c.text.encode(s)| == 265 ==>
              |hint + c.box.seal(ephemeral, c.text.encode(s), c.box.publicOf(priv))| == 321
  {
    SealRoundTrip(c.box, priv, ephemeral, c.text.encode(s), hint);
  }
}
