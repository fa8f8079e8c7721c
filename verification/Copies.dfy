/** What a number of hops make of a packet, and how many hops there are in it. */
module Copies {
  import opened ByteCodec
  import opened Packet
  import opened Signing
  import opened SprayAndWait
  import opened Wrappers

  /** Both budgets last h hops. */
  predicate Alive(origin: Bytes, h: nat)
    requires |origin| > SPRAY_OFFSET
  {
    origin[TTL_OFFSET] as int - h >= 1 && Halve(origin[SPRAY_OFFSET], h) >= 1
  }

  /** The packet that h hops make of an injected one. */
  function Copy(origin: Bytes, h: nat): Bytes
    requires |origin| > SPRAY_OFFSET && Alive(origin, h)
  {
    WithHopBytes(origin, origin[TTL_OFFSET] - h, Halve(origin[SPRAY_OFFSET], h))
  }

  /** Hops change the two hop bytes alone. */
  lemma CopyBytes(origin: Bytes, h: nat)
    requires |origin| > SPRAY_OFFSET && Alive(origin, h)
    ensures |Copy(origin, h)| == |origin|
    ensures forall k :: 0 <= k < |origin| && k != TTL_OFFSET && k != SPRAY_OFFSET ==>
              Copy(origin, h)[k] == origin[k]
  {
  }

  /** What a copy is: every byte but the two hop bytes is the sender's, the
      parsed packet and its signature check are the sender's, the budgets are T0 - h and
      floor(L0 / 2^h), and it has travelled at most seven hops. */
  lemma CopyMeans(origin: Bytes, h: nat, verify: Verifier)
    requires ParsePacket(origin).Ok? && Alive(origin, h)
    ensures var m0 := ParsePacket(origin).value;
            var copy := Copy(origin, h);
            && ParsePacket(copy) == Ok(m0.(raw := copy, ttl := m0.ttl - h, sprayL := Halve(m0.sprayL, h)))
            && Halve(m0.sprayL, h) == m0.sprayL as nat / Pow2(h)
            && (CheckSignature(verify, ParsePacket(copy).value) <==> CheckSignature(verify, m0))
            && (forall k :: 0 <= k < |origin| && k != TTL_OFFSET && k != SPRAY_OFFSET ==> copy[k] == origin[k])
            && h <= 7
  {
    var m0 := ParsePacket(origin).value;
    CopyBytes(origin, h);
    RewriteKeepsSignature(origin, m0.ttl - h, Halve(m0.sprayL, h), verify);
    HalveIsDivision(m0.sprayL, h);
    ByteBudgetHops(m0.sprayL, h);
  }

  /** The number of hops a message of ttl T and spray_L L can make: min(T - 1, floor(log2 L)), and
      none if one of them is 0. */
  function Reach(origin: Bytes): nat
    requires |origin| > SPRAY_OFFSET
  {
    if origin[TTL_OFFSET] == 0 || origin[SPRAY_OFFSET] == 0 then 0
    else
      var byTtl: nat := origin[TTL_OFFSET] - 1;
      var bySpray := Log2Floor(origin[SPRAY_OFFSET]);
      if byTtl <= bySpray then byTtl else bySpray
  }

  lemma AliveWithinReach(origin: Bytes, h: nat)
    requires |origin| > SPRAY_OFFSET && origin[TTL_OFFSET] >= 1 && origin[SPRAY_OFFSET] >= 1
    ensures Alive(origin, h) <==> h <= Reach(origin)
  {
    SurvivesUpToLog(origin[SPRAY_OFFSET], h);
  }

  /** One byte of copies reaches seven hops at most. */
  lemma ReachAtMostSeven(origin: Bytes)
    requires |origin| > SPRAY_OFFSET
    ensures Reach(origin) <= 7
  {
    if origin[TTL_OFFSET] >= 1 && origin[SPRAY_OFFSET] >= 1 {
      AliveWithinReach(origin, Reach(origin));
      ByteBudgetHops(origin[SPRAY_OFFSET], Reach(origin));
    }
  }
}
