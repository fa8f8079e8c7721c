/** A simulated device: one pipeline, its neighbours, and an outbox standing for its transport. */
module Devices {
  import opened ByteCodec
  import opened Network
  import opened PipelineHistory
  import opened RelayPipelines
  import opened Signing
  import opened SprayAndWait
  import opened Wrappers

  const BROADCAST_ZONE := 0xFFFF

  /** Every simulated device injects under this ephemeral id and message type. */
  const SIM_EPHEM_ID: Bytes := [2, 2, 2, 2, 2, 2, 2, 2, 2, 2, 2, 2, 2, 2, 2, 2]
  const SIM_MSG_TYPE := 1

  class Device {
    const zoneId: int
    const identity: DeviceIdentity
    const scheme: SignatureScheme
    const pipeline: RelayPipeline
    const neighbors: seq<nat>
    var outbox: seq<Flight>

    ghost predicate Valid()
      reads this, pipeline.dedup, pipeline.rateLimiter
    {
      pipeline.Valid() && pipeline.verify == scheme.verify && pipeline.attestation == null
    }

    constructor (zoneId: int, identity: DeviceIdentity, scheme: SignatureScheme, neighbors: seq<nat>)
      ensures Valid() && outbox == [] && pipeline.Current() == Fresh(false)
      ensures this.zoneId == zoneId && this.identity == identity && this.scheme == scheme && this.neighbors == neighbors
      ensures fresh(pipeline.dedup) && fresh(pipeline.rateLimiter) && fresh(pipeline.sprayBudget)
    {
      this.zoneId := zoneId;
      this.identity := identity;
      this.scheme := scheme;
      this.neighbors := neighbors;
      outbox := [];
      pipeline := new RelayPipeline(scheme.verify, null);
    }

    /** One copy to every neighbour. */
    method Spray(raw: Bytes)
      modifies this`outbox
      ensures outbox == old(outbox) + ToAll(neighbors, raw)
    {
      for i := 0 to |neighbors|
        invariant outbox == old(outbox) + ToAll(neighbors[..i], raw)
      {
        assert neighbors[..i + 1][..i] == neighbors[..i];
        outbox := outbox + [Flight(neighbors[i], raw)];
      }
      assert neighbors[..|neighbors|] == neighbors;
    }

    /** Runs the pipeline; on delivery sends one copy to every neighbour while both budgets last.
        The device's step in the network. */
    method HandleLocal(raw: Bytes, clock: Readings, falseHit: bool) returns (delivered: bool)
      requires Valid() && clock.Ordered() && UpTo(pipeline.Current(), clock.stamp)
      modifies this, pipeline.dedup, pipeline.rateLimiter, pipeline.sprayBudget
      ensures Valid()
      ensures var (next, o) := Process(scheme.verify, old(pipeline.Current()), raw, clock, falseHit);
              && pipeline.Current() == next
              && outbox == old(outbox) + Sends(o, neighbors)
              && (delivered <==> o.Deliver? && (o.message.zoneId == zoneId || o.message.zoneId == 65_535))
    {
      var outcome := pipeline.Process(raw, clock, falseHit);
      if outcome.Drop? {
        return false;
      }
      var msg := outcome.message;
      delivered := msg.zoneId == zoneId || msg.zoneId == BROADCAST_ZONE;
      var copies := SplitCopies(msg.sprayL);
      if copies.forward > 0 && msg.ttl > 1 {
        var newRaw := RewriteTtlAndSpray(msg.raw, msg.ttl - 1, copies.forward);
        Spray(newRaw);
      }
    }

    /** Builds, signs and handles a message of this device's own. */
    method Inject(payload: Bytes, ttl: int, sprayL: int, zone: int, msgId: Bytes, clock: Readings, falseHit: bool)
      returns (r: Result<bool>)
      requires Valid() && clock.Ordered() && UpTo(pipeline.Current(), clock.stamp)
      modifies this, pipeline.dedup, pipeline.rateLimiter, pipeline.sprayBudget
      ensures Valid()
      ensures var built := BuildPacket(scheme, identity, msgId, [2, 2, 2, 2, 2, 2, 2, 2, 2, 2, 2, 2, 2, 2, 2, 2],
                                       clock.stamp.Floor, ttl, sprayL, zone, 1, payload);
              && (r.Ok? <==> built.Ok?)
              && (built.Ok? ==>
                    var (next, o) := Process(scheme.verify, old(pipeline.Current()), built.value, clock, falseHit);
                    && pipeline.Current() == next && outbox == old(outbox) + Sends(o, neighbors)
                    && (r.value <==> o.Deliver? && (o.message.zoneId == zoneId || o.message.zoneId == 65_535)))
              && (built.Err? ==>
                    r.error == built.error && pipeline.Current() == old(pipeline.Current()) && outbox == old(outbox))
    {
      var built := BuildPacket(scheme, identity, msgId, SIM_EPHEM_ID, clock.stamp.Floor, ttl, sprayL, zone,
                               SIM_MSG_TYPE, payload);
      if built.Err? {
        return Err(built.error);
      }
      var delivered := HandleLocal(built.value, clock, falseHit);
      return Ok(delivered);
    }
  }
}
