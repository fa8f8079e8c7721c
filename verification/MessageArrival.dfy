/** What one message meets at a device, among whatever else the device handles. */
module MessageArrival {
  import opened ByteCodec
  import opened Copies
  import opened Packet
  import opened PipelineHistory
  import opened PipelineRuns
  import opened Signing
  import opened Verdicts
  import opened Wrappers
  import Dedup = DedupHistory
  import Rate = RateLimitHistory

  /** The packet passes every check that does not depend on time or on what a device has seen. */
  ghost predicate Sendable(verify: Verifier, origin: Bytes) {
    && CheckSize(origin).None?
    && ParsePacket(origin).Ok?
    && var m := ParsePacket(origin).value;
       m.ttl >= 1 && m.sprayL >= 1 && CheckSignature(verify, m)
  }

  /** A packet built and signed by a device is sendable. */
  lemma BuiltIsSendable(
    scheme: SignatureScheme, id: DeviceIdentity, msgId: Bytes, ephemId: Bytes, timestamp: int, ttl: int,
    sprayL: int, zoneId: int, msgType: int, payload: Bytes)
    requires SignsFor(scheme, id) && ttl >= 1 && sprayL >= 1 && |payload| <= 321
    requires BuildPacket(scheme, id, msgId, ephemId, timestamp, ttl, sprayL, zoneId, msgType, payload).Ok?
    ensures Sendable(scheme.verify,
                     BuildPacket(scheme, id, msgId, ephemId, timestamp, ttl, sprayL, zoneId, msgType, payload).value)
  {
    ParseUndoesBuild(scheme, id, msgId, ephemId, timestamp, ttl, sprayL, zoneId, msgType, payload);
  }

  /** The clock reading accepts the packet's timestamp. */
  predicate Timely(origin: Bytes, clock: Readings)
    requires ParsePacket(origin).Ok?
  {
    CheckTimestamp(ParsePacket(origin).value, clock.stamp).None?
  }

  /** The rate limiter has room for the sender. */
  ghost predicate Room(s: State, origin: Bytes, clock: Readings)
    requires ParsePacket(origin).Ok?
  {
    Rate.Owed(Rate.Of(s.limiter, ParsePacket(origin).value.ephemId), clock.rate) == Accept
  }

  function Id(origin: Bytes): Bytes
    requires ParsePacket(origin).Ok?
  {
    ParsePacket(origin).value.msgId
  }

  /** The packet carries this message id. */
  predicate Bears(raw: Bytes, id: Bytes) {
    ParsePacket(raw).Ok? && ParsePacket(raw).value.msgId == id
  }

  lemma CopyBears(origin: Bytes, h: nat)
    requires ParsePacket(origin).Ok? && Alive(origin, h)
    ensures Bears(Copy(origin, h), Id(origin))
  {
    CopyMeans(origin, h, (k, r, s) => true);
  }

  // ----- the state of one device -----

  /** The device has not seen this id. */
  ghost predicate Untouched(s: State, id: Bytes) {
    !Dedup.Remembered(s.dedup, id) && id !in s.budgets
  }

  lemma AdmitRemembers(log: Dedup.Log, id: Bytes, now: real)
    requires Dedup.InBounds(log)
    ensures Dedup.Remembered(Dedup.Admit(log, id, now), id)
  {
    var next := Dedup.Admit(log, id, now);
    var i := |log.passed|;
    assert next.passed[i] == Dedup.Seen(id, now) && Dedup.Current(next.passed, i, now);
  }

  lemma AdmitIgnoresOthers(log: Dedup.Log, other: Bytes, now: real, id: Bytes)
    requires Dedup.InBounds(log) && other != id && !Dedup.Remembered(log, id)
    ensures !Dedup.Remembered(Dedup.Admit(log, other, now), id)
  {
    var next := Dedup.Admit(log, other, now);
    forall i | next.base <= i < |next.passed| ensures next.passed[i].id != id {
      if i < |log.passed| {
        assert next.passed[i] == log.passed[i];
      }
    }
  }

  /** A device that has not seen the message and has room for its sender accepts any live copy, and
      remembers it. */
  lemma FirstSight(verify: Verifier, s: State, origin: Bytes, h: nat, clock: Readings)
    requires Sendable(verify, origin) && Alive(origin, h) && Timely(origin, clock)
    requires Dedup.InBounds(s.dedup) && s.tickets.None? && Untouched(s, Id(origin)) && Room(s, origin, clock)
    ensures var (next, o) := Process(verify, s, Copy(origin, h), clock, false);
            && o.Deliver? && ParsePacket(Copy(origin, h)) == Ok(o.message)
            && Dedup.Remembered(next.dedup, Id(origin))
  {
    CopyMeans(origin, h, verify);
    AdmitRemembers(s.dedup, Id(origin), clock.dedup);
  }

  /** A device that remembers the message drops every further copy and changes nothing. */
  lemma SecondSight(verify: Verifier, s: State, origin: Bytes, h: nat, clock: Readings)
    requires Sendable(verify, origin) && Alive(origin, h) && Timely(origin, clock)
    requires Dedup.InBounds(s.dedup) && Dedup.Remembered(s.dedup, Id(origin))
    ensures Process(verify, s, Copy(origin, h), clock, false) == (s, Drop(Duplicate))
  {
    CopyMeans(origin, h, verify);
  }

  /** Packets with other ids leave the device untouched by this one. */
  lemma OtherSight(verify: Verifier, s: State, raw: Bytes, clock: Readings, falseHit: bool, id: Bytes)
    requires Dedup.InBounds(s.dedup) && Untouched(s, id) && !Bears(raw, id)
    ensures Untouched(Process(verify, s, raw, clock, falseHit).0, id)
  {
    ProcessHistories(verify, s, raw, clock, falseHit);
    BudgetsNext(verify, s, Receive(raw, clock, falseHit));
    if PassedDedup(Process(verify, s, raw, clock, falseHit).1) {
      AdmitIgnoresOthers(s.dedup, ParsePacket(raw).value.msgId, clock.dedup, id);
    }
  }

  // ----- the log of one device -----

  /** No packet with this id ever arrived. */
  ghost predicate Unheard(log: seq<Event>, id: Bytes) {
    forall i :: 0 <= i < |log| && log[i].Receive? ==> !Bears(log[i].raw, id)
  }

  ghost predicate DeliveredAt(verify: Verifier, log: seq<Event>, id: Bytes, i: nat) {
    i < |log| && log[i].Receive? && Bears(log[i].raw, id) && OutcomeAt(verify, false, log, i).Deliver?
  }

  /** A packet with this id was delivered at some point. */
  ghost predicate Delivered(verify: Verifier, log: seq<Event>, id: Bytes) {
    exists i: nat :: DeliveredAt(verify, log, id, i)
  }

  lemma {:induction false} UnheardUntouched(verify: Verifier, log: seq<Event>, id: Bytes)
    requires Unheard(log, id)
    ensures Untouched(Run(verify, false, log), id)
  {
    if log != [] {
      var init, last := log[..|log| - 1], log[|log| - 1];
      UnheardUntouched(verify, init, id);
      if last.Receive? {
        OtherSight(verify, Run(verify, false, init), last.raw, last.clock, last.falseHit, id);
      }
    }
  }

  lemma UnheardIsNotDelivered(verify: Verifier, log: seq<Event>, id: Bytes)
    requires Unheard(log, id)
    ensures !Delivered(verify, log, id)
  {
  }

  lemma DeliveredStays(verify: Verifier, log: seq<Event>, id: Bytes, e: Event)
    requires Delivered(verify, log, id)
    ensures Delivered(verify, log + [e], id)
  {
    var i: nat :| DeliveredAt(verify, log, id, i);
    assert (log + [e])[..i] == log[..i];
    assert DeliveredAt(verify, log + [e], id, i);
  }
}
