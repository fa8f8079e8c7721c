/** What becomes of one packet, said about its bytes. */
module PipelineOutcomes {
  import opened ByteCodec
  import opened Packet
  import opened PipelineHistory
  import opened Verdicts
  import opened Wrappers
  import Dedup = DedupHistory
  import Rate = RateLimitHistory

  /** Seconds since the time the packet names. */
  function Age(raw: Bytes, clock: Readings): int
    requires |raw| >= 68
  {
    clock.stamp.Floor - (16_777_216 * raw[64] as int + 65_536 * raw[65] as int + 256 * raw[66] as int + raw[67] as int)
  }

  /** Every packet that is dropped before it counts as seen, in the order of the checks. */
  lemma EarlyOutcome(verify: Verifier, s: State, raw: Bytes, clock: Readings, falseHit: bool)
    requires Dedup.InBounds(s.dedup)
    ensures var o := Process(verify, s, raw, clock, falseHit).1;
            && (o == Drop(TooSmall) <==> |raw| < 131)
            && (o == Drop(TooLarge) <==> |raw| > 460)
            && (o == Drop(Malformed(TooShort)) <==> 131 <= |raw| < 139)
            && (139 <= |raw| <= 460 ==>
                  && (o == Drop(Malformed(LengthMismatch)) <==> 256 * raw[73] as int + raw[74] as int != |raw| - 139)
                  && (256 * raw[73] as int + raw[74] as int == |raw| - 139 ==>
                        && (o == Drop(TtlExhausted) <==> raw[68] == 0)
                        && (o == Drop(TooOld) <==> raw[68] >= 1 && Age(raw, clock) > 300)
                        && (o == Drop(TooFarInFuture) <==> raw[68] >= 1 && Age(raw, clock) < -30)
                        && (o == Drop(Duplicate) <==>
                              && raw[68] >= 1 && -30 <= Age(raw, clock) <= 300
                              && (Dedup.Remembered(s.dedup, raw[..16]) || falseHit))))
  {
    ParsesIff(raw);
  }

  /** The packet is new: right size, honest length, a hop left, a timely timestamp, not seen before. */
  ghost predicate New(s: State, raw: Bytes, clock: Readings, falseHit: bool) {
    && 139 <= |raw| <= 460 && 256 * raw[73] as int + raw[74] as int == |raw| - 139
    && raw[68] >= 1 && -30 <= Age(raw, clock) <= 300
    && !Dedup.Remembered(s.dedup, raw[..16]) && !falseHit
  }

  /** Of the new packets, those whose sender has room make the verifier work; it sees the sender's
      key, every byte but the two hop bytes and the signature, and the signature. */
  lemma WorkOutcome(verify: Verifier, s: State, raw: Bytes, clock: Readings, falseHit: bool)
    requires Dedup.InBounds(s.dedup)
    ensures var o := Process(verify, s, raw, clock, falseHit).1;
            && (PassedDedup(o) <==> New(s, raw, clock, falseHit))
            && (MadeVerifierWork(o) <==>
                  New(s, raw, clock, falseHit) && Rate.Owed(Rate.Of(s.limiter, raw[48..64]), clock.rate) == Accept)
            && (MadeVerifierWork(o) ==>
                  (o == Drop(BadSignature) <==>
                     !verify(raw[16..48], raw[..68] + raw[70..|raw| - 64], raw[|raw| - 64..])))
  {
    ParsesIff(raw);
  }

  /** Step 7 and the spray budget, on a packet whose signature verified. */
  lemma LateOutcome(verify: Verifier, s: State, raw: Bytes, clock: Readings, falseHit: bool)
    requires Dedup.InBounds(s.dedup)
    requires var o := Process(verify, s, raw, clock, falseHit).1; MadeVerifierWork(o) && o != Drop(BadSignature)
    ensures |raw| >= 139
    ensures var o := Process(verify, s, raw, clock, falseHit).1;
            var key, id := raw[16..48], raw[..16];
            && (o == Drop(NoTicket) <==> s.tickets.Some? && key !in s.tickets.value)
            && (o == Drop(TicketExpired) <==>
                  s.tickets.Some? && key in s.tickets.value && s.tickets.value[key] <= clock.ticket.Floor)
            && (o == Drop(SprayInflated) ==> id in s.budgets && raw[69] > s.budgets[id])
            && (ReachedBudget(o) <==>
                  s.tickets.Some? ==> key in s.tickets.value && s.tickets.value[key] > clock.ticket.Floor)
            && (o.Deliver? <==>
                  && (s.tickets.Some? ==> key in s.tickets.value && s.tickets.value[key] > clock.ticket.Floor)
                  && (id in s.budgets ==> raw[69] <= s.budgets[id]))
  {
    ParsesIff(raw);
  }

  /** A packet is delivered iff it is between 131 and 460 bytes long and says so itself, has a hop
      left, is at most 300 seconds old and at most 30 ahead, is new, meets a limiter with room,
      carries the sender's signature of all but the hop bytes, and has ticket and budget in order. */
  lemma DeliveredIff(verify: Verifier, s: State, raw: Bytes, clock: Readings, falseHit: bool)
    requires Dedup.InBounds(s.dedup)
    ensures Process(verify, s, raw, clock, falseHit).1.Deliver? <==>
            && 131 <= |raw| <= 460
            && |raw| >= 139 && 256 * raw[73] as int + raw[74] as int == |raw| - 139
            && raw[68] >= 1
            && -30 <= clock.stamp.Floor - (16_777_216 * raw[64] as int + 65_536 * raw[65] as int
                                           + 256 * raw[66] as int + raw[67] as int) <= 300
            && !Dedup.Remembered(s.dedup, raw[..16]) && !falseHit
            && Rate.Owed(Rate.Of(s.limiter, raw[48..64]), clock.rate) == Accept
            && verify(raw[16..48], raw[..68] + raw[70..|raw| - 64], raw[|raw| - 64..])
            && (s.tickets.Some? ==>
                  raw[16..48] in s.tickets.value && s.tickets.value[raw[16..48]] > clock.ticket.Floor)
            && (raw[..16] in s.budgets ==> raw[69] <= s.budgets[raw[..16]])
  {
    WorkOutcome(verify, s, raw, clock, falseHit);
    if MadeVerifierWork(Process(verify, s, raw, clock, falseHit).1)
       && Process(verify, s, raw, clock, falseHit).1 != Drop(BadSignature) {
      LateOutcome(verify, s, raw, clock, falseHit);
    }
  }
}
