/** The relay pipeline as it is implemented: one object that drives its four stateful stages in
    order. It computes PipelineHistory.Process. */
module RelayPipelines {
  import opened Attestation
  import opened ByteCodec
  import opened Deduplication
  import opened Packet
  import opened PipelineHistory
  import opened RateLimiting
  import opened Signing
  import opened SprayAndWait
  import opened Verdicts
  import opened Wrappers
  import PipelineOutcomes
  import RateLimitHistory

  class RelayPipeline {
    const verify: Verifier
    const dedup: DedupCache
    const rateLimiter: RateLimiter
    const attestation: AttestationCache?
    const sprayBudget: SprayBudgetTracker

    ghost predicate Valid()
      reads dedup, rateLimiter
    {
      dedup.Valid() && rateLimiter.Valid()
    }

    ghost function Current(): (s: State)
      reads dedup, rateLimiter, attestation, sprayBudget
    {
      State(
        dedup.log,
        rateLimiter.history,
        if attestation == null then None else Some(attestation.expiry),
        sprayBudget.expected)
    }

    constructor (verify: Verifier, attestation: AttestationCache?)
      ensures Valid() && fresh(dedup) && fresh(rateLimiter) && fresh(sprayBudget)
      ensures this.verify == verify && this.attestation == attestation
      ensures Current() == Fresh(attestation != null).(
                           tickets := if attestation == null then None else Some(attestation.expiry))
    {
      this.verify := verify;
      dedup := new DedupCache();
      rateLimiter := new RateLimiter();
      this.attestation := attestation;
      sprayBudget := new SprayBudgetTracker();
    }

    /** Steps 7 and 8, on a message whose signature verified. */
    method ProcessVerified(msg: Message, clock: Readings) returns (outcome: Outcome)
      requires WellFormed(msg)
      modifies attestation, sprayBudget
      ensures (Current(), outcome) == Verified(old(Current()), msg, clock)
      ensures MadeVerifierWork(outcome) && !(outcome.Drop? && outcome.reason.BadSignature?)
      ensures !ReachedBudget(outcome) ==> unchanged(sprayBudget)
    {
      if attestation != null {
        var problem := attestation.Check(msg.senderKey, clock.ticket);
        if problem.Some? {
          return Drop(problem.value);
        }
      }
      var inflated := sprayBudget.Check(msg.msgId, msg.sprayL);
      if inflated.Some? {
        return Drop(inflated.value);
      }
      return Deliver(msg, OnwardCopy(msg.raw, msg));
    }

    /** Steps 5 and 6, on a message that passed deduplication. */
    method ProcessAdmitted(msg: Message, clock: Readings) returns (outcome: Outcome)
      requires WellFormed(msg) && rateLimiter.Valid()
      requires RateLimitHistory.Follows(rateLimiter.history, clock.rate)
      modifies rateLimiter, attestation, sprayBudget
      ensures rateLimiter.Valid()
      ensures (Current(), outcome) == Admitted(verify, old(Current()), msg, clock) && PassedDedup(outcome)
      ensures !MadeVerifierWork(outcome) ==> attestation == null || unchanged(attestation)
      ensures !ReachedBudget(outcome) ==> unchanged(sprayBudget)
    {
      var verdict := rateLimiter.Check(msg.ephemId, clock.rate);
      if verdict != Accept {
        return Drop(RateLimited(verdict));
      }
      if !CheckSignature(verify, msg) {
        return Drop(BadSignature);
      }
      outcome := ProcessVerified(msg, clock);
    }

    /** Step 4, on a message with an acceptable timestamp. */
    method ProcessStamped(msg: Message, clock: Readings, falseHit: bool) returns (outcome: Outcome)
      requires WellFormed(msg)
      requires Valid() && clock.Ordered() && UpTo(Current(), clock.stamp)
      modifies dedup, rateLimiter, attestation, sprayBudget
      ensures Valid()
      ensures (Current(), outcome) == Stamped(verify, old(Current()), msg, clock, falseHit)
      ensures !PassedDedup(outcome) ==> unchanged(rateLimiter)
      ensures !MadeVerifierWork(outcome) ==> attestation == null || unchanged(attestation)
      ensures !ReachedBudget(outcome) ==> unchanged(sprayBudget)
    {
      var duplicate := dedup.Check(msg.msgId, clock.dedup, falseHit);
      if duplicate.Some? {
        return Drop(duplicate.value);
      }
      outcome := ProcessAdmitted(msg, clock);
    }

    /** Steps 2 and 3, on a message that parsed. */
    method ProcessParsed(msg: Message, clock: Readings, falseHit: bool) returns (outcome: Outcome)
      requires WellFormed(msg)
      requires Valid() && clock.Ordered() && UpTo(Current(), clock.stamp)
      modifies dedup, rateLimiter, attestation, sprayBudget
      ensures Valid()
      ensures (Current(), outcome) == Parsed(verify, old(Current()), msg, clock, falseHit)
      ensures !PassedDedup(outcome) ==> unchanged(rateLimiter)
      ensures !MadeVerifierWork(outcome) ==> attestation == null || unchanged(attestation)
      ensures !ReachedBudget(outcome) ==> unchanged(sprayBudget)
    {
      var early := CheckTtl(msg);
      if early.Some? {
        return Drop(early.value);
      }
      early := CheckTimestamp(msg, clock.stamp);
      if early.Some? {
        return Drop(early.value);
      }
      outcome := ProcessStamped(msg, clock, falseHit);
    }

    /** One packet, at a moment not before anything the pipeline has seen. What a dropped packet
        never reached is untouched, object by object. */
    method Process(raw: Bytes, clock: Readings, falseHit: bool) returns (outcome: Outcome)
      requires Valid() && clock.Ordered() && UpTo(Current(), clock.stamp)
      modifies dedup, rateLimiter, attestation, sprayBudget
      ensures Valid()
      ensures (Current(), outcome) == PipelineHistory.Process(verify, old(Current()), raw, clock, falseHit)
      ensures outcome.Deliver? ==>
                139 <= |raw| <= 460 && verify(raw[16..48], raw[..68] + raw[70..|raw| - 64], raw[|raw| - 64..])
      ensures !PassedDedup(outcome) ==> unchanged(rateLimiter)
      ensures !MadeVerifierWork(outcome) ==> attestation == null || unchanged(attestation)
      ensures !ReachedBudget(outcome) ==> unchanged(sprayBudget)
    {
      var early := CheckSize(raw);
      if early.Some? {
        return Drop(early.value);
      }
      var parsed := ParsePacket(raw);
      if parsed.Err? {
        return Drop(Malformed(parsed.error));
      }
      PipelineOutcomes.DeliveredIff(verify, Current(), raw, clock, falseHit);
      outcome := ProcessParsed(parsed.value, clock, falseHit);
    }

    /** A packet arrives, or a decoded token is handed to the cache. */
    method Handle(e: Event) returns (outcome: Option<Outcome>)
      requires Valid() && UpTo(Current(), Start(e))
      requires e.Receive? ==> e.clock.Ordered()
      modifies dedup, rateLimiter, attestation, sprayBudget
      ensures Valid()
      ensures Current() == Step(verify, old(Current()), e)
      ensures e.Receive? ==>
                outcome == Some(PipelineHistory.Process(verify, old(Current()), e.raw, e.clock, e.falseHit).1)
    {
      match e
      case Receive(raw, clock, falseHit) =>
        var o := Process(raw, clock, falseHit);
        outcome := Some(o);
      case Provision(key, exp, now) =>
        if attestation != null {
          var accepted := attestation.AddToken(key, exp, now);
        }
        outcome := None;
    }
  }

  /** The outcomes so far are those of the run. */
  ghost predicate Matches(verify: Verifier, attested: bool, events: seq<Event>, outcomes: seq<Option<Outcome>>) {
    && |outcomes| <= |events|
    && forall i :: 0 <= i < |outcomes| && events[i].Receive? ==>
         outcomes[i] == Some(OutcomeAt(verify, attested, events, i))
  }

  lemma MatchesOneMore(
    verify: Verifier, attested: bool, events: seq<Event>, outcomes: seq<Option<Outcome>>, outcome: Option<Outcome>)
    requires Matches(verify, attested, events, outcomes) && |outcomes| < |events|
    requires events[|outcomes|].Receive? ==> outcome == Some(OutcomeAt(verify, attested, events, |outcomes|))
    ensures Matches(verify, attested, events, outcomes + [outcome])
  {
  }

  lemma BeforeEvent(verify: Verifier, attested: bool, events: seq<Event>, i: nat)
    requires ClockRuns(events) && i < |events|
    ensures UpTo(Run(verify, attested, events[..i]), Start(events[i]))
    ensures events[i].Receive? ==> events[i].clock.Ordered()
    ensures Run(verify, attested, events[..i + 1]) == Step(verify, Run(verify, attested, events[..i]), events[i])
  {
    RunSnoc(verify, attested, events[..i], events[i]);
    assert events[..i] + [events[i]] == events[..i + 1];
    ClockPrefix(events, i);
    RunSound(verify, attested, events[..i], Start(events[i]));
  }

  /** A whole run of a fresh pipeline, tokens arriving in between: every packet meets the outcome
      that PipelineHistory gives it. */
  method RunPipeline(verify: Verifier, attested: bool, events: seq<Event>) returns (outcomes: seq<Option<Outcome>>)
    requires ClockRuns(events)
    ensures |outcomes| == |events| && Matches(verify, attested, events, outcomes)
  {
    var cache: AttestationCache? := null;
    if attested {
      cache := new AttestationCache();
    }
    var pipeline := new RelayPipeline(verify, cache);
    outcomes := [];
    for i := 0 to |events|
      invariant fresh(pipeline.dedup) && fresh(pipeline.rateLimiter) && fresh(pipeline.sprayBudget)
      invariant pipeline.attestation != null ==> fresh(pipeline.attestation)
      invariant pipeline.verify == verify
      invariant pipeline.Valid() && pipeline.Current() == Run(verify, attested, events[..i])
      invariant |outcomes| == i && Matches(verify, attested, events, outcomes)
    {
      BeforeEvent(verify, attested, events, i);
      var outcome := pipeline.Handle(events[i]);
      MatchesOneMore(verify, attested, events, outcomes, outcome);
      outcomes := outcomes + [outcome];
    }
  }
}
