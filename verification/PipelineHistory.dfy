/** The relay pipeline as a state machine over whole runs, and what every run obeys. */
module PipelineHistory {
  import opened Attestation
  import opened ByteCodec
  import opened Packet
  import opened Signing
  import opened SprayAndWait
  import opened Verdicts
  import opened Wrappers
  import Dedup = DedupHistory
  import Rate = RateLimitHistory

  /** The four clock readings one packet may cause: steps 3, 4, 5 and 7. */
  datatype Readings = Readings(stamp: real, dedup: real, rate: real, ticket: real) {

    predicate Ordered() {
      0.0 <= stamp <= dedup <= rate <= ticket
    }
  }

  /** The state the pipeline owns, in pipeline order. Without an organiser key there are no tickets. */
  datatype State = State(dedup: Dedup.Log, limiter: Rate.History, tickets: Option<Tickets>, budgets: Budgets)

  function Fresh(attested: bool): State {
    State(Dedup.EMPTY_LOG, [], if attested then Some(map[]) else None, map[])
  }

  datatype Outcome =
    | Drop(reason: DropReason)
    | Deliver(message: Message, forward: Option<Bytes>)

  /** Steps 7 and 8, for a message whose signature verified. */
  function Verified(s: State, m: Message, clock: Readings): (r: (State, Outcome))
    requires WellFormed(m)
    ensures r.0.dedup == s.dedup && r.0.limiter == s.limiter
    ensures r.0.tickets.Some? == s.tickets.Some?
    ensures r.1.Deliver? ==> r.1.message == m
  {
    var problem := if s.tickets.Some? then TicketProblem(s.tickets.value, m.senderKey, clock.ticket) else None;
    var s1 :=
      if s.tickets.Some? then s.(tickets := Some(TicketsAfterCheck(s.tickets.value, m.senderKey, clock.ticket)))
      else s;
    if problem.Some? then (s1, Drop(problem.value))
    else
      var (budgets, within) := BudgetStep(s1.budgets, m.msgId, m.sprayL);
      var s2 := s1.(budgets := budgets);
      if !within then (s2, Drop(SprayInflated))
      else (s2, Deliver(m, OnwardCopy(m.raw, m)))
  }

  /** Steps 5 to 8, for a message that passed deduplication. */
  ghost function Admitted(verify: Verifier, s: State, m: Message, clock: Readings): (r: (State, Outcome))
    requires WellFormed(m)
    ensures r.0.dedup == s.dedup
    ensures r.0.tickets.Some? == s.tickets.Some?
    ensures r.1.Deliver? ==> r.1.message == m
  {
    var verdict := Rate.Owed(Rate.Of(s.limiter, m.ephemId), clock.rate);
    var s1 := s.(limiter := s.limiter + [Rate.Check(m.ephemId, clock.rate, verdict)]);
    if verdict != Accept then (s1, Drop(RateLimited(verdict)))
    else if !CheckSignature(verify, m) then (s1, Drop(BadSignature))
    else Verified(s1, m, clock)
  }

  /** Steps 4 to 8, for a message with an acceptable timestamp. */
  ghost function Stamped(verify: Verifier, s: State, m: Message, clock: Readings, falseHit: bool): (r: (State, Outcome))
    requires WellFormed(m) && Dedup.InBounds(s.dedup)
    ensures Dedup.InBounds(r.0.dedup)
    ensures r.0.tickets.Some? == s.tickets.Some?
    ensures r.1.Deliver? ==> r.1.message == m
  {
    if Dedup.Remembered(s.dedup, m.msgId) || falseHit then (s, Drop(Duplicate))
    else Admitted(verify, s.(dedup := Dedup.Admit(s.dedup, m.msgId, clock.dedup)), m, clock)
  }

  /** Steps 2 to 8, for a message that parsed. */
  ghost function Parsed(verify: Verifier, s: State, m: Message, clock: Readings, falseHit: bool): (r: (State, Outcome))
    requires WellFormed(m) && Dedup.InBounds(s.dedup)
    ensures Dedup.InBounds(r.0.dedup)
    ensures r.0.tickets.Some? == s.tickets.Some?
    ensures r.1.Deliver? ==> r.1.message == m
  {
    if CheckTtl(m).Some? then (s, Drop(CheckTtl(m).value))
    else if CheckTimestamp(m, clock.stamp).Some? then (s, Drop(CheckTimestamp(m, clock.stamp).value))
    else Stamped(verify, s, m, clock, falseHit)
  }

  /** One packet through all steps. */
  ghost function Process(verify: Verifier, s: State, raw: Bytes, clock: Readings, falseHit: bool): (r: (State, Outcome))
    requires Dedup.InBounds(s.dedup)
    ensures Dedup.InBounds(r.0.dedup)
    ensures r.0.tickets.Some? == s.tickets.Some?
    ensures r.1.Deliver? ==> ParsePacket(raw) == Ok(r.1.message)
  {
    if CheckSize(raw).Some? then (s, Drop(CheckSize(raw).value))
    else if ParsePacket(raw).Err? then (s, Drop(Malformed(ParsePacket(raw).error)))
    else Parsed(verify, s, ParsePacket(raw).value, clock, falseHit)
  }

  // ----- how far a packet got -----

  /** Passed step 5, so that step 6 verified a signature. */
  predicate MadeVerifierWork(o: Outcome) {
    o.Deliver? || o.reason.BadSignature? || o.reason.NoTicket? || o.reason.TicketExpired? || o.reason.SprayInflated?
  }

  /** Passed step 4. */
  predicate PassedDedup(o: Outcome) {
    o.Deliver? || o.reason.RateLimited? || MadeVerifierWork(o)
  }

  /** Passed steps 1 to 7. */
  predicate ReachedBudget(o: Outcome) {
    o.Deliver? || o.reason.SprayInflated?
  }

  // ----- runs -----

  datatype Event =
    | Receive(raw: Bytes, clock: Readings, falseHit: bool)
    | Provision(senderKey: Bytes, exp: int, now: real)   // a decoded token reaches the cache

  function Start(e: Event): real {
    if e.Receive? then e.clock.stamp else e.now
  }

  function End(e: Event): real {
    if e.Receive? then e.clock.ticket else e.now
  }

  /** The device's clock never runs backwards. */
  ghost predicate ClockRuns(events: seq<Event>) {
    && (forall i :: 0 <= i < |events| ==>
          if events[i].Receive? then events[i].clock.Ordered() else events[i].now >= 0.0)
    && (forall i, j :: 0 <= i < j < |events| ==> End(events[i]) <= Start(events[j]))
  }

  ghost function Step(verify: Verifier, s: State, e: Event): (next: State)
    requires Dedup.InBounds(s.dedup)
    ensures Dedup.InBounds(next.dedup)
    ensures next.tickets.Some? == s.tickets.Some?
  {
    match e
    case Receive(raw, clock, falseHit) => Process(verify, s, raw, clock, falseHit).0
    case Provision(key, exp, now) =>
      if s.tickets.Some? then s.(tickets := Some(TicketsAfterAdd(s.tickets.value, key, exp, now))) else s
  }

  ghost function Run(verify: Verifier, attested: bool, events: seq<Event>): (s: State)
    ensures Dedup.InBounds(s.dedup)
    ensures s.tickets.Some? == attested
  {
    if events == [] then Fresh(attested)
    else Step(verify, Run(verify, attested, events[..|events| - 1]), events[|events| - 1])
  }

  /** What became of the packet received as event i. */
  ghost function OutcomeAt(verify: Verifier, attested: bool, events: seq<Event>, i: nat): (o: Outcome)
    requires i < |events| && events[i].Receive?
  {
    Process(verify, Run(verify, attested, events[..i]), events[i].raw, events[i].clock, events[i].falseHit).1
  }

  lemma RunSnoc(verify: Verifier, attested: bool, events: seq<Event>, e: Event)
    ensures Run(verify, attested, events + [e]) == Step(verify, Run(verify, attested, events), e)
  {
    assert (events + [e])[..|events|] == events;
  }

  lemma ClockPrefix(events: seq<Event>, n: nat)
    requires ClockRuns(events) && n <= |events|
    ensures ClockRuns(events[..n])
  {
  }

  /** Both histories end no later than t. */
  predicate UpTo(s: State, t: real) {
    Dedup.Follows(s.dedup, t) && Rate.Follows(s.limiter, t)
  }

  /** Both histories are in order and end no later than t. */
  ghost predicate Sound(s: State, t: real) {
    Dedup.Consistent(s.dedup) && Rate.Lawful(s.limiter) && UpTo(s, t)
  }

  lemma RateSound(h: Rate.History, ephemId: Bytes, now: real)
    requires Rate.Lawful(h) && Rate.Follows(h, now)
    ensures var next := h + [Rate.Check(ephemId, now, Rate.Owed(Rate.Of(h, ephemId), now))];
            Rate.Lawful(next) && Rate.Follows(next, now)
  {
    var next := h + [Rate.Check(ephemId, now, Rate.Owed(Rate.Of(h, ephemId), now))];
    assert next[..|next| - 1] == h;
  }

  /** What one packet does to the two histories. */
  lemma ProcessHistories(verify: Verifier, s: State, raw: Bytes, clock: Readings, falseHit: bool)
    requires Dedup.InBounds(s.dedup)
    ensures var (next, o) := Process(verify, s, raw, clock, falseHit);
            if PassedDedup(o) then
              && ParsePacket(raw).Ok?
              && var m := ParsePacket(raw).value;
                 && CheckTimestamp(m, clock.stamp).None?
                 && !Dedup.Remembered(s.dedup, m.msgId)
                 && next.dedup == Dedup.Admit(s.dedup, m.msgId, clock.dedup)
                 && var verdict := Rate.Owed(Rate.Of(s.limiter, m.ephemId), clock.rate);
                    && next.limiter == s.limiter + [Rate.Check(m.ephemId, clock.rate, verdict)]
                    && (MadeVerifierWork(o) <==> verdict == Accept)
            else next == s && !MadeVerifierWork(o)
  {
  }

  lemma StepSound(verify: Verifier, s: State, e: Event)
    requires Sound(s, Start(e))
    requires if e.Receive? then e.clock.Ordered() else e.now >= 0.0
    ensures Sound(Step(verify, s, e), End(e))
  {
    if e.Receive? {
      ProcessHistories(verify, s, e.raw, e.clock, e.falseHit);
      if PassedDedup(Process(verify, s, e.raw, e.clock, e.falseHit).1) {
        var m := ParsePacket(e.raw).value;
        Dedup.AdmitConsistent(s.dedup, m.msgId, e.clock.dedup);
        assert Dedup.Latest(Dedup.Admit(s.dedup, m.msgId, e.clock.dedup).passed) == e.clock.dedup;
        RateSound(s.limiter, m.ephemId, e.clock.rate);
      }
    }
  }

  lemma {:induction false} RunSound(verify: Verifier, attested: bool, events: seq<Event>, t: real)
    requires ClockRuns(events) && t >= 0.0
    requires events != [] ==> End(events[|events| - 1]) <= t
    ensures Sound(Run(verify, attested, events), t)
  {
    if events != [] {
      var init, last := events[..|events| - 1], events[|events| - 1];
      ClockPrefix(events, |events| - 1);
      RunSound(verify, attested, init, Start(last));
      StepSound(verify, Run(verify, attested, init), last);
    }
  }
}
