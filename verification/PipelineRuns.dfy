/** What holds over every run of the relay pipeline, across its stages. */
module PipelineRuns {
  import opened Attestation
  import opened ByteCodec
  import opened Packet
  import opened PipelineHistory
  import opened Signing
  import opened SprayAndWait
  import opened Verdicts
  import opened Wrappers
  import Dedup = DedupHistory
  import Rate = RateLimitHistory

  /** A run: the verifier in use, whether tickets are demanded, and the events in order. */
  datatype Trace = Trace(verify: Verifier, attested: bool, events: seq<Event>) {

    ghost function At(n: nat): (s: State)
      requires n <= |events|
      ensures Dedup.InBounds(s.dedup)
    {
      Run(verify, attested, events[..n])
    }

    ghost function Result(i: nat): Outcome
      requires i < |events| && events[i].Receive?
    {
      OutcomeAt(verify, attested, events, i)
    }

    /** Event i is a packet that parses; what was parsed. */
    predicate Parses(i: nat)
      requires i < |events|
    {
      events[i].Receive? && ParsePacket(events[i].raw).Ok?
    }

    function Parsed(i: nat): Message
      requires i < |events| && Parses(i)
    {
      ParsePacket(events[i].raw).value
    }

    ghost predicate PassesDedup(i: nat)
      requires i < |events|
    {
      events[i].Receive? && PassedDedup(Result(i))
    }

    ghost predicate VerifiesSignature(i: nat)
      requires i < |events|
    {
      events[i].Receive? && MadeVerifierWork(Result(i))
    }

    ghost predicate ReachesBudget(i: nat)
      requires i < |events|
    {
      events[i].Receive? && ReachedBudget(Result(i))
    }

    ghost predicate Delivers(i: nat)
      requires i < |events|
    {
      events[i].Receive? && Result(i).Deliver?
    }

    /** How many of the first n events passed step 4. */
    ghost function Passes(n: nat): nat
      requires n <= |events|
    {
      if n == 0 then 0 else Passes(n - 1) + if PassesDedup(n - 1) then 1 else 0
    }

    /** How many of the first n events had a signature verified for this ephemeral id with the
        rate limiter's clock reading in [lo, hi]. */
    ghost function Verifications(n: nat, ephemId: Bytes, lo: real, hi: real): nat
      requires n <= |events|
    {
      if n == 0 then 0
      else Verifications(n - 1, ephemId, lo, hi)
           + if VerifiesSignature(n - 1) && Parses(n - 1) && Parsed(n - 1).ephemId == ephemId
                && lo <= events[n - 1].clock.rate <= hi then 1 else 0
    }

    /** The expiry of the sender's latest token among the first n events that had a 32-byte key and had
        not expired when it came. */
    function LatestTicket(n: nat, senderKey: Bytes): Option<int>
      requires n <= |events|
    {
      if n == 0 then None
      else
        var e := events[n - 1];
        if e.Provision? && e.senderKey == senderKey && |senderKey| == 32 && e.exp > e.now.Floor then Some(e.exp)
        else LatestTicket(n - 1, senderKey)
    }

    /** The spray_L of the first copy of a message among the first n events to pass steps 1 to 7. */
    ghost function FirstSpray(n: nat, msgId: Bytes): Option<byte>
      requires n <= |events|
    {
      if n == 0 then None
      else if FirstSpray(n - 1, msgId).Some? then FirstSpray(n - 1, msgId)
      else if ReachesBudget(n - 1) && Parses(n - 1) && Parsed(n - 1).msgId == msgId then Some(Parsed(n - 1).sprayL)
      else None
    }

    lemma AtNext(n: nat)
      requires n < |events|
      ensures At(n + 1) == Step(verify, At(n), events[n])
      ensures events[n].Receive? ==>
                (At(n + 1), Result(n)) == Process(verify, At(n), events[n].raw, events[n].clock, events[n].falseHit)
    {
      assert events[..n + 1][..n] == events[..n];
    }

    lemma SoundAt(n: nat, t: real)
      requires ClockRuns(events) && n <= |events| && t >= 0.0
      requires n > 0 ==> End(events[n - 1]) <= t
      ensures Sound(At(n), t)
    {
      ClockPrefix(events, n);
      RunSound(verify, attested, events[..n], t);
    }
  }

  // ----- at most once -----

  /** The dedup log counts the passes, and only grows. */
  lemma {:induction false} PassedGrows(t: Trace, m: nat, n: nat)
    requires m <= n <= |t.events|
    ensures |t.At(n).dedup.passed| == t.Passes(n)
    ensures t.At(m).dedup.passed <= t.At(n).dedup.passed
  {
    if n > 0 {
      var k := n - 1;
      PassedGrows(t, if m <= k then m else k, k);
      t.AtNext(k);
      if t.events[k].Receive? {
        ProcessHistories(t.verify, t.At(k), t.events[k].raw, t.events[k].clock, t.events[k].falseHit);
      }
    }
  }

  /** What passed between two points of a run was admitted by an event between them. */
  lemma {:induction false} PassedCameFrom(t: Trace, m: nat, n: nat, x: nat) returns (k: nat)
    requires m <= n <= |t.events|
    requires |t.At(m).dedup.passed| <= x < |t.At(n).dedup.passed|
    ensures m <= k < n && t.PassesDedup(k) && t.Parses(k)
    ensures t.Parsed(k).msgId == t.At(n).dedup.passed[x].id
  {
    k := n - 1;
    t.AtNext(k);
    PassedGrows(t, m, k);
    if t.events[k].Receive? {
      ProcessHistories(t.verify, t.At(k), t.events[k].raw, t.events[k].clock, t.events[k].falseHit);
    }
    if x < |t.At(k).dedup.passed| {
      k := PassedCameFrom(t, m, k, x);
    }
  }

  /** The ids, other than the given one, that passed step 4 strictly between events i and j. */
  ghost function OthersBetween(t: Trace, i: nat, j: nat, msgId: Bytes): set<Bytes>
    requires j <= |t.events|
  {
    set k: nat | i < k < j && t.PassesDedup(k) && t.Parses(k) && t.Parsed(k).msgId != msgId :: t.Parsed(k).msgId
  }

  lemma PassedBetween(t: Trace, i: nat, j: nat, a: nat, x: nat)
    requires i < j <= |t.events|
    requires |t.At(i + 1).dedup.passed| == a + 1 && a < x < |t.At(j).dedup.passed|
    requires t.At(j).dedup.passed[x].id != t.At(j).dedup.passed[a].id
    ensures t.At(j).dedup.passed[x].id in OthersBetween(t, i, j, t.At(j).dedup.passed[a].id)
  {
    var k := PassedCameFrom(t, i + 1, j, x);
    assert i < k < j && t.PassesDedup(k) && t.Parses(k);
  }

  /** A block of distinct passes right after event i names that many ids that passed before j. */
  lemma BlockBetween(t: Trace, i: nat, j: nat, a: nat)
    requires i < j <= |t.events|
    requires |t.At(i + 1).dedup.passed| == a + 1 && a + Dedup.CAPACITY < |t.At(j).dedup.passed|
    requires Dedup.DistinctFrom(t.At(j).dedup.passed[a..a + Dedup.CAPACITY + 1], 0)
    ensures |OthersBetween(t, i, j, t.At(j).dedup.passed[a].id)| >= Dedup.CAPACITY
  {
    var passed := t.At(j).dedup.passed;
    var others := OthersBetween(t, i, j, passed[a].id);
    forall x | a < x < |passed| && passed[x].id != passed[a].id ensures passed[x].id in others {
      PassedBetween(t, i, j, a, x);
    }
    Dedup.BlockSize(passed, a, others);
  }

  /** Two packets with the same message id and timestamp never both pass step 4 unless at least
      10,000 other ids passed it in between: ageing out of the cache takes more than 600 seconds,
      and by then the timestamp is no longer acceptable. */
  lemma AtMostOnce(t: Trace, i: nat, j: nat)
    requires ClockRuns(t.events)
    requires i < j < |t.events|
    requires t.PassesDedup(i) && t.PassesDedup(j)
    requires t.Parses(i) && t.Parses(j)
    requires t.Parsed(i).msgId == t.Parsed(j).msgId && t.Parsed(i).timestamp == t.Parsed(j).timestamp
    ensures |OthersBetween(t, i, j, t.Parsed(i).msgId)| >= 10_000
  {
    var first, second := t.events[i], t.events[j];
    var id := t.Parsed(i).msgId;
    t.AtNext(i);
    t.AtNext(j);
    ProcessHistories(t.verify, t.At(i), first.raw, first.clock, first.falseHit);
    ProcessHistories(t.verify, t.At(j), second.raw, second.clock, second.falseHit);
    PassedGrows(t, i + 1, j);
    var log := t.At(j).dedup;
    var a := |t.At(i).dedup.passed|;
    assert t.At(i + 1).dedup.passed[a] == Dedup.Seen(id, first.clock.dedup);
    assert log.passed[a] == Dedup.Seen(id, first.clock.dedup);
    t.SoundAt(j, Start(second));
    assert Dedup.Latest(log.passed) <= second.clock.stamp;
    TimestampWindowSpan(t.Parsed(i), first.clock.stamp, t.Parsed(j), second.clock.stamp);
    Dedup.ForgottenMeansOvertaken(log, a);
    BlockBetween(t, i, j, a);
  }

  // ----- the cost of cryptography -----

  lemma VerificationsNext(t: Trace, k: nat, ephemId: Bytes, lo: real, hi: real)
    requires k < |t.events|
    ensures Rate.CountIn(Rate.Accepts(Rate.Of(t.At(k + 1).limiter, ephemId)), lo, hi)
            == Rate.CountIn(Rate.Accepts(Rate.Of(t.At(k).limiter, ephemId)), lo, hi)
               + if t.VerifiesSignature(k) && t.Parses(k) && t.Parsed(k).ephemId == ephemId
                    && lo <= t.events[k].clock.rate <= hi then 1 else 0
  {
    t.AtNext(k);
    if t.events[k].Receive? {
      ProcessHistories(t.verify, t.At(k), t.events[k].raw, t.events[k].clock, t.events[k].falseHit);
      if t.PassesDedup(k) {
        var e := t.Parsed(k).ephemId;
        var at := t.events[k].clock.rate;
        var check := Rate.Check(e, at, Rate.Owed(Rate.Of(t.At(k).limiter, e), at));
        Rate.AcceptsAfter(t.At(k).limiter, check, ephemId, lo, hi);
      }
    }
  }

  /** Signature verifications are exactly the rate limiter's accepts. */
  lemma {:induction false} VerificationsAreAccepts(t: Trace, n: nat, ephemId: Bytes, lo: real, hi: real)
    requires n <= |t.events|
    ensures t.Verifications(n, ephemId, lo, hi) == Rate.CountIn(Rate.Accepts(Rate.Of(t.At(n).limiter, ephemId)), lo, hi)
  {
    if n == 0 {
      assert t.At(0).limiter == [];
    } else {
      var k := n - 1;
      VerificationsAreAccepts(t, k, ephemId, lo, hi);
      VerificationsNext(t, k, ephemId, lo, hi);
    }
  }

  /** Whatever arrives, at most ten signatures per ephemeral id are verified in any closed
      ten-second interval of rate-limiter clock readings. */
  lemma CryptoWorkBound(t: Trace, n: nat, ephemId: Bytes, start: real)
    requires ClockRuns(t.events) && n <= |t.events|
    ensures t.Verifications(n, ephemId, start, start + 10.0) <= 10
  {
    VerificationsAreAccepts(t, n, ephemId, start, start + 10.0);
    if n > 0 {
      t.SoundAt(n, if End(t.events[n - 1]) >= 0.0 then End(t.events[n - 1]) else 0.0);
    } else {
      t.SoundAt(0, 0.0);
    }
    Rate.WindowBound(t.At(n).limiter, ephemId, start);
  }

  /** A drop leaves everything owned by later steps as it was. */
  lemma DropFreezesLaterState(verify: Verifier, s: State, e: Event)
    requires Dedup.InBounds(s.dedup) && e.Receive?
    ensures var (next, o) := Process(verify, s, e.raw, e.clock, e.falseHit);
            && (!PassedDedup(o) ==> next == s)
            && (!MadeVerifierWork(o) ==> next.tickets == s.tickets && next.budgets == s.budgets)
            && (o.Drop? && o.reason.BadSignature? ==> next.tickets == s.tickets && next.budgets == s.budgets)
            && (!ReachedBudget(o) ==> next.budgets == s.budgets)
  {
  }

  // ----- attestation -----

  /** The lazily expiring map holds, for every sender, the latest accepted token or has dropped
      it because it had expired. */
  ghost predicate TicketsCurrent(tickets: Tickets, t: Trace, n: nat, now: real)
    requires n <= |t.events|
  {
    forall key ::
      if key in tickets then t.LatestTicket(n, key) == Some(tickets[key])
      else t.LatestTicket(n, key) == None || t.LatestTicket(n, key).value <= now.Floor
  }

  /** What one event does to the tickets. */
  lemma TicketsNext(verify: Verifier, s: State, e: Event)
    requires Dedup.InBounds(s.dedup) && s.tickets.Some?
    ensures var next := Step(verify, s, e).tickets;
            match e
            case Provision(key, exp, now) => next == Some(TicketsAfterAdd(s.tickets.value, key, exp, now))
            case Receive(raw, clock, falseHit) =>
              || next == s.tickets
              || (ParsePacket(raw).Ok?
                  && next == Some(TicketsAfterCheck(s.tickets.value, ParsePacket(raw).value.senderKey, clock.ticket)))
  {
  }

  lemma {:induction false} TicketsTrackLatest(t: Trace, n: nat, now: real)
    requires ClockRuns(t.events) && n <= |t.events| && t.attested
    requires n > 0 ==> End(t.events[n - 1]) <= now
    ensures t.At(n).tickets.Some? && TicketsCurrent(t.At(n).tickets.value, t, n, now)
  {
    if n > 0 {
      var k := n - 1;
      TicketsTrackLatest(t, k, Start(t.events[k]));
      t.AtNext(k);
      TicketsNext(t.verify, t.At(k), t.events[k]);
    }
  }

  /** Step 7 on one packet. */
  lemma TicketDecides(verify: Verifier, s: State, raw: Bytes, clock: Readings, falseHit: bool)
    requires Dedup.InBounds(s.dedup) && s.tickets.Some?
    requires var o := Process(verify, s, raw, clock, falseHit).1;
             MadeVerifierWork(o) && o != Drop(BadSignature)
    ensures ParsePacket(raw).Ok?
    ensures ReachedBudget(Process(verify, s, raw, clock, falseHit).1) <==>
            TicketProblem(s.tickets.value, ParsePacket(raw).value.senderKey, clock.ticket) == None
  {
  }

  /** Step 7 over runs: a packet whose signature verified gets past it iff the most recently
      accepted token of its sender expires after the clock reading, lazy deletion or not. */
  lemma TicketLaw(t: Trace, i: nat)
    requires ClockRuns(t.events) && t.attested && i < |t.events|
    requires t.VerifiesSignature(i) && t.Result(i) != Drop(BadSignature)
    ensures t.Parses(i)
    ensures t.ReachesBudget(i) <==>
            && t.LatestTicket(i, t.Parsed(i).senderKey).Some?
            && t.LatestTicket(i, t.Parsed(i).senderKey).value > t.events[i].clock.ticket.Floor
  {
    t.AtNext(i);
    TicketsTrackLatest(t, i, Start(t.events[i]));
    TicketDecides(t.verify, t.At(i), t.events[i].raw, t.events[i].clock, t.events[i].falseHit);
    var key := t.Parsed(i).senderKey;
    var tickets := t.At(i).tickets.value;
    assert if key in tickets then t.LatestTicket(i, key) == Some(tickets[key])
           else t.LatestTicket(i, key) == None || t.LatestTicket(i, key).value <= Start(t.events[i]).Floor;
  }

  // ----- spray budgets -----

  lemma BudgetsNext(verify: Verifier, s: State, e: Event)
    requires Dedup.InBounds(s.dedup)
    ensures Step(verify, s, e).budgets ==
            if e.Receive? && ReachedBudget(Process(verify, s, e.raw, e.clock, e.falseHit).1) && ParsePacket(e.raw).Ok?
            then BudgetStep(s.budgets, ParsePacket(e.raw).value.msgId, ParsePacket(e.raw).value.sprayL).0
            else s.budgets
  {
  }

  lemma BudgetsAt(t: Trace, k: nat)
    requires k < |t.events|
    ensures t.At(k + 1).budgets ==
            if t.ReachesBudget(k) && t.Parses(k)
            then BudgetStep(t.At(k).budgets, t.Parsed(k).msgId, t.Parsed(k).sprayL).0
            else t.At(k).budgets
  {
    t.AtNext(k);
    BudgetsNext(t.verify, t.At(k), t.events[k]);
  }

  ghost predicate KeepsFirst(t: Trace, n: nat, msgId: Bytes)
    requires n <= |t.events|
  {
    t.FirstSpray(n, msgId) == if msgId in t.At(n).budgets then Some(t.At(n).budgets[msgId]) else None
  }

  lemma FirstStays(t: Trace, k: nat, msgId: Bytes)
    requires k < |t.events| && KeepsFirst(t, k, msgId)
    ensures KeepsFirst(t, k + 1, msgId)
  {
    BudgetsAt(t, k);
  }

  lemma {:induction false} BudgetsAreFirst(t: Trace, n: nat, msgId: Bytes)
    requires n <= |t.events|
    ensures t.FirstSpray(n, msgId) == if msgId in t.At(n).budgets then Some(t.At(n).budgets[msgId]) else None
  {
    if n > 0 {
      var k := n - 1;
      BudgetsAreFirst(t, k, msgId);
      FirstStays(t, k, msgId);
    }
  }

  /** A packet dropped because its spray_L was inflated starts no ban and ends none, for anybody. */
  lemma InflationBansNobody(
    verify: Verifier, s: State, raw: Bytes, clock: Readings, falseHit: bool, ephemId: Bytes)
    requires Dedup.InBounds(s.dedup)
    requires Process(verify, s, raw, clock, falseHit).1 == Drop(SprayInflated)
    ensures Rate.BannedUntil(Rate.Of(Process(verify, s, raw, clock, falseHit).0.limiter, ephemId))
            == Rate.BannedUntil(Rate.Of(s.limiter, ephemId))
  {
    ProcessHistories(verify, s, raw, clock, falseHit);
    var check := Rate.Check(ParsePacket(raw).value.ephemId, clock.rate, Accept);
    Rate.OfSnoc(s.limiter, check, ephemId);
    Rate.Snoc(Rate.Of(s.limiter, ephemId), check);
  }

  /** Delivery at step 8, and the onward copy that goes with it. */
  lemma DeliveryMeans(verify: Verifier, s: State, e: Event)
    requires Dedup.InBounds(s.dedup) && e.Receive?
    requires Process(verify, s, e.raw, e.clock, e.falseHit).1.Deliver?
    ensures ParsePacket(e.raw).Ok?
    ensures var (next, o) := Process(verify, s, e.raw, e.clock, e.falseHit);
            var m := ParsePacket(e.raw).value;
            && o == Deliver(m, OnwardCopy(m.raw, m))
            && m.msgId in next.budgets && m.sprayL <= next.budgets[m.msgId]
            && (m.msgId in s.budgets ==> next.budgets[m.msgId] == s.budgets[m.msgId])
  {
  }

  /** The onward copy differs from the packet in ttl and spray_L only: one hop less, and the
      peer's half of the copies. */
  lemma OnwardCopyMeans(m: Message)
    requires WellFormed(m) && ParsePacket(m.raw) == Ok(m) && OnwardCopy(m.raw, m).Some?
    ensures ParsePacket(OnwardCopy(m.raw, m).value).Ok?
    ensures var copy := ParsePacket(OnwardCopy(m.raw, m).value).value;
            && copy == m.(raw := copy.raw, ttl := copy.ttl, sprayL := copy.sprayL)
            && 1 <= copy.ttl == m.ttl - 1
            && 1 <= copy.sprayL == m.sprayL / 2
  {
    RewriteAgreesWithOnwardCopy(m);
    RewriteKeepsSignature(m.raw, m.ttl - 1, SplitCopies(m.sprayL).forward, (k, r, s) => true);
  }

  /** No delivered packet carries more copies than the first one of its message to pass steps 1
      to 7, and what is forwarded carries at most half of that. */
  lemma SprayLaw(t: Trace, i: nat)
    requires i < |t.events| && t.Delivers(i)
    ensures t.Parses(i) && t.Result(i).message == t.Parsed(i)
    ensures var m := t.Parsed(i);
            var first := t.FirstSpray(i + 1, m.msgId);
            && first.Some? && m.sprayL <= first.value
            && (t.FirstSpray(i, m.msgId).Some? ==> first == t.FirstSpray(i, m.msgId))
            && (t.Result(i).forward.Some? ==>
                  && ParsePacket(t.Result(i).forward.value).Ok?
                  && 1 <= ParsePacket(t.Result(i).forward.value).value.sprayL <= first.value / 2)
  {
    t.AtNext(i);
    var m := t.Parsed(i);
    DeliveryMeans(t.verify, t.At(i), t.events[i]);
    BudgetsAreFirst(t, i, m.msgId);
    BudgetsAreFirst(t, i + 1, m.msgId);
    if t.Result(i).forward.Some? {
      OnwardCopyMeans(m);
    }
  }
}
