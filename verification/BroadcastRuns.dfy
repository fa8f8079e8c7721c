/** Every plan is how some run goes, so plans say exactly how far a message can get and must get. */
module BroadcastRuns {
  import opened Broadcasts
  import opened ByteCodec
  import opened Copies
  import opened MessageArrival
  import opened Network
  import opened Packet
  import opened PipelineHistory
  import opened SpreadPlans
  import opened Topologies
  import opened Verdicts
  import Dedup = DedupHistory
  import Rate = RateLimitHistory

  // ----- a run for every plan -----

  /** Every reading of the clock is t. */
  function AtTime(t: real): Readings {
    Readings(t, t, t, t)
  }

  ghost predicate AllAt(log: seq<Event>, t: real) {
    forall i :: 0 <= i < |log| ==> log[i].Receive? && log[i].clock == AtTime(t)
  }

  /** A device that has the message remembers it, any other has handled nothing at all. */
  ghost predicate LogTidy(c: Cast, t: real, log: seq<Event>, has: bool)
    requires c.Valid()
  {
    AllAt(log, t) && if has then Dedup.Remembered(Run(c.w.verify, false, log).dedup, c.MsgId()) else log == []
  }

  ghost predicate Tidy(c: Cast, t: real, logs: map<nat, seq<Event>>, hops: Hops)
    requires c.Valid()
  {
    forall d: nat :: d < c.w.n ==> d in logs && LogTidy(c, t, logs[d], d in hops)
  }

  lemma TidyAt(c: Cast, t: real, logs: map<nat, seq<Event>>, hops: Hops, d: nat)
    requires c.Valid() && Tidy(c, t, logs, hops) && d < c.w.n
    ensures d in logs && LogTidy(c, t, logs[d], d in hops)
  {
  }

  /** One more event at a device that has the message from now on. */
  lemma StaysTidy(c: Cast, t: real, logs: map<nat, seq<Event>>, hops: Hops, d: nat, log: seq<Event>, h: nat)
    requires c.Valid() && Tidy(c, t, logs, hops) && LogTidy(c, t, log, true)
    ensures Tidy(c, t, logs[d := log], hops[d := h])
    ensures d in hops ==> Tidy(c, t, logs[d := log], hops)
  {
    var next, more := logs[d := log], hops[d := h];
    forall i: nat | i < c.w.n ensures i in next && LogTidy(c, t, next[i], i in more) {
      TidyAt(c, t, logs, hops, i);
    }
  }

  lemma NobodyIsBanned(ephemId: Bytes, t: real)
    requires t >= 0.0
    ensures Rate.Owed(Rate.Of([], ephemId), t) == Accept
  {
    assert Rate.Of([], ephemId) == [];
  }

  lemma NewIsTidy(c: Cast, t: real, h: nat)
    requires c.Valid() && t >= 0.0 && Timely(c.origin, AtTime(t)) && Alive(c.origin, h)
    ensures c.Welcomes([], AtTime(t), false)
    ensures LogTidy(c, t, [] + [Receive(Copy(c.origin, h), AtTime(t), false)], true)
  {
    var none: seq<Event> := [];
    var start := Run(c.w.verify, false, none);
    UnheardIsNotDelivered(c.w.verify, none, c.MsgId());
    UnheardUntouched(c.w.verify, none, c.MsgId());
    NobodyIsBanned(ParsePacket(c.origin).value.ephemId, t);
    FirstSight(c.w.verify, start, c.origin, h, AtTime(t));
    RunSnoc(c.w.verify, false, none, Receive(Copy(c.origin, h), AtTime(t), false));
  }

  lemma AgainIsTidy(c: Cast, t: real, log: seq<Event>, h: nat)
    requires c.Valid() && Timely(c.origin, AtTime(t)) && Alive(c.origin, h) && LogTidy(c, t, log, true)
    requires Delivered(c.w.verify, log, c.MsgId())
    ensures c.Welcomes(log, AtTime(t), false)
    ensures LogTidy(c, t, log + [Receive(Copy(c.origin, h), AtTime(t), false)], true)
  {
    SecondSight(c.w.verify, Run(c.w.verify, false, log), c.origin, h, AtTime(t));
    RunSnoc(c.w.verify, false, log, Receive(Copy(c.origin, h), AtTime(t), false));
  }

  lemma StepThenRest(c: Cast, net: Net, first: Action, rest: seq<Action>) returns (actions: seq<Action>)
    requires c.Valid() && c.w.Covers(net) && c.w.Enabled(net, first) && c.Fair(net, first)
    requires c.FairRun(c.w.Act(net, first), rest)
    ensures c.FairRun(net, actions) && c.w.Exec(net, actions) == c.w.Exec(c.w.Act(net, first), rest)
  {
    actions := [first] + rest;
    assert actions[1..] == rest;
  }

  lemma AgainStaysTidy(c: Cast, t: real, net: Net, hops: Hops, i: nat, h: nat)
    requires c.Valid() && c.w.Covers(net) && i < |net.inflight|
    requires Tidy(c, t, net.logs, hops) && net.inflight[i].dest in hops && net.inflight[i].dest in net.logs
    requires Alive(c.origin, h) && net.inflight[i].raw == Copy(c.origin, h)
    requires var log := net.logs[net.inflight[i].dest];
             && Delivered(c.w.verify, log, c.MsgId()) && c.Welcomes(log, AtTime(t), false)
             && LogTidy(c, t, log + [Receive(Copy(c.origin, h), AtTime(t), false)], true)
    ensures Tidy(c, t, c.w.Act(net, Arrive(i, AtTime(t), false)).logs, hops)
  {
    var f, a := net.inflight[i], Arrive(i, AtTime(t), false);
    AgainShape(c, net, a, h);
    StaysTidy(c, t, net.logs, hops, f.dest, net.logs[f.dest] + [Receive(f.raw, AtTime(t), false)], hops[f.dest]);
  }

  /** A copy that has a taker already arrives again. */
  lemma TakeAgain(c: Cast, t: real, net: Net, hops: Hops, i: nat) returns (a: Action)
    requires c.Valid() && c.w.Covers(net) && Timely(c.origin, AtTime(t))
    requires c.Spreads(net, hops) && Tidy(c, t, net.logs, hops)
    requires i < |net.inflight| && Bears(net.inflight[i].raw, c.MsgId()) && net.inflight[i].dest in hops
    ensures a == Arrive(i, AtTime(t), false) && c.Fair(net, a)
    ensures c.Spreads(c.w.Act(net, a), hops) && Tidy(c, t, c.w.Act(net, a).logs, hops)
    ensures c.w.Act(net, a).inflight == RemoveAt(net.inflight, i)
  {
    a := Arrive(i, AtTime(t), false);
    var f := net.inflight[i];
    var h := IsLiveCopy(c, net.inflight, hops, i);
    ServedDelivered(c, net.logs, hops, f.dest);
    TidyAt(c, t, net.logs, hops, f.dest);
    AgainIsTidy(c, t, net.logs[f.dest], h);
    AgainKeeps(c, net, hops, a);
    AgainStaysTidy(c, t, net, hops, i, h);
  }

  lemma SentStaysAlive(c: Cast, hops: Hops, via: nat, f: Flight)
    requires c.Valid() && c.SentBy(hops, via, f)
    ensures hops[via] < Reach(c.origin)
  {
    AliveWithinReach(c.origin, hops[via] + 1);
  }

  /** The taker of a copy in flight is a device that has the message, once the plan is complete. */
  lemma TakerHasIt(c: Cast, net: Net, hops: Hops, i: nat)
    requires c.Valid() && c.FlightsFit(net.inflight, hops) && Spent(c.w.adj, Reach(c.origin), hops)
    requires i < |net.inflight| && Bears(net.inflight[i].raw, c.MsgId())
    ensures net.inflight[i].dest in hops
  {
    var via := WhoSent(c, net.inflight, hops, i);
    SentStaysAlive(c, hops, via, net.inflight[i]);
  }

  ghost predicate Complete(c: Cast, t: real, end: Net, hops: Hops)
    requires c.Valid()
  {
    c.Spreads(end, hops) && Tidy(c, t, end.logs, hops) && c.Settled(end)
  }

  lemma {:induction false} DrainCopies(c: Cast, t: real, net: Net, hops: Hops) returns (actions: seq<Action>)
    requires c.Valid() && c.w.Covers(net) && Timely(c.origin, AtTime(t))
    requires c.Spreads(net, hops) && Tidy(c, t, net.logs, hops) && Spent(c.w.adj, Reach(c.origin), hops)
    ensures c.FairRun(net, actions)
    ensures Complete(c, t, c.w.Exec(net, actions), hops)
    decreases |net.inflight|
  {
    if c.Settled(net) {
      actions := [];
    } else {
      var i: nat :| i < |net.inflight| && Bears(net.inflight[i].raw, c.MsgId());
      TakerHasIt(c, net, hops, i);
      var first := TakeAgain(c, t, net, hops, i);
      var rest := DrainCopies(c, t, c.w.Act(net, first), hops);
      actions := StepThenRest(c, net, first, rest);
    }
  }

  lemma SentIsCopy(c: Cast, hops: Hops, via: nat, f: Flight, h: nat)
    requires c.Valid() && c.SentBy(hops, via, f) && h == hops[via] + 1
    ensures Alive(c.origin, h) && f.raw == Copy(c.origin, h) && Bears(f.raw, c.MsgId())
  {
    CopyBears(c.origin, h);
  }

  lemma NothingHandled(c: Cast, t: real, net: Net, hops: Hops, d: nat)
    requires c.Valid() && Tidy(c, t, net.logs, hops) && d < c.w.n && d !in hops
    ensures d in net.logs && net.logs[d] == [] && Unheard(net.logs[d], c.MsgId())
  {
    TidyAt(c, t, net.logs, hops, d);
  }

  lemma PlannedStaysTidy(c: Cast, t: real, net: Net, hops: Hops, a: Action, h: nat)
    requires c.Valid() && c.w.Covers(net) && c.w.Enabled(net, a) && a.Arrive? && Alive(c.origin, h)
    requires Tidy(c, t, net.logs, hops) && net.inflight[a.index].dest in net.logs
    requires net.inflight[a.index].raw == Copy(c.origin, h)
    requires var log := net.logs[net.inflight[a.index].dest];
             && Unheard(log, c.MsgId()) && c.Welcomes(log, a.clock, a.falseHit)
             && LogTidy(c, t, log + [Receive(net.inflight[a.index].raw, a.clock, a.falseHit)], true)
    ensures Tidy(c, t, c.w.Act(net, a).logs, hops[net.inflight[a.index].dest := h])
  {
    FirstShape(c, net, a, h);
    var f := net.inflight[a.index];
    var log := net.logs[f.dest] + [Receive(f.raw, a.clock, a.falseHit)];
    StaysTidy(c, t, net.logs, hops, f.dest, log, h);
  }

  /** A device that waits for its planned copy takes it. */
  lemma TakePlanned(c: Cast, t: real, net: Net, hops: Hops, via: nat, h: nat, i: nat) returns (a: Action)
    requires c.Valid() && c.w.Covers(net) && t >= 0.0 && Timely(c.origin, AtTime(t))
    requires c.Spreads(net, hops) && Tidy(c, t, net.logs, hops) && i < |net.inflight|
    requires net.inflight[i].dest !in hops && c.SentBy(hops, via, net.inflight[i]) && h == hops[via] + 1
    ensures a == Arrive(i, AtTime(t), false) && c.Fair(net, a)
    ensures c.Spreads(c.w.Act(net, a), hops[net.inflight[i].dest := h])
    ensures Tidy(c, t, c.w.Act(net, a).logs, hops[net.inflight[i].dest := h])
  {
    a := Arrive(i, AtTime(t), false);
    var f := net.inflight[i];
    SentIsCopy(c, hops, via, f, h);
    NothingHandled(c, t, net, hops, f.dest);
    NewIsTidy(c, t, h);
    FirstKeeps(c, net, hops, a, via, h);
    PlannedStaysTidy(c, t, net, hops, a, h);
  }

  /** The planned copy for a neighbour of a device that has the message is in flight. */
  lemma PlannedIsInFlight(c: Cast, net: Net, hops: Hops, via: nat, d: nat) returns (i: nat)
    requires c.Valid() && c.AllFed(net.inflight, hops) && d !in hops
    requires via in hops && via in c.w.adj && d in c.w.adj[via] && hops[via] < Reach(c.origin)
    ensures i < |net.inflight| && net.inflight[i].dest == d && c.SentBy(hops, via, net.inflight[i])
  {
    AliveWithinReach(c.origin, hops[via] + 1);
    assert c.Fed(net.inflight, hops, via, d);
    i :| 0 <= i < |net.inflight| && net.inflight[i] == Flight(d, Copy(c.origin, hops[via] + 1));
  }

  /** One more device takes its planned copy. */
  lemma NextTake(c: Cast, t: real, net: Net, hops: Hops, plan: Hops) returns (a: Action, more: Hops)
    requires c.Valid() && c.w.Covers(net) && t >= 0.0 && Timely(c.origin, AtTime(t))
    requires c.Spreads(net, hops) && Tidy(c, t, net.logs, hops) && hops.Keys != plan.Keys
    requires IsPlan(c.w.adj, c.w.n, c.source, Reach(c.origin), plan) && PartOf(hops, plan)
    ensures c.w.Enabled(net, a) && c.Fair(net, a)
    ensures c.Spreads(c.w.Act(net, a), more) && Tidy(c, t, c.w.Act(net, a).logs, more)
    ensures PartOf(more, plan) && |plan.Keys - more.Keys| < |plan.Keys - hops.Keys|
  {
    var via, d := NextInPlan(c.w.adj, c.w.n, c.source, Reach(c.origin), plan, hops);
    var i := PlannedIsInFlight(c, net, hops, via, d);
    a := TakePlanned(c, t, net, hops, via, plan[d], i);
    PlanShrinks(hops, plan, d);
    more := hops[d := plan[d]];
  }

  lemma {:induction false} FollowPlan(c: Cast, t: real, net: Net, hops: Hops, plan: Hops) returns (actions: seq<Action>)
    requires c.Valid() && c.w.Covers(net) && t >= 0.0 && Timely(c.origin, AtTime(t))
    requires c.Spreads(net, hops) && Tidy(c, t, net.logs, hops)
    requires IsPlan(c.w.adj, c.w.n, c.source, Reach(c.origin), plan) && PartOf(hops, plan)
    ensures c.FairRun(net, actions)
    ensures Complete(c, t, c.w.Exec(net, actions), plan)
    decreases |plan.Keys - hops.Keys|
  {
    if hops.Keys == plan.Keys {
      assert hops == plan;
      actions := DrainCopies(c, t, net, plan);
    } else {
      var first, more := NextTake(c, t, net, hops, plan);
      var rest := FollowPlan(c, t, c.w.Act(net, first), more, plan);
      actions := StepThenRest(c, net, first, rest);
    }
  }

  lemma QuietIsUnknown(c: Cast)
    requires c.Valid()
    ensures c.Unknown(c.w.Quiet()) && c.source in c.w.Quiet().logs && c.w.Quiet().logs[c.source] == []
    ensures forall d: nat :: d < c.w.n ==> d in c.w.Quiet().logs && c.w.Quiet().logs[d] == []
  {
    forall d: nat | d < c.w.n ensures d in c.w.Quiet().logs && c.w.Quiet().logs[d] == [] {
      assert c.w.Quiet().logs[d] == NoEvents(d);
    }
  }

  lemma OneIsTidy(c: Cast, t: real, logs: map<nat, seq<Event>>, log: seq<Event>)
    requires c.Valid() && forall d: nat :: d < c.w.n ==> d in logs && logs[d] == []
    requires LogTidy(c, t, log, true)
    ensures Tidy(c, t, logs[c.source := log], map[c.source := 0])
  {
    var next, hops := logs[c.source := log], map[c.source := 0];
    forall d: nat | d < c.w.n ensures d in next && LogTidy(c, t, next[d], d in hops) {
      assert d == c.source || next[d] == [];
    }
  }

  lemma StartIsTidy(c: Cast, t: real, net: Net, clock: Readings)
    requires c.Valid() && c.w.Covers(net) && Alive(c.origin, 0) && c.source in net.logs
    requires forall d: nat :: d < c.w.n ==> d in net.logs && net.logs[d] == []
    requires c.Welcomes(net.logs[c.source], clock, false)
    requires LogTidy(c, t, net.logs[c.source] + [Receive(c.origin, clock, false)], true)
    ensures Tidy(c, t, c.w.Act(net, Inject(c.source, c.origin, clock, false)).logs, map[c.source := 0])
  {
    InjectShape(c, net, clock);
    OneIsTidy(c, t, net.logs, net.logs[c.source] + [Receive(c.origin, clock, false)]);
  }

  lemma SameTimeRuns(log: seq<Event>, t: real)
    requires AllAt(log, t) && t >= 0.0
    ensures ClockRuns(log)
  {
  }

  lemma CompleteMeans(c: Cast, t: real, end: Net, plan: Hops)
    requires c.Valid() && c.w.Covers(end) && t >= 0.0 && Complete(c, t, end, plan)
    ensures forall d: nat :: d < c.w.n ==> ClockRuns(end.logs[d]) && (Got(c, end, d) <==> d in plan)
  {
    SpreadEnds(c, end, plan);
    forall d: nat | d < c.w.n ensures ClockRuns(end.logs[d]) {
      TidyAt(c, t, end.logs, plan, d);
      SameTimeRuns(end.logs[d], t);
    }
  }

  lemma QuietStart(c: Cast, t: real)
    requires c.Valid() && t >= 0.0 && Timely(c.origin, AtTime(t))
    ensures c.Unknown(c.w.Quiet()) && c.source in c.w.Quiet().logs
    ensures c.Welcomes(c.w.Quiet().logs[c.source], AtTime(t), false)
    ensures var started := c.w.Act(c.w.Quiet(), Inject(c.source, c.origin, AtTime(t), false));
            c.Spreads(started, map[c.source := 0]) && Tidy(c, t, started.logs, map[c.source := 0])
  {
    var quiet, clock := c.w.Quiet(), AtTime(t);
    QuietIsUnknown(c);
    assert Copy(c.origin, 0) == c.origin;
    NewIsTidy(c, t, 0);
    InjectSpreads(c, quiet, clock);
    StartIsTidy(c, t, quiet, clock);
  }

  /** Every plan is how some run from a quiet network goes, at any acceptable time, with nothing lost
      and no check failing; so no condition short of being a plan holds of all runs. */
  lemma PlanIsSpread(c: Cast, t: real, plan: Hops) returns (actions: seq<Action>)
    requires c.Valid() && t >= 0.0 && Timely(c.origin, AtTime(t))
    requires IsPlan(c.w.adj, c.w.n, c.source, Reach(c.origin), plan)
    ensures Spread(c, c.w.Quiet(), AtTime(t), actions)
    ensures var end := AtEnd(c, c.w.Quiet(), AtTime(t), actions);
            forall d: nat :: d < c.w.n ==> ClockRuns(end.logs[d]) && (Got(c, end, d) <==> d in plan)
  {
    QuietStart(c, t);
    var started := c.w.Act(c.w.Quiet(), Inject(c.source, c.origin, AtTime(t), false));
    actions := FollowPlan(c, t, started, map[c.source := 0], plan);
    CompleteMeans(c, t, c.w.Exec(started, actions), plan);
  }

  /** There always is a run: from a quiet network, at any acceptable time, the message can be
      injected and every copy of it delivered. */
  lemma SomeSpread(c: Cast, t: real) returns (actions: seq<Action>)
    requires c.Valid() && t >= 0.0 && Timely(c.origin, AtTime(t))
    ensures Spread(c, c.w.Quiet(), AtTime(t), actions)
  {
    var plan := GrowsToPlan(c.w.adj, c.w.n, c.source, Reach(c.origin), map[c.source := 0]);
    actions := PlanIsSpread(c, t, plan);
  }

  // ----- what plans decide -----

  /** These are the devices of the network that a run of the message ends up at. */
  ghost predicate EndsUpAt(c: Cast, net: Net, clock: Readings, actions: seq<Action>, devices: set<nat>)
    requires c.Valid() && c.w.Covers(net)
  {
    && Spread(c, net, clock, actions)
    && forall d: nat :: d < c.w.n ==> (Got(c, AtEnd(c, net, clock, actions), d) <==> d in devices)
  }

  lemma PlanInside(adj: Topology, n: nat, source: nat, reach: nat, hops: Hops, devices: set<nat>)
    requires IsPlan(adj, n, source, reach, hops)
    requires forall d :: d in devices ==> d < n
    requires forall d: nat :: d < n ==> (d in devices <==> d in hops)
    ensures hops.Keys == devices
  {
  }

  lemma PlanOfSpread(c: Cast, net: Net, clock: Readings, actions: seq<Action>, devices: set<nat>) returns (hops: Hops)
    requires c.Valid() && c.w.Covers(net) && EndsUpAt(c, net, clock, actions, devices)
    requires forall d :: d in devices ==> d < c.w.n
    ensures IsPlan(c.w.adj, c.w.n, c.source, Reach(c.origin), hops) && hops.Keys == devices
  {
    hops := SpreadsByPlan(c, net, clock, actions);
    PlanInside(c.w.adj, c.w.n, c.source, Reach(c.origin), hops, devices);
  }

  /** The exact condition: a set of devices is what some run of the message delivers to iff it is the
      set of devices of a plan. */
  lemma SpreadIffPlan(c: Cast, t: real, devices: set<nat>)
    requires c.Valid() && t >= 0.0 && Timely(c.origin, AtTime(t))
    requires forall d :: d in devices ==> d < c.w.n
    ensures (exists actions :: EndsUpAt(c, c.w.Quiet(), AtTime(t), actions, devices)) <==>
            (exists hops :: IsPlan(c.w.adj, c.w.n, c.source, Reach(c.origin), hops) && hops.Keys == devices)
  {
    if actions :| EndsUpAt(c, c.w.Quiet(), AtTime(t), actions, devices) {
      var hops := PlanOfSpread(c, c.w.Quiet(), AtTime(t), actions, devices);
    }
    if hops :| IsPlan(c.w.adj, c.w.n, c.source, Reach(c.origin), hops) && hops.Keys == devices {
      var actions := PlanIsSpread(c, t, hops);
      assert EndsUpAt(c, c.w.Quiet(), AtTime(t), actions, devices);
    }
  }

  /** The run delivers to exactly the devices within the reach of the message. */
  ghost predicate ReachesExactly(c: Cast, net: Net, clock: Readings, actions: seq<Action>)
    requires c.Valid() && c.w.Covers(net) && Spread(c, net, clock, actions)
  {
    forall d: nat :: d < c.w.n ==>
      (Got(c, AtEnd(c, net, clock, actions), d) <==> Within(c.w.adj, c.source, d, Reach(c.origin)))
  }

  /** Where every plan is exact, every run is, in a network that has been and is in use. */
  lemma ExactRuns(c: Cast, net: Net, clock: Readings, actions: seq<Action>)
    requires c.Valid() && c.w.Covers(net) && Spread(c, net, clock, actions)
    requires Exact(c.w.adj, c.w.n, c.source, Reach(c.origin))
    ensures ReachesExactly(c, net, clock, actions)
  {
    var hops := SpreadsByPlan(c, net, clock, actions);
  }

  /** However the copies of the message arrive, it gets exactly as far as its reach. */
  ghost predicate AllRunsExact(c: Cast, t: real)
    requires c.Valid()
  {
    forall actions :: Spread(c, c.w.Quiet(), AtTime(t), actions)
                      ==> ReachesExactly(c, c.w.Quiet(), AtTime(t), actions)
  }

  /** And nowhere else. */
  lemma ExactRunsIff(c: Cast, t: real)
    requires c.Valid() && t >= 0.0 && Timely(c.origin, AtTime(t))
    ensures AllRunsExact(c, t) <==> Exact(c.w.adj, c.w.n, c.source, Reach(c.origin))
  {
    if Exact(c.w.adj, c.w.n, c.source, Reach(c.origin)) {
      forall actions | Spread(c, c.w.Quiet(), AtTime(t), actions)
        ensures ReachesExactly(c, c.w.Quiet(), AtTime(t), actions)
      {
        ExactRuns(c, c.w.Quiet(), AtTime(t), actions);
      }
    } else {
      var hops, d: nat :| IsPlan(c.w.adj, c.w.n, c.source, Reach(c.origin), hops) && d < c.w.n
                          && !(d in hops <==> Within(c.w.adj, c.source, d, Reach(c.origin)));
      var actions := PlanIsSpread(c, t, hops);
      assert !ReachesExactly(c, c.w.Quiet(), AtTime(t), actions);
    }
  }

  /** This message, from this device, on this topology. */
  function CastOn(verify: Verifier, origin: Bytes, n: nat, adj: Topology, source: nat): Cast {
    Cast(World(adj, n, verify), source, origin)
  }

  /** A message gets exactly as far as its reach in every run on every two-way topology of n devices,
      from every device, iff its reach is at most one hop or at least n - 1. In between, some
      topology and some order of arrival make it miss a device within its reach. */
  lemma ReachIsExactIff(verify: Verifier, origin: Bytes, n: nat, t: real)
    requires Sendable(verify, origin) && t >= 0.0 && Timely(origin, AtTime(t))
    ensures (forall adj, source: nat :: Undirected(adj, n) && source < n
                                        ==> AllRunsExact(CastOn(verify, origin, n, adj, source), t)) <==>
            Reach(origin) <= 1 || Reach(origin) + 1 >= n
  {
    ExactEverywhereIff(n, Reach(origin));
    forall adj, source: nat | Undirected(adj, n) && source < n
      ensures AllRunsExact(CastOn(verify, origin, n, adj, source), t) <==> Exact(adj, n, source, Reach(origin))
    {
      ExactRunsIff(CastOn(verify, origin, n, adj, source), t);
    }
  }

  // ----- on the simulated topologies -----

  /** On a line of any length: exactly the devices at most min(T - 1, floor(log2 L)) steps away. */
  lemma LineReach(c: Cast, net: Net, clock: Readings, actions: seq<Action>, d: nat)
    requires c.Valid() && c.w.Covers(net) && Spread(c, net, clock, actions) && d < c.w.n
    requires IsLine(c.w.adj, c.w.n)
    ensures Got(c, AtEnd(c, net, clock, actions), d) <==> Distance(c.source, d) <= Reach(c.origin)
  {
    LinesAreExact(c.w.adj, c.w.n, c.source, Reach(c.origin));
    ExactRuns(c, net, clock, actions);
  }

  /** On a star of any size, from the hub or from a leaf. */
  lemma StarReach(c: Cast, net: Net, clock: Readings, actions: seq<Action>, d: nat)
    requires c.Valid() && c.w.Covers(net) && Spread(c, net, clock, actions) && d < c.w.n
    requires IsStar(c.w.adj, c.w.n)
    ensures Got(c, AtEnd(c, net, clock, actions), d) <==> StarDistance(c.source, d) <= Reach(c.origin)
  {
    StarsAreExact(c.w.adj, c.w.n, c.source, Reach(c.origin));
    ExactRuns(c, net, clock, actions);
  }

  /** In a mesh of any size: everybody, as soon as there is one hop in the message. */
  lemma MeshReach(c: Cast, net: Net, clock: Readings, actions: seq<Action>, d: nat)
    requires c.Valid() && c.w.Covers(net) && Spread(c, net, clock, actions) && d < c.w.n
    requires c.w.adj == BuildMesh(c.w.n)
    ensures Got(c, AtEnd(c, net, clock, actions), d) <==> d == c.source || Reach(c.origin) >= 1
  {
    MeshesAreExact(c.w.n, c.source, Reach(c.origin));
    ExactRuns(c, net, clock, actions);
  }

  /** On any tree, whatever its shape. */
  lemma TreeReach(c: Cast, net: Net, clock: Readings, actions: seq<Action>, tree: Rooting, d: nat)
    requires c.Valid() && c.w.Covers(net) && Spread(c, net, clock, actions) && d < c.w.n
    requires tree.Fits(c.w.adj, c.w.n, c.source)
    ensures Got(c, AtEnd(c, net, clock, actions), d) <==> tree.level(d) <= Reach(c.origin)
  {
    TreesAreExact(c.w.adj, c.w.n, c.source, tree, Reach(c.origin));
    ExactRuns(c, net, clock, actions);
  }

  /** On any topology of at most Reach + 1 devices, and so of at most eight: everybody who can be
      reached at all. */
  lemma SmallNetworkReach(c: Cast, net: Net, clock: Readings, actions: seq<Action>, d: nat)
    requires c.Valid() && c.w.Covers(net) && Spread(c, net, clock, actions) && d < c.w.n
    requires c.w.n <= Reach(c.origin) + 1
    ensures c.w.n <= 8
    ensures Got(c, AtEnd(c, net, clock, actions), d) <==> Connected(c.w.adj, c.source, d)
  {
    ReachAtMostSeven(c.origin);
    var hops := SpreadsByPlan(c, net, clock, actions);
    LongReachPlan(c.w.adj, c.w.n, c.source, Reach(c.origin), hops, d);
  }
}
