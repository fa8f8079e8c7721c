/** How one message spreads over a network that carries any other traffic as well: always by a plan. */
module Broadcasts {
  import opened ByteCodec
  import opened Copies
  import opened MessageArrival
  import opened Network
  import opened Packet
  import opened PipelineHistory
  import opened SpreadPlans
  import opened Wrappers
  import Dedup = DedupHistory

  /** One message, and the device that injects it. */
  datatype Cast = Cast(w: World, source: nat, origin: Bytes) {

    ghost predicate Valid() {
      w.Valid() && source < w.n && Sendable(w.verify, origin)
    }

    function MsgId(): Bytes
      requires ParsePacket(origin).Ok?
    {
      Id(origin)
    }

    // ----- the runs in question -----

    /** Nothing with this message id is in flight or was ever handled. Anything else may have been. */
    ghost predicate Unknown(net: Net)
      requires ParsePacket(origin).Ok?
    {
      && (forall k :: 0 <= k < |net.inflight| ==> !Bears(net.inflight[k].raw, MsgId()))
      && (forall d: nat :: d < w.n ==> d in net.logs && Unheard(net.logs[d], MsgId()))
    }

    /** No packet with this message id is in flight any more. */
    predicate Settled(net: Net)
      requires ParsePacket(origin).Ok?
    {
      forall k :: 0 <= k < |net.inflight| ==> !Bears(net.inflight[k].raw, MsgId())
    }

    /** The device is ready for a packet of this message: the clock accepts it, there is no false
        Bloom hit, a device that has delivered it still remembers it, and for one that has not the
        rate limiter has room. */
    ghost predicate Welcomes(log: seq<Event>, clock: Readings, falseHit: bool)
      requires ParsePacket(origin).Ok?
    {
      && Timely(origin, clock) && !falseHit
      && var s := Run(w.verify, false, log);
         if Delivered(w.verify, log, MsgId()) then Dedup.Remembered(s.dedup, MsgId()) else Room(s, origin, clock)
    }

    /** Packets of this message are neither lost nor unwelcome, and nobody else uses its id. Packets
        of other messages may be injected, delivered and lost at will. */
    ghost predicate Fair(net: Net, a: Action)
      requires ParsePacket(origin).Ok? && w.Covers(net) && w.Enabled(net, a)
    {
      match a
      case Inject(_, raw, _, _) => !Bears(raw, MsgId())
      case Arrive(i, clock, falseHit) =>
        Bears(net.inflight[i].raw, MsgId()) ==> Welcomes(net.logs[net.inflight[i].dest], clock, falseHit)
      case Lose(i) => !Bears(net.inflight[i].raw, MsgId())
    }

    ghost predicate FairRun(net: Net, actions: seq<Action>)
      requires ParsePacket(origin).Ok? && w.Valid() && w.Covers(net)
      ensures FairRun(net, actions) ==> w.AllEnabled(net, actions)
      decreases |actions|
    {
      actions == [] ||
      (w.Enabled(net, actions[0]) && Fair(net, actions[0]) && FairRun(w.Act(net, actions[0]), actions[1..]))
    }

    // ----- what every such run keeps -----

    ghost predicate LogFits(logs: map<nat, seq<Event>>, hops: Hops, d: nat)
      requires Valid()
    {
      d in logs && if d in hops then Delivered(w.verify, logs[d], MsgId()) else Unheard(logs[d], MsgId())
    }

    ghost predicate LogsFit(logs: map<nat, seq<Event>>, hops: Hops)
      requires Valid()
    {
      forall d: nat :: d < w.n ==> LogFits(logs, hops, d)
    }

    /** The packet is the next copy of some device that delivered the message. */
    ghost predicate SentBy(hops: Hops, via: nat, f: Flight)
      requires Valid()
    {
      && via in hops && via in w.adj && f.dest in w.adj[via]
      && Alive(origin, hops[via] + 1) && f.raw == Copy(origin, hops[via] + 1)
    }

    ghost predicate FlightFits(hops: Hops, f: Flight)
      requires Valid()
    {
      Bears(f.raw, MsgId()) ==> exists via :: SentBy(hops, via, f)
    }

    ghost predicate FlightsFit(flights: seq<Flight>, hops: Hops)
      requires Valid()
    {
      forall k :: 0 <= k < |flights| ==> FlightFits(hops, flights[k])
    }

    ghost predicate OnItsWay(flights: seq<Flight>, dest: nat, h: nat)
      requires Valid() && Alive(origin, h)
    {
      Flight(dest, Copy(origin, h)) in flights
    }

    /** A device with another hop to give has sent it, and the neighbour has the message already or
        this very copy is on its way. */
    ghost predicate Fed(flights: seq<Flight>, hops: Hops, d: nat, peer: nat)
      requires Valid()
    {
      d in hops && d in w.adj && peer in w.adj[d] && Alive(origin, hops[d] + 1)
      ==> peer in hops || OnItsWay(flights, peer, hops[d] + 1)
    }

    ghost predicate AllFed(flights: seq<Flight>, hops: Hops)
      requires Valid()
    {
      forall d: nat, peer: nat :: Fed(flights, hops, d, peer)
    }

    ghost predicate HopsFit(hops: Hops)
      requires Valid()
    {
      Grown(w.adj, w.n, source, hops) && forall d :: d in hops ==> Alive(origin, hops[d])
    }

    ghost predicate Spreads(net: Net, hops: Hops)
      requires Valid()
    {
      HopsFit(hops) && LogsFit(net.logs, hops) && FlightsFit(net.inflight, hops) && AllFed(net.inflight, hops)
    }

    /** What a device that delivers the copy of the h-th hop sends. */
    ghost function NextCopies(d: nat, h: nat): (flights: seq<Flight>)
      requires Valid() && d < w.n && Alive(origin, h)
      ensures forall k :: 0 <= k < |flights| ==>
                flights[k].dest in w.adj[d] && Alive(origin, h + 1) && flights[k].raw == Copy(origin, h + 1)
    {
      if Alive(origin, h + 1) then ToAll(w.adj[d], Copy(origin, h + 1)) else []
    }
  }

  // ----- single arrivals -----

  lemma HandleShape(w: World, net: Net, d: nat, raw: Bytes, clock: Readings, falseHit: bool)
    requires w.Valid() && w.Covers(net) && d < w.n
    ensures var next := w.Handle(net, d, raw, clock, falseHit);
            && next.logs == net.logs[d := net.logs[d] + [Receive(raw, clock, falseHit)]]
            && next.inflight == net.inflight + Sends(w.Decision(net.logs[d], raw, clock, falseHit), w.adj[d])
  {
  }

  lemma RelaysWhileAlive(origin: Bytes, h: nat, o: Outcome)
    requires ParsePacket(origin).Ok? && Alive(origin, h)
    requires o.Deliver? && ParsePacket(Copy(origin, h)) == Ok(o.message)
    ensures Relayed(o) == if Alive(origin, h + 1) then Some(Copy(origin, h + 1)) else None
  {
    CopyMeans(origin, h, (k, r, s) => true);
    if Relayed(o).Some? {
      assert Relayed(o).value == Copy(origin, h + 1);
    }
  }

  /** A welcome copy at a device nothing of the message has reached: delivered, and relayed. */
  lemma NewArrival(c: Cast, d: nat, log: seq<Event>, h: nat, clock: Readings)
    requires c.Valid() && d < c.w.n && Alive(c.origin, h)
    requires Unheard(log, c.MsgId()) && c.Welcomes(log, clock, false)
    ensures Delivered(c.w.verify, log + [Receive(Copy(c.origin, h), clock, false)], c.MsgId())
    ensures Sends(c.w.Decision(log, Copy(c.origin, h), clock, false), c.w.adj[d]) == c.NextCopies(d, h)
  {
    var raw := Copy(c.origin, h);
    var more := log + [Receive(raw, clock, false)];
    UnheardUntouched(c.w.verify, log, c.MsgId());
    UnheardIsNotDelivered(c.w.verify, log, c.MsgId());
    FirstSight(c.w.verify, Run(c.w.verify, false, log), c.origin, h, clock);
    RelaysWhileAlive(c.origin, h, c.w.Decision(log, raw, clock, false));
    CopyBears(c.origin, h);
    assert more[..|log|] == log;
    assert DeliveredAt(c.w.verify, more, c.MsgId(), |log|);
  }

  /** A welcome copy at a device that has delivered the message: nothing is sent. */
  lemma OldArrival(c: Cast, log: seq<Event>, h: nat, clock: Readings, peers: seq<nat>)
    requires c.Valid() && Alive(c.origin, h)
    requires Delivered(c.w.verify, log, c.MsgId()) && c.Welcomes(log, clock, false)
    ensures Sends(c.w.Decision(log, Copy(c.origin, h), clock, false), peers) == []
  {
    SecondSight(c.w.verify, Run(c.w.verify, false, log), c.origin, h, clock);
  }

  lemma RelayedParses(o: Outcome, raw: Bytes)
    requires o.Deliver? && ParsePacket(raw) == Ok(o.message) && Relayed(o).Some?
    ensures ParsePacket(Relayed(o).value).Ok? && ParsePacket(Relayed(o).value).value.msgId == o.message.msgId
  {
    assert Relayed(o).value == Copy(raw, 1);
    CopyMeans(raw, 1, (k, r, s) => true);
  }

  /** What is relayed of other messages does not carry this id. */
  lemma OtherSends(o: Outcome, raw: Bytes, id: Bytes, peers: seq<nat>)
    requires o.Deliver? ==> |o.message.raw| > SPRAY_OFFSET && ParsePacket(raw) == Ok(o.message)
    requires !Bears(raw, id)
    ensures forall k :: 0 <= k < |Sends(o, peers)| ==> !Bears(Sends(o, peers)[k].raw, id)
  {
    if Relayed(o).Some? {
      RelayedParses(o, raw);
    }
  }

  // ----- other traffic -----

  lemma LogsWithOther(c: Cast, logs: map<nat, seq<Event>>, hops: Hops, d: nat, e: Event)
    requires c.Valid() && c.LogsFit(logs, hops) && d < c.w.n
    requires d in hops || (e.Receive? ==> !Bears(e.raw, c.MsgId()))
    ensures d in logs && c.LogsFit(logs[d := logs[d] + [e]], hops)
  {
    assert c.LogFits(logs, hops, d);
    var logs' := logs[d := logs[d] + [e]];
    forall i: nat | i < c.w.n ensures c.LogFits(logs', hops, i) {
      assert c.LogFits(logs, hops, i);
      if i == d && d in hops {
        DeliveredStays(c.w.verify, logs[d], c.MsgId(), e);
      }
    }
  }

  lemma FlightsWithOther(c: Cast, flights: seq<Flight>, others: seq<Flight>, hops: Hops)
    requires c.Valid() && c.FlightsFit(flights, hops) && c.AllFed(flights, hops)
    requires forall k :: 0 <= k < |others| ==> !Bears(others[k].raw, c.MsgId())
    ensures c.FlightsFit(flights + others, hops) && c.AllFed(flights + others, hops)
  {
    forall d: nat, peer: nat ensures c.Fed(flights + others, hops, d, peer) {
      assert c.Fed(flights, hops, d, peer);
    }
  }

  lemma HandleOther(c: Cast, net: Net, hops: Hops, d: nat, raw: Bytes, clock: Readings, falseHit: bool)
    requires c.Valid() && c.w.Covers(net) && c.Spreads(net, hops) && d < c.w.n && !Bears(raw, c.MsgId())
    ensures c.Spreads(c.w.Handle(net, d, raw, clock, falseHit), hops)
  {
    var o := c.w.Decision(net.logs[d], raw, clock, falseHit);
    HandleShape(c.w, net, d, raw, clock, falseHit);
    LogsWithOther(c, net.logs, hops, d, Receive(raw, clock, falseHit));
    OtherSends(o, raw, c.MsgId(), c.w.adj[d]);
    FlightsWithOther(c, net.inflight, Sends(o, c.w.adj[d]), hops);
  }

  lemma RemovedIsElsewhere(flights: seq<Flight>, i: nat, f: Flight)
    requires i < |flights| && f in flights && f != flights[i]
    ensures f in RemoveAt(flights, i)
  {
    var k :| 0 <= k < |flights| && flights[k] == f;
    assert RemoveAt(flights, i)[if k < i then k else k - 1] == f;
  }

  lemma RemovalFeeds(c: Cast, flights: seq<Flight>, hops: Hops, i: nat, d: nat, peer: nat)
    requires c.Valid() && c.Fed(flights, hops, d, peer) && i < |flights|
    requires flights[i].dest in hops || !Bears(flights[i].raw, c.MsgId())
    ensures c.Fed(RemoveAt(flights, i), hops, d, peer)
  {
    if d in hops && d in c.w.adj && peer in c.w.adj[d] && Alive(c.origin, hops[d] + 1) && peer !in hops {
      CopyBears(c.origin, hops[d] + 1);
      RemovedIsElsewhere(flights, i, Flight(peer, Copy(c.origin, hops[d] + 1)));
    }
  }

  /** A packet that nobody waits for may go. */
  lemma RemovalKeeps(c: Cast, flights: seq<Flight>, hops: Hops, i: nat)
    requires c.Valid() && c.FlightsFit(flights, hops) && c.AllFed(flights, hops) && i < |flights|
    requires flights[i].dest in hops || !Bears(flights[i].raw, c.MsgId())
    ensures c.FlightsFit(RemoveAt(flights, i), hops) && c.AllFed(RemoveAt(flights, i), hops)
  {
    forall d: nat, peer: nat ensures c.Fed(RemoveAt(flights, i), hops, d, peer) {
      assert c.Fed(flights, hops, d, peer);
      RemovalFeeds(c, flights, hops, i, d, peer);
    }
  }

  // ----- arrivals of the message -----

  lemma AgainShape(c: Cast, net: Net, a: Action, h: nat)
    requires c.Valid() && c.w.Covers(net) && c.w.Enabled(net, a) && a.Arrive? && net.inflight[a.index].dest in net.logs
    requires Alive(c.origin, h) && net.inflight[a.index].raw == Copy(c.origin, h)
    requires var log := net.logs[net.inflight[a.index].dest];
             Delivered(c.w.verify, log, c.MsgId()) && c.Welcomes(log, a.clock, a.falseHit)
    ensures var f := net.inflight[a.index];
            && c.w.Act(net, a).logs == net.logs[f.dest := net.logs[f.dest] + [Receive(f.raw, a.clock, a.falseHit)]]
            && c.w.Act(net, a).inflight == RemoveAt(net.inflight, a.index)
  {
    var f := net.inflight[a.index];
    HandleShape(c.w, net.(inflight := RemoveAt(net.inflight, a.index)), f.dest, f.raw, a.clock, a.falseHit);
    OldArrival(c, net.logs[f.dest], h, a.clock, c.w.adj[f.dest]);
  }

  lemma ServedDelivered(c: Cast, logs: map<nat, seq<Event>>, hops: Hops, d: nat)
    requires c.Valid() && c.LogsFit(logs, hops) && d < c.w.n
    ensures d in logs
    ensures if d in hops then Delivered(c.w.verify, logs[d], c.MsgId()) else Unheard(logs[d], c.MsgId())
  {
    assert c.LogFits(logs, hops, d);
  }

  lemma IsLiveCopy(c: Cast, flights: seq<Flight>, hops: Hops, i: nat) returns (h: nat)
    requires c.Valid() && c.FlightsFit(flights, hops) && i < |flights| && Bears(flights[i].raw, c.MsgId())
    ensures Alive(c.origin, h) && flights[i].raw == Copy(c.origin, h)
  {
    assert c.FlightFits(hops, flights[i]);
    var via :| c.SentBy(hops, via, flights[i]);
    h := hops[via] + 1;
  }

  lemma AgainParts(c: Cast, net: Net, hops: Hops, i: nat, e: Event, next: Net)
    requires c.Valid() && c.Spreads(net, hops) && i < |net.inflight|
    requires net.inflight[i].dest in hops && net.inflight[i].dest in net.logs
    requires next.logs == net.logs[net.inflight[i].dest := net.logs[net.inflight[i].dest] + [e]]
    requires next.inflight == RemoveAt(net.inflight, i)
    ensures c.Spreads(next, hops)
  {
    LogsWithOther(c, net.logs, hops, net.inflight[i].dest, e);
    RemovalKeeps(c, net.inflight, hops, i);
  }

  /** A repeated arrival changes nothing but the log. */
  lemma AgainKeeps(c: Cast, net: Net, hops: Hops, a: Action)
    requires c.Valid() && c.w.Covers(net) && c.w.Enabled(net, a) && c.Spreads(net, hops) && c.Fair(net, a)
    requires a.Arrive? && Bears(net.inflight[a.index].raw, c.MsgId()) && net.inflight[a.index].dest in hops
    ensures c.Spreads(c.w.Act(net, a), hops)
    ensures c.w.Act(net, a).inflight == RemoveAt(net.inflight, a.index)
  {
    var f := net.inflight[a.index];
    ServedDelivered(c, net.logs, hops, f.dest);
    var h := IsLiveCopy(c, net.inflight, hops, a.index);
    AgainShape(c, net, a, h);
    AgainParts(c, net, hops, a.index, Receive(f.raw, a.clock, a.falseHit), c.w.Act(net, a));
  }

  lemma HopsGrow(c: Cast, hops: Hops, via: nat, f: Flight)
    requires c.Valid() && c.HopsFit(hops) && c.SentBy(hops, via, f) && f.dest < c.w.n && f.dest !in hops
    ensures c.HopsFit(hops[f.dest := hops[via] + 1])
  {
    GrownByOne(c.w.adj, c.w.n, c.source, hops, via, f.dest);
  }

  lemma LogsGrow(c: Cast, logs: map<nat, seq<Event>>, hops: Hops, d: nat, log: seq<Event>, h: nat)
    requires c.Valid() && c.LogsFit(logs, hops) && d < c.w.n && Delivered(c.w.verify, log, c.MsgId())
    ensures c.LogsFit(logs[d := log], hops[d := h])
  {
    var logs', hops' := logs[d := log], hops[d := h];
    forall i: nat | i < c.w.n ensures c.LogFits(logs', hops', i) {
      assert c.LogFits(logs, hops, i);
    }
  }

  lemma FlightStaysFit(c: Cast, hops: Hops, d: nat, h: nat, f: Flight)
    requires c.Valid() && d !in hops && c.FlightFits(hops, f)
    ensures c.FlightFits(hops[d := h], f)
  {
    if Bears(f.raw, c.MsgId()) {
      var via :| c.SentBy(hops, via, f);
      assert c.SentBy(hops[d := h], via, f);
    }
  }

  lemma FlightsGrow(c: Cast, flights: seq<Flight>, hops: Hops, d: nat, h: nat)
    requires c.Valid() && c.FlightsFit(flights, hops) && d < c.w.n && d !in hops && Alive(c.origin, h)
    ensures c.FlightsFit(flights + c.NextCopies(d, h), hops[d := h])
  {
    var copies, more := c.NextCopies(d, h), hops[d := h];
    forall k | 0 <= k < |flights + copies| ensures c.FlightFits(more, (flights + copies)[k]) {
      if k < |flights| {
        FlightStaysFit(c, hops, d, h, flights[k]);
      } else {
        assert c.SentBy(more, d, copies[k - |flights|]);
      }
    }
  }

  lemma NextCopiesFeed(c: Cast, d: nat, h: nat, peer: nat)
    requires c.Valid() && d < c.w.n && Alive(c.origin, h) && Alive(c.origin, h + 1) && peer in c.w.adj[d]
    ensures Flight(peer, Copy(c.origin, h + 1)) in c.NextCopies(d, h)
  {
    var k :| 0 <= k < |c.w.adj[d]| && c.w.adj[d][k] == peer;
    assert c.NextCopies(d, h)[k] == Flight(peer, Copy(c.origin, h + 1));
  }

  lemma FedGrow(c: Cast, flights: seq<Flight>, i: nat, hops: Hops, h: nat)
    requires c.Valid() && c.AllFed(flights, hops) && i < |flights| && flights[i].dest < c.w.n && Alive(c.origin, h)
    requires flights[i].dest !in hops
    ensures c.AllFed(RemoveAt(flights, i) + c.NextCopies(flights[i].dest, h), hops[flights[i].dest := h])
  {
    var dest, rest := flights[i].dest, RemoveAt(flights, i);
    var copies, more := c.NextCopies(dest, h), hops[dest := h];
    forall d: nat, peer: nat ensures c.Fed(rest + copies, more, d, peer) {
      assert c.Fed(flights, hops, d, peer);
      if d in more && d in c.w.adj && peer in c.w.adj[d] && Alive(c.origin, more[d] + 1) && peer !in more {
        if d == dest {
          NextCopiesFeed(c, dest, h, peer);
        } else {
          RemovedIsElsewhere(flights, i, Flight(peer, Copy(c.origin, hops[d] + 1)));
        }
      }
    }
  }

  lemma FirstShape(c: Cast, net: Net, a: Action, h: nat)
    requires c.Valid() && c.w.Covers(net) && c.w.Enabled(net, a) && a.Arrive? && net.inflight[a.index].dest in net.logs
    requires Alive(c.origin, h) && net.inflight[a.index].raw == Copy(c.origin, h)
    requires var log := net.logs[net.inflight[a.index].dest];
             Unheard(log, c.MsgId()) && c.Welcomes(log, a.clock, a.falseHit)
    ensures var f := net.inflight[a.index];
            var log := net.logs[f.dest] + [Receive(f.raw, a.clock, a.falseHit)];
            && c.w.Act(net, a).logs == net.logs[f.dest := log] && Delivered(c.w.verify, log, c.MsgId())
            && c.w.Act(net, a).inflight == RemoveAt(net.inflight, a.index) + c.NextCopies(f.dest, h)
  {
    var f := net.inflight[a.index];
    HandleShape(c.w, net.(inflight := RemoveAt(net.inflight, a.index)), f.dest, f.raw, a.clock, a.falseHit);
    NewArrival(c, f.dest, net.logs[f.dest], h, a.clock);
  }

  lemma RemovedFit(c: Cast, flights: seq<Flight>, hops: Hops, i: nat)
    requires c.Valid() && c.FlightsFit(flights, hops) && i < |flights|
    ensures c.FlightsFit(RemoveAt(flights, i), hops)
  {
  }

  lemma FirstParts(c: Cast, net: Net, hops: Hops, i: nat, via: nat, h: nat, log: seq<Event>, next: Net)
    requires c.Valid() && i < |net.inflight| && net.inflight[i].dest < c.w.n && Alive(c.origin, h)
    requires c.Spreads(net, hops)
    requires net.inflight[i].dest !in hops && c.SentBy(hops, via, net.inflight[i]) && h == hops[via] + 1
    requires Delivered(c.w.verify, log, c.MsgId()) && next.logs == net.logs[net.inflight[i].dest := log]
    requires next.inflight == RemoveAt(net.inflight, i) + c.NextCopies(net.inflight[i].dest, h)
    ensures c.Spreads(next, hops[net.inflight[i].dest := h])
  {
    var f := net.inflight[i];
    LogsGrow(c, net.logs, hops, f.dest, log, h);
    HopsGrow(c, hops, via, f);
    RemovedFit(c, net.inflight, hops, i);
    FlightsGrow(c, RemoveAt(net.inflight, i), hops, f.dest, h);
    FedGrow(c, net.inflight, i, hops, h);
  }

  /** A first arrival: one more device has the message, a hop after the one that sent it. */
  lemma FirstKeeps(c: Cast, net: Net, hops: Hops, a: Action, via: nat, h: nat)
    requires c.Valid() && c.w.Covers(net) && c.w.Enabled(net, a) && c.Spreads(net, hops) && c.Fair(net, a)
    requires a.Arrive? && net.inflight[a.index].dest !in hops
    requires c.SentBy(hops, via, net.inflight[a.index]) && h == hops[via] + 1
    ensures c.Spreads(c.w.Act(net, a), hops[net.inflight[a.index].dest := h])
  {
    var f := net.inflight[a.index];
    ServedDelivered(c, net.logs, hops, f.dest);
    CopyBears(c.origin, h);
    FirstShape(c, net, a, h);
    var log := net.logs[f.dest] + [Receive(f.raw, a.clock, a.falseHit)];
    FirstParts(c, net, hops, a.index, via, h, log, c.w.Act(net, a));
  }

  // ----- whole runs -----

  lemma InjectOther(c: Cast, net: Net, hops: Hops, a: Action)
    requires c.Valid() && c.w.Covers(net) && c.w.Enabled(net, a) && c.Spreads(net, hops)
    requires a.Inject? && !Bears(a.raw, c.MsgId())
    ensures c.Spreads(c.w.Act(net, a), hops)
  {
    HandleOther(c, net, hops, a.device, a.raw, a.clock, a.falseHit);
  }

  lemma ArriveOther(c: Cast, net: Net, hops: Hops, a: Action)
    requires c.Valid() && c.w.Covers(net) && c.w.Enabled(net, a) && c.Spreads(net, hops)
    requires a.Arrive? && !Bears(net.inflight[a.index].raw, c.MsgId())
    ensures c.Spreads(c.w.Act(net, a), hops)
  {
    var f := net.inflight[a.index];
    RemovalKeeps(c, net.inflight, hops, a.index);
    HandleOther(c, net.(inflight := RemoveAt(net.inflight, a.index)), hops, f.dest, f.raw, a.clock, a.falseHit);
  }

  lemma LoseOther(c: Cast, net: Net, hops: Hops, a: Action)
    requires c.Valid() && c.w.Covers(net) && c.w.Enabled(net, a) && c.Spreads(net, hops)
    requires a.Lose? && !Bears(net.inflight[a.index].raw, c.MsgId())
    ensures c.Spreads(c.w.Act(net, a), hops)
  {
    RemovalKeeps(c, net.inflight, hops, a.index);
  }

  lemma OtherSpreads(c: Cast, net: Net, hops: Hops, a: Action)
    requires c.Valid() && c.w.Covers(net) && c.w.Enabled(net, a) && c.Spreads(net, hops) && c.Fair(net, a)
    requires a.Arrive? ==> !Bears(net.inflight[a.index].raw, c.MsgId())
    ensures c.Spreads(c.w.Act(net, a), hops)
  {
    match a
    case Inject(_, _, _, _) => InjectOther(c, net, hops, a);
    case Lose(i) => LoseOther(c, net, hops, a);
    case Arrive(_, _, _) => ArriveOther(c, net, hops, a);
  }

  lemma WhoSent(c: Cast, flights: seq<Flight>, hops: Hops, i: nat) returns (via: nat)
    requires c.Valid() && c.FlightsFit(flights, hops) && i < |flights| && Bears(flights[i].raw, c.MsgId())
    ensures c.SentBy(hops, via, flights[i])
  {
    assert c.FlightFits(hops, flights[i]);
    via :| c.SentBy(hops, via, flights[i]);
  }

  lemma FirstSpreads(c: Cast, net: Net, hops: Hops, a: Action) returns (more: Hops)
    requires c.Valid() && c.w.Covers(net) && c.w.Enabled(net, a) && c.Spreads(net, hops) && c.Fair(net, a)
    requires a.Arrive? && Bears(net.inflight[a.index].raw, c.MsgId()) && net.inflight[a.index].dest !in hops
    ensures c.Spreads(c.w.Act(net, a), more)
  {
    var via := WhoSent(c, net.inflight, hops, a.index);
    var h := hops[via] + 1;
    more := hops[net.inflight[a.index].dest := h];
    FirstKeeps(c, net, hops, a, via, h);
  }

  lemma ArrivalSpreads(c: Cast, net: Net, hops: Hops, a: Action) returns (more: Hops)
    requires c.Valid() && c.w.Covers(net) && c.w.Enabled(net, a) && c.Spreads(net, hops) && c.Fair(net, a)
    requires a.Arrive? && Bears(net.inflight[a.index].raw, c.MsgId())
    ensures c.Spreads(c.w.Act(net, a), more)
  {
    if net.inflight[a.index].dest in hops {
      more := hops;
      AgainKeeps(c, net, hops, a);
    } else {
      more := FirstSpreads(c, net, hops, a);
    }
  }

  /** Whatever happens next in a fair run, the spread goes on by the same rules. */
  lemma ActSpreads(c: Cast, net: Net, hops: Hops, a: Action) returns (more: Hops)
    requires c.Valid() && c.w.Covers(net) && c.w.Enabled(net, a) && c.Spreads(net, hops) && c.Fair(net, a)
    ensures c.Spreads(c.w.Act(net, a), more)
  {
    if a.Arrive? && Bears(net.inflight[a.index].raw, c.MsgId()) {
      more := ArrivalSpreads(c, net, hops, a);
    } else {
      more := hops;
      OtherSpreads(c, net, hops, a);
    }
  }

  lemma {:induction false} RunSpreads(c: Cast, net: Net, hops: Hops, actions: seq<Action>) returns (more: Hops)
    requires c.Valid() && c.w.Covers(net) && c.Spreads(net, hops) && c.FairRun(net, actions)
    ensures c.Spreads(c.w.Exec(net, actions), more)
    decreases |actions|
  {
    more := hops;
    if actions != [] {
      more := ActSpreads(c, net, hops, actions[0]);
      more := RunSpreads(c, c.w.Act(net, actions[0]), more, actions[1..]);
    }
  }

  lemma UnknownFits(c: Cast, net: Net, d: nat)
    requires c.Valid() && c.Unknown(net) && d < c.w.n
    ensures d in net.logs && Unheard(net.logs[d], c.MsgId())
  {
  }

  lemma OneLogFits(c: Cast, net: Net, log: seq<Event>)
    requires c.Valid() && c.Unknown(net) && Delivered(c.w.verify, log, c.MsgId())
    ensures c.LogsFit(net.logs[c.source := log], map[c.source := 0])
  {
    var logs, hops := net.logs[c.source := log], map[c.source := 0];
    forall i: nat | i < c.w.n ensures c.LogFits(logs, hops, i) {
      UnknownFits(c, net, i);
    }
  }

  lemma FirstFlightsFit(c: Cast, flights: seq<Flight>)
    requires c.Valid() && Alive(c.origin, 0)
    requires forall k :: 0 <= k < |flights| ==> !Bears(flights[k].raw, c.MsgId())
    ensures c.FlightsFit(flights + c.NextCopies(c.source, 0), map[c.source := 0])
    ensures c.AllFed(flights + c.NextCopies(c.source, 0), map[c.source := 0])
  {
    var hops, copies := map[c.source := 0], c.NextCopies(c.source, 0);
    forall k | 0 <= k < |flights + copies| ensures c.FlightFits(hops, (flights + copies)[k]) {
      if k >= |flights| {
        assert c.SentBy(hops, c.source, copies[k - |flights|]);
      }
    }
    forall d: nat, peer: nat ensures c.Fed(flights + copies, hops, d, peer) {
      if d == c.source && peer in c.w.adj[d] && Alive(c.origin, 1) {
        NextCopiesFeed(c, d, 0, peer);
      }
    }
  }

  lemma InjectShape(c: Cast, net: Net, clock: Readings)
    requires c.Valid() && c.w.Covers(net) && Alive(c.origin, 0)
    requires c.source in net.logs && Unheard(net.logs[c.source], c.MsgId())
    requires c.Welcomes(net.logs[c.source], clock, false)
    ensures var log := net.logs[c.source] + [Receive(c.origin, clock, false)];
            var next := c.w.Act(net, Inject(c.source, c.origin, clock, false));
            && next.logs == net.logs[c.source := log] && Delivered(c.w.verify, log, c.MsgId())
            && next.inflight == net.inflight + c.NextCopies(c.source, 0)
  {
    HandleShape(c.w, net, c.source, c.origin, clock, false);
    assert Copy(c.origin, 0) == c.origin;
    NewArrival(c, c.source, net.logs[c.source], 0, clock);
  }

  lemma OneHopsFit(c: Cast)
    requires c.Valid() && Alive(c.origin, 0)
    ensures c.HopsFit(map[c.source := 0])
  {
  }

  lemma InjectParts(c: Cast, net: Net, log: seq<Event>, next: Net)
    requires c.Valid() && c.Unknown(net) && Alive(c.origin, 0) && Delivered(c.w.verify, log, c.MsgId())
    requires next.logs == net.logs[c.source := log] && next.inflight == net.inflight + c.NextCopies(c.source, 0)
    ensures c.Spreads(next, map[c.source := 0])
  {
    OneHopsFit(c);
    OneLogFits(c, net, log);
    FirstFlightsFit(c, net.inflight);
  }

  /** The source's own copy, in a network that does not know the message. */
  lemma InjectSpreads(c: Cast, net: Net, clock: Readings)
    requires c.Valid() && c.w.Covers(net) && c.Unknown(net) && c.source in net.logs
    requires c.Welcomes(net.logs[c.source], clock, false)
    ensures c.Spreads(c.w.Act(net, Inject(c.source, c.origin, clock, false)), map[c.source := 0])
  {
    UnknownFits(c, net, c.source);
    InjectShape(c, net, clock);
    var next := c.w.Act(net, Inject(c.source, c.origin, clock, false));
    InjectParts(c, net, net.logs[c.source] + [Receive(c.origin, clock, false)], next);
  }

  lemma SettledIsFed(c: Cast, net: Net, hops: Hops, d: nat, peer: nat)
    requires c.Valid() && c.Settled(net) && c.Fed(net.inflight, hops, d, peer)
    requires d in hops && d in c.w.adj && hops[d] < Reach(c.origin) && peer in c.w.adj[d]
    ensures peer in hops
  {
    AliveWithinReach(c.origin, hops[d] + 1);
    CopyBears(c.origin, hops[d] + 1);
  }

  /** Once no copy is in flight, everybody who could pass the message on has done so. */
  lemma SettledIsSpent(c: Cast, net: Net, hops: Hops)
    requires c.Valid() && c.Spreads(net, hops) && c.Settled(net)
    ensures IsPlan(c.w.adj, c.w.n, c.source, Reach(c.origin), hops)
  {
    forall d | d in hops ensures hops[d] <= Reach(c.origin) {
      AliveWithinReach(c.origin, hops[d]);
    }
    forall d, peer | d in hops && d in c.w.adj && hops[d] < Reach(c.origin) && peer in c.w.adj[d] ensures peer in hops {
      assert c.Fed(net.inflight, hops, d, peer);
      SettledIsFed(c, net, hops, d, peer);
    }
  }

  ghost function AtEnd(c: Cast, net: Net, clock: Readings, actions: seq<Action>): (end: Net)
    requires c.Valid() && c.w.Covers(net)
    requires c.FairRun(c.w.Act(net, Inject(c.source, c.origin, clock, false)), actions)
    ensures c.w.Covers(end)
  {
    c.w.Exec(c.w.Act(net, Inject(c.source, c.origin, clock, false)), actions)
  }

  /** A run in which the message is injected into a network that does not know it, every one of its
      copies arrives welcome, in any order and among any other traffic, and none is left. */
  ghost predicate Spread(c: Cast, net: Net, clock: Readings, actions: seq<Action>)
    requires c.Valid() && c.w.Covers(net)
  {
    && c.Unknown(net) && c.source in net.logs && c.Welcomes(net.logs[c.source], clock, false)
    && c.FairRun(c.w.Act(net, Inject(c.source, c.origin, clock, false)), actions)
    && c.Settled(AtEnd(c, net, clock, actions))
  }

  ghost predicate Got(c: Cast, net: Net, d: nat)
    requires c.Valid() && c.w.Covers(net) && d < c.w.n
  {
    Delivered(c.w.verify, net.logs[d], c.MsgId())
  }

  lemma SpreadEnds(c: Cast, end: Net, hops: Hops)
    requires c.Valid() && c.w.Covers(end) && c.Spreads(end, hops) && c.Settled(end)
    ensures IsPlan(c.w.adj, c.w.n, c.source, Reach(c.origin), hops)
    ensures forall d: nat :: d < c.w.n ==> (Got(c, end, d) <==> d in hops)
  {
    SettledIsSpent(c, end, hops);
    forall d: nat | d < c.w.n ensures Got(c, end, d) <==> d in hops {
      ServedDelivered(c, end.logs, hops, d);
    }
  }

  /** The devices that deliver the message are those of a plan for its reach, whatever else the
      network carries and in whatever order the copies arrive. */
  lemma SpreadsByPlan(c: Cast, net: Net, clock: Readings, actions: seq<Action>) returns (hops: Hops)
    requires c.Valid() && c.w.Covers(net) && Spread(c, net, clock, actions)
    ensures IsPlan(c.w.adj, c.w.n, c.source, Reach(c.origin), hops)
    ensures forall d: nat :: d < c.w.n ==> (Got(c, AtEnd(c, net, clock, actions), d) <==> d in hops)
  {
    InjectSpreads(c, net, clock);
    hops := RunSpreads(c, c.w.Act(net, Inject(c.source, c.origin, clock, false)), map[c.source := 0], actions);
    SpreadEnds(c, AtEnd(c, net, clock, actions), hops);
  }
}
