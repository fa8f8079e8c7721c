/** Many devices, packets in flight between neighbours, and any order of delivery. */
module Network {
  import opened ByteCodec
  import opened Copies
  import opened Packet
  import opened PipelineHistory
  import opened Signing
  import opened SprayAndWait
  import opened Topologies
  import opened Wrappers

  /** A packet on its way to a device. */
  datatype Flight = Flight(dest: nat, raw: Bytes)

  /** One copy to each peer, in the order of the neighbour list. */
  function ToAll(peers: seq<nat>, raw: Bytes): (flights: seq<Flight>)
    ensures |flights| == |peers|
    ensures forall k :: 0 <= k < |peers| ==> flights[k] == Flight(peers[k], raw)
  {
    if peers == [] then [] else ToAll(peers[..|peers| - 1], raw) + [Flight(peers[|peers| - 1], raw)]
  }

  /** The copy a device hands its neighbours for what its pipeline decided. */
  function Relayed(o: Outcome): Option<Bytes>
    requires o.Deliver? ==> |o.message.raw| > SPRAY_OFFSET
  {
    if o.Deliver? && SplitCopies(o.message.sprayL).forward > 0 && o.message.ttl > 1
    then Some(WithHopBytes(o.message.raw, o.message.ttl - 1, SplitCopies(o.message.sprayL).forward))
    else None
  }

  function Sends(o: Outcome, peers: seq<nat>): seq<Flight>
    requires o.Deliver? ==> |o.message.raw| > SPRAY_OFFSET
  {
    if Relayed(o).Some? then ToAll(peers, Relayed(o).value) else []
  }

  /** A packet that a device injected. */
  datatype Injection = Injection(device: nat, raw: Bytes)

  /** What the network is: every device's event log (its pipeline state is the run of that log),
      the packets in flight, and two records for the proofs, what each device ever sent and all packets
      ever injected. */
  datatype Net = Net(
    logs: map<nat, seq<Event>>,
    inflight: seq<Flight>,
    sent: map<nat, seq<Flight>>,
    injected: seq<Injection>)

  datatype Action =
    | Inject(device: nat, raw: Bytes, clock: Readings, falseHit: bool)
    | Arrive(index: nat, clock: Readings, falseHit: bool)   // any packet in flight may be next
    | Lose(index: nat)

  function RemoveAt<T>(s: seq<T>, i: nat): seq<T>
    requires i < |s|
  {
    s[..i] + s[i + 1..]
  }

  function NoEvents(d: nat): seq<Event> {
    []
  }

  function NoFlights(d: nat): seq<Flight> {
    []
  }

  /** Topology and verifier shared by all devices; the simulated pipelines demand no tickets. */
  datatype World = World(adj: Topology, n: nat, verify: Verifier) {

    ghost predicate Valid() {
      Devices(adj, n)
    }

    ghost predicate Covers(net: Net) {
      && (forall d: nat :: d in net.logs <==> d < n)
      && (forall d: nat :: d in net.sent <==> d < n)
      && (forall k :: 0 <= k < |net.inflight| ==> net.inflight[k].dest < n)
    }

    ghost function Decision(log: seq<Event>, raw: Bytes, clock: Readings, falseHit: bool): (o: Outcome)
      ensures o.Deliver? ==> |o.message.raw| > SPRAY_OFFSET && ParsePacket(raw) == Ok(o.message)
    {
      Process(verify, Run(verify, false, log), raw, clock, falseHit).1
    }

    /** A device handles a packet: its pipeline advances, and copies go out to its neighbours. */
    ghost function Handle(net: Net, d: nat, raw: Bytes, clock: Readings, falseHit: bool): Net
      requires Valid() && Covers(net) && d < n
    {
      var copies := Sends(Decision(net.logs[d], raw, clock, falseHit), adj[d]);
      Net(
        net.logs[d := net.logs[d] + [Receive(raw, clock, falseHit)]],
        net.inflight + copies,
        net.sent[d := net.sent[d] + copies],
        net.injected)
    }

    ghost predicate Enabled(net: Net, a: Action) {
      match a
      case Inject(d, _, _, _) => d < n
      case Arrive(i, _, _) => i < |net.inflight|
      case Lose(i) => i < |net.inflight|
    }

    ghost function Act(net: Net, a: Action): (next: Net)
      requires Valid() && Covers(net) && Enabled(net, a)
      ensures Covers(next)
    {
      match a
      case Inject(d, raw, clock, falseHit) =>
        Handle(net, d, raw, clock, falseHit).(injected := net.injected + [Injection(d, raw)])
      case Arrive(i, clock, falseHit) =>
        var f := net.inflight[i];
        Handle(net.(inflight := RemoveAt(net.inflight, i)), f.dest, f.raw, clock, falseHit)
      case Lose(i) =>
        net.(inflight := RemoveAt(net.inflight, i))
    }

    ghost predicate AllEnabled(net: Net, actions: seq<Action>)
      requires Valid() && Covers(net)
      decreases |actions|
    {
      actions == [] || (Enabled(net, actions[0]) && AllEnabled(Act(net, actions[0]), actions[1..]))
    }

    ghost function Exec(net: Net, actions: seq<Action>): (end: Net)
      requires Valid() && Covers(net) && AllEnabled(net, actions)
      ensures Covers(end)
      decreases |actions|
    {
      if actions == [] then net else Exec(Act(net, actions[0]), actions[1..])
    }

    ghost function Quiet(): (net: Net)
      ensures Covers(net)
    {
      Net(map d: nat | d < n :: NoEvents(d), [], map d: nat | d < n :: NoFlights(d), [])
    }
  }

  // ----- lineage -----

  /** raw is what h hops make of the packet; without a hop, the packet itself, whatever it is. */
  ghost predicate IsCopy(raw: Bytes, origin: Bytes, h: nat) {
    if h == 0 then raw == origin else ParsePacket(origin).Ok? && Alive(origin, h) && raw == Copy(origin, h)
  }

  ghost predicate TracedTo(
    adj: Topology, dest: nat, raw: Bytes, injected: seq<Injection>, least: nat, i: nat, h: nat)
  {
    i < |injected| && h >= least && IsCopy(raw, injected[i].raw, h) && Walk(adj, injected[i].device, dest, h)
  }

  /** What arrives at dest is an injected packet after as many hops as some walk there has. */
  ghost predicate Traced(adj: Topology, dest: nat, raw: Bytes, injected: seq<Injection>, least: nat) {
    exists i: nat, h: nat :: TracedTo(adj, dest, raw, injected, least, i, h)
  }

  ghost predicate FlightsTraced(adj: Topology, flights: seq<Flight>, injected: seq<Injection>) {
    forall k :: 0 <= k < |flights| ==> Traced(adj, flights[k].dest, flights[k].raw, injected, 1)
  }

  ghost predicate LogTraced(adj: Topology, d: nat, log: seq<Event>, injected: seq<Injection>) {
    forall k :: 0 <= k < |log| && log[k].Receive? ==> Traced(adj, d, log[k].raw, injected, 0)
  }

  /** Everything ever sent or in flight has at least one hop behind it; what a device handles may
      also be what it injected itself. */
  ghost predicate LineageHolds(adj: Topology, net: Net) {
    && (forall d: nat :: d in net.sent ==> FlightsTraced(adj, net.sent[d], net.injected))
    && FlightsTraced(adj, net.inflight, net.injected)
    && forall d: nat :: d in net.logs ==> LogTraced(adj, d, net.logs[d], net.injected)
  }

  lemma TracedStays(
    adj: Topology, dest: nat, raw: Bytes, injected: seq<Injection>, least: nat, fewer: nat, more: Injection)
    requires Traced(adj, dest, raw, injected, least) && fewer <= least
    ensures Traced(adj, dest, raw, injected, fewer) && Traced(adj, dest, raw, injected + [more], fewer)
  {
    var i: nat, h: nat :| TracedTo(adj, dest, raw, injected, least, i, h);
    assert TracedTo(adj, dest, raw, injected, fewer, i, h);
    assert TracedTo(adj, dest, raw, injected + [more], fewer, i, h);
  }

  /** One more hop. */
  lemma NextHop(origin: Bytes, h: nat, raw: Bytes, o: Outcome)
    requires IsCopy(raw, origin, h) && o.Deliver? && ParsePacket(raw) == Ok(o.message) && Relayed(o).Some?
    ensures IsCopy(Relayed(o).value, origin, h + 1)
  {
    assert o.message.raw == raw;
    assert Relayed(o).value == Copy(origin, h + 1);
  }

  lemma RelayedTraced(adj: Topology, d: nat, raw: Bytes, injected: seq<Injection>, o: Outcome, peer: nat)
    requires Traced(adj, d, raw, injected, 0) && d in adj && peer in adj[d]
    requires o.Deliver? && ParsePacket(raw) == Ok(o.message) && Relayed(o).Some?
    ensures Traced(adj, peer, Relayed(o).value, injected, 1)
  {
    var i: nat, h: nat :| TracedTo(adj, d, raw, injected, 0, i, h);
    NextHop(injected[i].raw, h, raw, o);
    assert Walk(adj, injected[i].device, peer, h + 1);
    assert TracedTo(adj, peer, Relayed(o).value, injected, 1, i, h + 1);
  }

  lemma SendsTraced(w: World, d: nat, raw: Bytes, injected: seq<Injection>, o: Outcome)
    requires w.Valid() && d < w.n && Traced(w.adj, d, raw, injected, 0)
    requires o.Deliver? ==> |o.message.raw| > SPRAY_OFFSET && ParsePacket(raw) == Ok(o.message)
    ensures FlightsTraced(w.adj, Sends(o, w.adj[d]), injected)
  {
    var flights := Sends(o, w.adj[d]);
    forall k | 0 <= k < |flights| ensures Traced(w.adj, flights[k].dest, flights[k].raw, injected, 1) {
      RelayedTraced(w.adj, d, raw, injected, o, w.adj[d][k]);
    }
  }

  lemma JoinTraced(adj: Topology, a: seq<Flight>, b: seq<Flight>, injected: seq<Injection>)
    requires FlightsTraced(adj, a, injected) && FlightsTraced(adj, b, injected)
    ensures FlightsTraced(adj, a + b, injected)
  {
  }

  lemma LogGrowsTraced(adj: Topology, d: nat, log: seq<Event>, e: Event, injected: seq<Injection>)
    requires LogTraced(adj, d, log, injected) && (e.Receive? ==> Traced(adj, d, e.raw, injected, 0))
    ensures LogTraced(adj, d, log + [e], injected)
  {
  }

  lemma HandleKeepsLineage(w: World, net: Net, d: nat, raw: Bytes, clock: Readings, falseHit: bool)
    requires w.Valid() && w.Covers(net) && d < w.n
    requires LineageHolds(w.adj, net) && Traced(w.adj, d, raw, net.injected, 0)
    ensures LineageHolds(w.adj, w.Handle(net, d, raw, clock, falseHit))
  {
    var o := w.Decision(net.logs[d], raw, clock, falseHit);
    SendsTraced(w, d, raw, net.injected, o);
    JoinTraced(w.adj, net.inflight, Sends(o, w.adj[d]), net.injected);
    JoinTraced(w.adj, net.sent[d], Sends(o, w.adj[d]), net.injected);
    assert LogTraced(w.adj, d, net.logs[d], net.injected);
    LogGrowsTraced(w.adj, d, net.logs[d], Receive(raw, clock, falseHit), net.injected);
  }

  lemma FlightsStayTraced(adj: Topology, flights: seq<Flight>, injected: seq<Injection>, more: Injection)
    requires FlightsTraced(adj, flights, injected)
    ensures FlightsTraced(adj, flights, injected + [more])
  {
    forall k | 0 <= k < |flights| ensures Traced(adj, flights[k].dest, flights[k].raw, injected + [more], 1) {
      TracedStays(adj, flights[k].dest, flights[k].raw, injected, 1, 1, more);
    }
  }

  lemma LogStaysTraced(adj: Topology, d: nat, log: seq<Event>, injected: seq<Injection>, more: Injection)
    requires LogTraced(adj, d, log, injected)
    ensures LogTraced(adj, d, log, injected + [more])
  {
    forall k | 0 <= k < |log| && log[k].Receive? ensures Traced(adj, d, log[k].raw, injected + [more], 0) {
      TracedStays(adj, d, log[k].raw, injected, 0, 0, more);
    }
  }

  lemma InjectKeepsLineage(adj: Topology, net: Net, d: nat, raw: Bytes)
    requires LineageHolds(adj, net)
    ensures LineageHolds(adj, net.(injected := net.injected + [Injection(d, raw)]))
    ensures Traced(adj, d, raw, net.injected + [Injection(d, raw)], 0)
  {
    forall i: nat | i in net.sent ensures FlightsTraced(adj, net.sent[i], net.injected + [Injection(d, raw)]) {
      FlightsStayTraced(adj, net.sent[i], net.injected, Injection(d, raw));
    }
    FlightsStayTraced(adj, net.inflight, net.injected, Injection(d, raw));
    forall i: nat | i in net.logs ensures LogTraced(adj, i, net.logs[i], net.injected + [Injection(d, raw)]) {
      LogStaysTraced(adj, i, net.logs[i], net.injected, Injection(d, raw));
    }
    assert TracedTo(adj, d, raw, net.injected + [Injection(d, raw)], 0, |net.injected|, 0);
  }

  lemma RemovalKeepsLineage(adj: Topology, net: Net, i: nat)
    requires LineageHolds(adj, net) && i < |net.inflight|
    ensures LineageHolds(adj, net.(inflight := RemoveAt(net.inflight, i)))
  {
  }

  lemma ArriveKeepsLineage(w: World, net: Net, i: nat, clock: Readings, falseHit: bool)
    requires w.Valid() && w.Covers(net) && i < |net.inflight| && LineageHolds(w.adj, net)
    ensures LineageHolds(w.adj, w.Act(net, Arrive(i, clock, falseHit)))
  {
    var f := net.inflight[i];
    TracedStays(w.adj, f.dest, f.raw, net.injected, 1, 0, Injection(0, []));
    RemovalKeepsLineage(w.adj, net, i);
    HandleKeepsLineage(w, net.(inflight := RemoveAt(net.inflight, i)), f.dest, f.raw, clock, falseHit);
  }

  lemma ActKeepsLineage(w: World, net: Net, a: Action)
    requires w.Valid() && w.Covers(net) && w.Enabled(net, a) && LineageHolds(w.adj, net)
    ensures LineageHolds(w.adj, w.Act(net, a))
  {
    match a
    case Inject(d, raw, clock, falseHit) =>
      InjectKeepsLineage(w.adj, net, d, raw);
      HandleKeepsLineage(w, net.(injected := net.injected + [Injection(d, raw)]), d, raw, clock, falseHit);
    case Arrive(i, clock, falseHit) =>
      ArriveKeepsLineage(w, net, i, clock, falseHit);
    case Lose(i) =>
  }

  /** In every run, whatever is injected where, every copy ever sent is an injected packet with the
      hop bytes of its h-th hop, T0 - h and floor(L0 / 2^h), both at least 1, and a walk of h hops
      leads from where it was injected to where it was sent. */
  lemma {:induction false} Lineage(w: World, net: Net, actions: seq<Action>)
    requires w.Valid() && w.Covers(net) && LineageHolds(w.adj, net) && w.AllEnabled(net, actions)
    ensures LineageHolds(w.adj, w.Exec(net, actions))
    decreases |actions|
  {
    if actions != [] {
      ActKeepsLineage(w, net, actions[0]);
      Lineage(w, w.Act(net, actions[0]), actions[1..]);
    }
  }

  lemma QuietLineage(w: World)
    ensures LineageHolds(w.adj, w.Quiet())
  {
    forall d: nat | d in w.Quiet().logs ensures LogTraced(w.adj, d, w.Quiet().logs[d], []) {
      assert w.Quiet().logs[d] == NoEvents(d);
    }
    forall d: nat | d in w.Quiet().sent ensures FlightsTraced(w.adj, w.Quiet().sent[d], []) {
      assert w.Quiet().sent[d] == NoFlights(d);
    }
  }

  lemma CopyWithinReach(raw: Bytes, origin: Bytes, h: nat)
    requires IsCopy(raw, origin, h) && ParsePacket(raw).Ok?
    ensures ParsePacket(origin).Ok? && h <= Reach(origin)
  {
    if h > 0 {
      HalveMonotone(origin[SPRAY_OFFSET], 0, h);
      AliveWithinReach(origin, h);
    }
  }

  /** In every run of every network, among any other traffic, losses and reorderings: what a device
      delivers was injected somewhere, and a walk of at most min(T - 1, floor(log2 L)) hops leads
      from there to the device. */
  lemma DeliveredWithinReach(w: World, actions: seq<Action>, d: nat, k: nat) returns (i: nat, h: nat)
    requires w.Valid() && w.AllEnabled(w.Quiet(), actions) && d < w.n
    requires var log := w.Exec(w.Quiet(), actions).logs[d];
             k < |log| && log[k].Receive? && OutcomeAt(w.verify, false, log, k).Deliver?
    ensures var end := w.Exec(w.Quiet(), actions);
            && i < |end.injected| && IsCopy(end.logs[d][k].raw, end.injected[i].raw, h)
            && ParsePacket(end.injected[i].raw).Ok? && h <= Reach(end.injected[i].raw)
            && Walk(w.adj, end.injected[i].device, d, h)
  {
    QuietLineage(w);
    Lineage(w, w.Quiet(), actions);
    var end := w.Exec(w.Quiet(), actions);
    assert LogTraced(w.adj, d, end.logs[d], end.injected);
    i, h :| TracedTo(w.adj, d, end.logs[d][k].raw, end.injected, 0, i, h);
    CopyWithinReach(end.logs[d][k].raw, end.injected[i].raw, h);
  }
}
