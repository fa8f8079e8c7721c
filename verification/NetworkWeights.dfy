/** Sums over the packets in flight: whether copies are conserved, and why every run ends. */
module NetworkWeights {
  import opened ByteCodec
  import opened Network
  import opened Packet
  import opened PipelineHistory
  import opened SprayAndWait
  import opened Topologies
  import opened Wrappers

  /** The sum of what each packet weighs. */
  function Total(weigh: Bytes -> nat, flights: seq<Flight>): nat {
    if flights == [] then 0 else Total(weigh, flights[..|flights| - 1]) + weigh(flights[|flights| - 1].raw)
  }

  lemma {:induction false} TotalSplit(weigh: Bytes -> nat, a: seq<Flight>, b: seq<Flight>)
    ensures Total(weigh, a + b) == Total(weigh, a) + Total(weigh, b)
  {
    if b == [] {
      assert a + b == a;
    } else {
      assert (a + b)[..|a + b| - 1] == a + b[..|b| - 1];
      TotalSplit(weigh, a, b[..|b| - 1]);
    }
  }

  lemma TotalMiddle(weigh: Bytes -> nat, before: seq<Flight>, f: Flight, after: seq<Flight>)
    ensures Total(weigh, before + [f] + after) == Total(weigh, before + after) + weigh(f.raw)
  {
    TotalSplit(weigh, before + [f], after);
    TotalSplit(weigh, before, after);
    assert (before + [f])[..|before|] == before;
  }

  lemma Parts(flights: seq<Flight>, i: nat)
    requires i < |flights|
    ensures flights == flights[..i] + [flights[i]] + flights[i + 1..]
    ensures RemoveAt(flights, i) == flights[..i] + flights[i + 1..]
  {
  }

  lemma TotalWithout(weigh: Bytes -> nat, flights: seq<Flight>, i: nat)
    requires i < |flights|
    ensures Total(weigh, flights) == Total(weigh, RemoveAt(flights, i)) + weigh(flights[i].raw)
  {
    TotalMiddle(weigh, flights[..i], flights[i], flights[i + 1..]);
    Parts(flights, i);
  }

  lemma {:induction false} TotalToAll(weigh: Bytes -> nat, peers: seq<nat>, raw: Bytes)
    ensures Total(weigh, ToAll(peers, raw)) == |peers| * weigh(raw)
  {
    if peers != [] {
      TotalToAll(weigh, peers[..|peers| - 1], raw);
      assert ToAll(peers, raw)[..|peers| - 1] == ToAll(peers[..|peers| - 1], raw);
      OneMore(|peers| - 1, weigh(raw));
    }
  }

  lemma SmallerDegree(a: nat, b: nat, x: nat)
    requires a <= b
    ensures a * x <= b * x
  {
  }

  /** What an arrival does to the sum: the packet goes, and its relayed copies come. */
  lemma ArrivalTotal(weigh: Bytes -> nat, w: World, net: Net, a: Action)
    requires w.Valid() && w.Covers(net) && w.Enabled(net, a) && a.Arrive?
    ensures var f := net.inflight[a.index];
            var o := w.Decision(net.logs[f.dest], f.raw, a.clock, a.falseHit);
            Total(weigh, w.Act(net, a).inflight) + weigh(f.raw) ==
            Total(weigh, net.inflight) + Total(weigh, Sends(o, w.adj[f.dest]))
  {
    var f := net.inflight[a.index];
    var o := w.Decision(net.logs[f.dest], f.raw, a.clock, a.falseHit);
    TotalWithout(weigh, net.inflight, a.index);
    TotalSplit(weigh, RemoveAt(net.inflight, a.index), Sends(o, w.adj[f.dest]));
  }

  // ----- copies -----

  function Budget(raw: Bytes): nat {
    if |raw| > SPRAY_OFFSET then raw[SPRAY_OFFSET] else 0
  }

  /** The copies a batch of packets may still be split into. */
  function CopiesIn(flights: seq<Flight>): nat {
    Total(Budget, flights)
  }

  /** Handing half of l to each of p peers hands out l exactly when there are two and l is even, or
      when there are three and l is 3. */
  lemma HalfToEach(p: nat, l: nat)
    requires l >= 2
    ensures p * (l / 2) == l <==> (p == 2 && l % 2 == 0) || (p == 3 && l == 3)
  {
    var half := l / 2;
    if p >= 4 {
      SmallerDegree(4, p, half);
    }
  }

  /** Copies are not conserved: a relay hands the peer's half to every neighbour and keeps nothing,
      so as many copies leave as came exactly when it has two neighbours and an even budget, or
      three neighbours and a budget of 3. */
  lemma CopiesConservedIff(o: Outcome, peers: seq<nat>)
    requires o.Deliver? && |o.message.raw| > SPRAY_OFFSET && Relayed(o).Some?
    ensures CopiesIn(Sends(o, peers)) == |peers| * SplitCopies(o.message.sprayL).forward
    ensures var l := o.message.sprayL;
            CopiesIn(Sends(o, peers)) == l <==> (|peers| == 2 && l % 2 == 0) || (|peers| == 3 && l == 3)
  {
    TotalToAll(Budget, peers, Relayed(o).value);
    HalfToEach(|peers|, o.message.sprayL);
  }

  /** Over a whole step: the budgets in flight add up to the same after an arrival exactly when the
      packet was relayed under that condition, or was not relayed and carried no copies. */
  lemma ArrivalConservesIff(w: World, net: Net, a: Action)
    requires w.Valid() && w.Covers(net) && w.Enabled(net, a) && a.Arrive?
    ensures var f := net.inflight[a.index];
            var l, peers := Budget(f.raw), |w.adj[f.dest]|;
            CopiesIn(w.Act(net, a).inflight) == CopiesIn(net.inflight) <==>
            if Relayed(w.Decision(net.logs[f.dest], f.raw, a.clock, a.falseHit)).Some?
            then (peers == 2 && l % 2 == 0) || (peers == 3 && l == 3)
            else l == 0
  {
    var f := net.inflight[a.index];
    var o := w.Decision(net.logs[f.dest], f.raw, a.clock, a.falseHit);
    ArrivalTotal(Budget, w, net, a);
    if Relayed(o).Some? {
      assert o.message.sprayL == Budget(f.raw);
      CopiesConservedIff(o, w.adj[f.dest]);
    }
  }

  // ----- termination -----

  /** More than a device with at most `degree` neighbours can still set off with a copy budget. */
  function Weight(degree: nat, sprayL: nat): (w: nat)
    ensures w >= 1
  {
    if sprayL == 0 then 1 else 1 + degree * Weight(degree, sprayL / 2)
  }

  function WeightOf(degree: nat): Bytes -> nat {
    (raw: Bytes) => Weight(degree, Budget(raw))
  }

  function TotalWeight(degree: nat, flights: seq<Flight>): nat {
    Total(WeightOf(degree), flights)
  }

  ghost predicate DegreeAtMost(adj: Topology, degree: nat) {
    forall i :: i in adj ==> |adj[i]| <= degree
  }

  /** All relayed copies together weigh less than the packet relayed. */
  lemma CopiesAreLighter(degree: nat, o: Outcome, peers: seq<nat>, raw: Bytes)
    requires o.Deliver? && ParsePacket(raw) == Ok(o.message) && Relayed(o).Some? && |peers| <= degree
    ensures Total(WeightOf(degree), Sends(o, peers)) < Weight(degree, Budget(raw))
  {
    var copy := Relayed(o).value;
    assert Budget(raw) == o.message.sprayL && Budget(copy) == Budget(raw) / 2;
    TotalToAll(WeightOf(degree), peers, copy);
    SmallerDegree(|peers|, degree, Weight(degree, Budget(copy)));
  }

  /** Every arrival and every loss makes the packets in flight lighter. */
  lemma ActLightens(w: World, net: Net, a: Action, degree: nat)
    requires w.Valid() && w.Covers(net) && w.Enabled(net, a) && !a.Inject?
    requires DegreeAtMost(w.adj, degree)
    ensures TotalWeight(degree, w.Act(net, a).inflight) < TotalWeight(degree, net.inflight)
  {
    TotalWithout(WeightOf(degree), net.inflight, a.index);
    if a.Arrive? {
      ArrivalTotal(WeightOf(degree), w, net, a);
      var f := net.inflight[a.index];
      var o := w.Decision(net.logs[f.dest], f.raw, a.clock, a.falseHit);
      if Relayed(o).Some? {
        CopiesAreLighter(degree, o, w.adj[f.dest], f.raw);
      }
    }
  }

  /** On any finite topology, whatever was in flight and whatever each device had seen before, at
      most TotalWeight further arrivals and losses are possible: every run ends. No appeal is made
      to deduplication. */
  lemma {:induction false} RunsEnd(w: World, net: Net, actions: seq<Action>, degree: nat)
    requires w.Valid() && w.Covers(net) && w.AllEnabled(net, actions)
    requires forall k :: 0 <= k < |actions| ==> !actions[k].Inject?
    requires DegreeAtMost(w.adj, degree)
    ensures |actions| + TotalWeight(degree, w.Exec(net, actions).inflight) <= TotalWeight(degree, net.inflight)
    decreases |actions|
  {
    if actions != [] {
      ActLightens(w, net, actions[0], degree);
      RunsEnd(w, w.Act(net, actions[0]), actions[1..], degree);
    }
  }

  /** From any state of any finite network there is a way on, without losses and at any clock
      reading, after which nothing is in flight: deliver what is oldest until nothing is left. */
  lemma {:induction false} Drains(w: World, net: Net, clock: Readings, degree: nat) returns (actions: seq<Action>)
    requires w.Valid() && w.Covers(net) && DegreeAtMost(w.adj, degree)
    ensures w.AllEnabled(net, actions) && w.Exec(net, actions).inflight == []
    ensures forall k :: 0 <= k < |actions| ==> actions[k] == Arrive(0, clock, false)
    decreases TotalWeight(degree, net.inflight)
  {
    actions := [];
    if net.inflight != [] {
      var first := Arrive(0, clock, false);
      ActLightens(w, net, first, degree);
      var rest := Drains(w, w.Act(net, first), clock, degree);
      actions := [first] + rest;
      assert actions[1..] == rest;
    }
  }
}
