/** How often one message is sent over a whole network run. */
module NetworkSends {
  import opened ByteCodec
  import opened Network
  import opened NetworkWeights
  import opened Packet
  import opened PipelineHistory
  import opened PipelineRuns
  import opened Sets
  import opened Signing
  import opened Topologies
  import opened Wrappers
  import Dedup = DedupHistory

  /** All packets with this message id, or only those with this timestamp as well. */
  datatype Topic = Topic(msgId: Bytes, timestamp: Option<int>) {

    predicate Covers(m: Message) {
      m.msgId == msgId && (timestamp.Some? ==> m.timestamp == timestamp.value)
    }

    predicate Carries(raw: Bytes) {
      ParsePacket(raw).Ok? && Covers(ParsePacket(raw).value)
    }

    function Counter(): Bytes -> nat {
      (raw: Bytes) => if Carries(raw) then 1 else 0
    }
  }

  function CountSent(flights: seq<Flight>, topic: Topic): nat {
    Total(topic.Counter(), flights)
  }

  /** The packets among these that are bound for one device, or all of them. */
  function Toward(flights: seq<Flight>, to: Option<nat>): (bound: seq<Flight>)
    ensures to == None ==> bound == flights
  {
    if flights == [] then []
    else
      var f := flights[|flights| - 1];
      Toward(flights[..|flights| - 1], to) + if to == None || f.dest == to.value then [f] else []
  }

  /** The entries of a neighbour list for one device, or all of them. */
  function Listed(peers: seq<nat>, to: Option<nat>): (entries: seq<nat>)
    ensures to == None ==> entries == peers
  {
    if peers == [] then []
    else
      var peer := peers[|peers| - 1];
      Listed(peers[..|peers| - 1], to) + if to == None || peer == to.value then [peer] else []
  }

  /** The device relays a packet of this topic when it handles its event number i. */
  ghost predicate Forwards(t: Trace, i: nat, topic: Topic)
    requires i < |t.events|
  {
    t.Delivers(i) && Relayed(t.Result(i)).Some? && topic.Carries(t.events[i].raw)
  }

  ghost function CountForwards(t: Trace, n: nat, topic: Topic): nat
    requires n <= |t.events|
  {
    if n == 0 then 0 else CountForwards(t, n - 1, topic) + if Forwards(t, n - 1, topic) then 1 else 0
  }

  ghost function TraceOf(w: World, log: seq<Event>): Trace {
    Trace(w.verify, false, log)
  }

  ghost function ForwardsOf(w: World, log: seq<Event>, topic: Topic): nat {
    CountForwards(TraceOf(w, log), |log|, topic)
  }

  /** n times x. */
  function Times(n: nat, x: nat): nat {
    if n == 0 then 0 else Times(n - 1, x) + x
  }

  lemma TimesMore(n: nat, more: bool, x: nat)
    ensures Times(n + if more then 1 else 0, x) == Times(n, x) + if more then x else 0
  {
  }

  lemma {:induction false} TimesIsProduct(n: nat, x: nat)
    ensures Times(n, x) == n * x
  {
    if n > 0 {
      TimesIsProduct(n - 1, x);
      OneMore(n - 1, x);
    }
  }

  /** What a device owes: for every relay, one copy per entry of its neighbour list. */
  ghost function Owing(w: World, log: seq<Event>, peers: seq<nat>, topic: Topic, to: Option<nat>): nat {
    Times(ForwardsOf(w, log, topic), |Listed(peers, to)|)
  }

  // ----- counting sends -----

  lemma {:induction false} CountPrefix(t: Trace, t': Trace, n: nat, topic: Topic)
    requires t.verify == t'.verify && t.attested == t'.attested
    requires n <= |t.events| && t.events <= t'.events
    ensures CountForwards(t, n, topic) == CountForwards(t', n, topic)
  {
    if n > 0 {
      CountPrefix(t, t', n - 1, topic);
      assert t.events[..n - 1] == t'.events[..n - 1];
    }
  }

  lemma LastForwards(w: World, log: seq<Event>, raw: Bytes, clock: Readings, falseHit: bool, topic: Topic)
    ensures Forwards(TraceOf(w, log + [Receive(raw, clock, falseHit)]), |log|, topic) <==>
            Relayed(w.Decision(log, raw, clock, falseHit)).Some? && topic.Carries(raw)
  {
    assert (log + [Receive(raw, clock, falseHit)])[..|log|] == log;
  }

  /** One more event in a log. */
  lemma ForwardsSnoc(w: World, log: seq<Event>, raw: Bytes, clock: Readings, falseHit: bool, topic: Topic)
    ensures ForwardsOf(w, log + [Receive(raw, clock, falseHit)], topic) ==
            ForwardsOf(w, log, topic)
            + if Relayed(w.Decision(log, raw, clock, falseHit)).Some? && topic.Carries(raw) then 1 else 0
  {
    var log' := log + [Receive(raw, clock, falseHit)];
    CountPrefix(TraceOf(w, log), TraceOf(w, log'), |log|, topic);
    LastForwards(w, log, raw, clock, falseHit, topic);
  }

  lemma CopyCarries(o: Outcome, raw: Bytes, topic: Topic)
    requires o.Deliver? && ParsePacket(raw) == Ok(o.message) && Relayed(o).Some?
    ensures topic.Carries(Relayed(o).value) <==> topic.Carries(raw)
  {
    RewriteKeepsSignature(raw, o.message.ttl - 1, o.message.sprayL / 2, (k, r, s) => true);
  }

  lemma {:induction false} TowardSplit(a: seq<Flight>, b: seq<Flight>, to: Option<nat>)
    ensures Toward(a + b, to) == Toward(a, to) + Toward(b, to)
  {
    if b == [] {
      assert a + b == a;
    } else {
      assert (a + b)[..|a + b| - 1] == a + b[..|b| - 1];
      TowardSplit(a, b[..|b| - 1], to);
    }
  }

  /** One copy to everybody on the list: those bound for one device are as many as its entries. */
  lemma {:induction false} TowardToAll(peers: seq<nat>, raw: Bytes, to: Option<nat>)
    ensures Toward(ToAll(peers, raw), to) == ToAll(Listed(peers, to), raw)
  {
    if peers != [] {
      var init, peer := peers[..|peers| - 1], peers[|peers| - 1];
      assert ToAll(peers, raw)[..|peers| - 1] == ToAll(init, raw);
      TowardToAll(init, raw, to);
      var entries := Listed(init, to);
      assert (entries + [peer])[..|entries|] == entries;
    }
  }

  lemma SendsCount(o: Outcome, raw: Bytes, peers: seq<nat>, topic: Topic, to: Option<nat>)
    requires o.Deliver? ==> |o.message.raw| > SPRAY_OFFSET && ParsePacket(raw) == Ok(o.message)
    ensures CountSent(Toward(Sends(o, peers), to), topic) ==
            if Relayed(o).Some? && topic.Carries(raw) then |Listed(peers, to)| else 0
  {
    if Relayed(o).Some? {
      TowardToAll(peers, Relayed(o).value, to);
      TotalToAll(topic.Counter(), Listed(peers, to), Relayed(o).value);
      CopyCarries(o, raw, topic);
    }
  }

  /** What a device has sent of the topic is what it owes. */
  ghost predicate Paid(w: World, log: seq<Event>, sent: seq<Flight>, peers: seq<nat>, topic: Topic, to: Option<nat>) {
    CountSent(Toward(sent, to), topic) == Owing(w, log, peers, topic, to)
  }

  lemma SentMore(sent: seq<Flight>, copies: seq<Flight>, topic: Topic, to: Option<nat>)
    ensures CountSent(Toward(sent + copies, to), topic) ==
            CountSent(Toward(sent, to), topic) + CountSent(Toward(copies, to), topic)
  {
    TowardSplit(sent, copies, to);
    TotalSplit(topic.Counter(), Toward(sent, to), Toward(copies, to));
  }

  /** One relay more, or none, and the copies sent for it. */
  lemma PaidMore(
    owed: nat, owed': nat, sent: seq<Flight>, copies: seq<Flight>, peers: seq<nat>, topic: Topic, to: Option<nat>,
    relays: bool)
    requires CountSent(Toward(sent, to), topic) == Times(owed, |Listed(peers, to)|)
    requires owed' == owed + if relays then 1 else 0
    requires CountSent(Toward(copies, to), topic) == if relays then |Listed(peers, to)| else 0
    ensures CountSent(Toward(sent + copies, to), topic) == Times(owed', |Listed(peers, to)|)
  {
    SentMore(sent, copies, topic, to);
    TimesMore(owed, relays, |Listed(peers, to)|);
  }

  lemma OneMorePaid(
    w: World, log: seq<Event>, sent: seq<Flight>, peers: seq<nat>, raw: Bytes, clock: Readings, falseHit: bool,
    topic: Topic, to: Option<nat>)
    requires Paid(w, log, sent, peers, topic, to)
    ensures Paid(w, log + [Receive(raw, clock, falseHit)], sent + Sends(w.Decision(log, raw, clock, falseHit), peers),
                 peers, topic, to)
  {
    var o := w.Decision(log, raw, clock, falseHit);
    SendsCount(o, raw, peers, topic, to);
    ForwardsSnoc(w, log, raw, clock, falseHit, topic);
    var after := log + [Receive(raw, clock, falseHit)];
    PaidMore(ForwardsOf(w, log, topic), ForwardsOf(w, after, topic), sent, Sends(o, peers), peers, topic, to,
             Relayed(o).Some? && topic.Carries(raw));
  }

  ghost predicate Settled(w: World, net: Net, d: nat, topic: Topic, to: Option<nat>)
    requires w.Valid() && w.Covers(net) && d < w.n
  {
    Paid(w, net.logs[d], net.sent[d], w.adj[d], topic, to)
  }

  lemma HandleSends(w: World, net: Net, at: nat, raw: Bytes, clock: Readings, falseHit: bool)
    requires w.Valid() && w.Covers(net) && at < w.n
    ensures var next := w.Handle(net, at, raw, clock, falseHit);
            && next.logs == net.logs[at := net.logs[at] + [Receive(raw, clock, falseHit)]]
            && next.sent ==
               net.sent[at := net.sent[at] + Sends(w.Decision(net.logs[at], raw, clock, falseHit), w.adj[at])]
  {
  }

  lemma HandleSettles(
    w: World, net: Net, at: nat, raw: Bytes, clock: Readings, falseHit: bool, d: nat, topic: Topic, to: Option<nat>)
    requires w.Valid() && w.Covers(net) && at < w.n && d < w.n && Settled(w, net, d, topic, to)
    ensures Settled(w, w.Handle(net, at, raw, clock, falseHit), d, topic, to)
  {
    HandleSends(w, net, at, raw, clock, falseHit);
    OneMorePaid(w, net.logs[d], net.sent[d], w.adj[d], raw, clock, falseHit, topic, to);
  }

  lemma ActSettles(w: World, net: Net, a: Action, d: nat, topic: Topic, to: Option<nat>)
    requires w.Valid() && w.Covers(net) && w.Enabled(net, a) && d < w.n && Settled(w, net, d, topic, to)
    ensures Settled(w, w.Act(net, a), d, topic, to)
  {
    match a
    case Inject(at, raw, clock, falseHit) =>
      HandleSettles(w, net, at, raw, clock, falseHit, d, topic, to);
    case Arrive(i, clock, falseHit) =>
      var f := net.inflight[i];
      HandleSettles(w, net.(inflight := RemoveAt(net.inflight, i)), f.dest, f.raw, clock, falseHit, d, topic, to);
    case Lose(i) =>
  }

  lemma {:induction false} StaysSettled(
    w: World, net: Net, actions: seq<Action>, d: nat, topic: Topic, to: Option<nat>)
    requires w.Valid() && w.Covers(net) && w.AllEnabled(net, actions) && d < w.n
    requires Settled(w, net, d, topic, to)
    ensures Settled(w, w.Exec(net, actions), d, topic, to)
    decreases |actions|
  {
    if actions != [] {
      ActSettles(w, net, actions[0], d, topic, to);
      StaysSettled(w, w.Act(net, actions[0]), actions[1..], d, topic, to);
    }
  }

  lemma QuietSettled(w: World, d: nat, topic: Topic, to: Option<nat>)
    requires w.Valid() && d < w.n
    ensures Settled(w, w.Quiet(), d, topic, to)
  {
    assert w.Quiet().logs[d] == NoEvents(d) && w.Quiet().sent[d] == NoFlights(d);
  }

  /** In every run, what each device has sent of a topic, to everybody or to one neighbour, is exactly
      one copy per relaying event and entry of its neighbour list. */
  lemma SendsAreOwed(w: World, actions: seq<Action>, d: nat, topic: Topic, to: Option<nat>)
    requires w.Valid() && w.AllEnabled(w.Quiet(), actions) && d < w.n
    ensures var end := w.Exec(w.Quiet(), actions);
            CountSent(Toward(end.sent[d], to), topic)
            == ForwardsOf(w, end.logs[d], topic) * |Listed(w.adj[d], to)|
  {
    QuietSettled(w, d, topic, to);
    StaysSettled(w, w.Quiet(), actions, d, topic, to);
    TimesIsProduct(ForwardsOf(w, w.Exec(w.Quiet(), actions).logs[d], topic), |Listed(w.adj[d], to)|);
  }

  // ----- at most one relay per device -----

  /** A packet of the topic passes step 4 when the device handles event i. */
  ghost predicate PassesAt(t: Trace, i: nat, topic: Topic)
    requires i < |t.events|
  {
    t.PassesDedup(i) && t.Parses(i) && topic.Covers(t.Parsed(i))
  }

  /** At most one event of the run lets this topic past step 4. */
  ghost predicate PassesOnce(t: Trace, topic: Topic) {
    forall i: nat, j: nat :: i < j < |t.events| && PassesAt(t, i, topic) ==> !PassesAt(t, j, topic)
  }

  /** An id that passed is among the ids that passed by any later point. */
  lemma PassedIsRecorded(t: Trace, k: nat, n: nat)
    requires k < n <= |t.events| && t.PassesDedup(k)
    ensures t.Parses(k) && t.Parsed(k).msgId in Dedup.Ids(t.At(n).dedup.passed)
  {
    t.AtNext(k);
    ProcessHistories(t.verify, t.At(k), t.events[k].raw, t.events[k].clock, t.events[k].falseHit);
    PassedGrows(t, k + 1, n);
    var before := t.At(k).dedup.passed;
    assert t.At(k + 1).dedup.passed[|before|].id == t.Parsed(k).msgId;
    assert t.At(n).dedup.passed[|before|].id == t.Parsed(k).msgId;
  }

  /** The device never forgets: at every point, it remembers every id that ever passed. */
  ghost predicate NeverForgets(t: Trace) {
    forall n: nat, id ::
      n <= |t.events| && id in Dedup.Ids(t.At(n).dedup.passed) ==> Dedup.Remembered(t.At(n).dedup, id)
  }

  /** A device that never forgets lets each message id past step 4 at most once. */
  lemma RememberedPassesOnce(t: Trace, msgId: Bytes)
    requires NeverForgets(t)
    ensures PassesOnce(t, Topic(msgId, None))
  {
    forall i: nat, j: nat | i < j < |t.events| && PassesAt(t, i, Topic(msgId, None))
      ensures !PassesAt(t, j, Topic(msgId, None))
    {
      PassedIsRecorded(t, i, j);
      if PassesAt(t, j, Topic(msgId, None)) {
        t.AtNext(j);
        ProcessHistories(t.verify, t.At(j), t.events[j].raw, t.events[j].clock, t.events[j].falseHit);
      }
    }
  }

  /** Over the whole run no more ids passed step 4 than the cache has room for. Ids may have been
      forgotten all the same, by age. */
  ghost predicate FitsCache(t: Trace) {
    |Dedup.Ids(t.At(|t.events|).dedup.passed)| <= Dedup.CAPACITY
  }

  lemma OthersAreRecorded(t: Trace, a: nat, b: nat, msgId: Bytes)
    requires b <= |t.events|
    ensures OthersBetween(t, a, b, msgId) <= Dedup.Ids(t.At(|t.events|).dedup.passed)
    ensures msgId !in OthersBetween(t, a, b, msgId)
  {
    forall x | x in OthersBetween(t, a, b, msgId) ensures x in Dedup.Ids(t.At(|t.events|).dedup.passed) {
      var k: nat :| a < k < b && t.PassesDedup(k) && t.Parses(k) && t.Parsed(k).msgId == x;
      PassedIsRecorded(t, k, |t.events|);
    }
  }

  /** A device whose passes fit its cache lets a message with a given timestamp past step 4 at most
      once, whatever it forgot in the meantime. */
  lemma CachedPassesOnce(t: Trace, msgId: Bytes, timestamp: int)
    requires ClockRuns(t.events) && FitsCache(t)
    ensures PassesOnce(t, Topic(msgId, Some(timestamp)))
  {
    var topic := Topic(msgId, Some(timestamp));
    forall i: nat, j: nat | i < j < |t.events| && PassesAt(t, i, topic) ensures !PassesAt(t, j, topic) {
      if PassesAt(t, j, topic) {
        AtMostOnce(t, i, j);
        OthersAreRecorded(t, i, j, msgId);
        PassedIsRecorded(t, i, |t.events|);
        SubsetSize(OthersBetween(t, i, j, msgId) + {msgId}, Dedup.Ids(t.At(|t.events|).dedup.passed));
      }
    }
  }

  lemma {:induction false} NoForwards(t: Trace, n: nat, topic: Topic)
    requires n <= |t.events|
    requires forall i: nat :: i < n ==> !Forwards(t, i, topic)
    ensures CountForwards(t, n, topic) == 0
  {
    if n > 0 {
      NoForwards(t, n - 1, topic);
    }
  }

  lemma ForwardsPasses(t: Trace, i: nat, topic: Topic)
    requires i < |t.events| && Forwards(t, i, topic)
    ensures PassesAt(t, i, topic)
  {
  }

  lemma NoneBefore(t: Trace, n: nat, topic: Topic)
    requires PassesOnce(t, topic) && n < |t.events| && Forwards(t, n, topic)
    ensures forall i: nat :: i < n ==> !Forwards(t, i, topic)
  {
    ForwardsPasses(t, n, topic);
    forall i: nat | i < n ensures !Forwards(t, i, topic) {
      if Forwards(t, i, topic) {
        ForwardsPasses(t, i, topic);
      }
    }
  }

  lemma {:induction false} ForwardsOnce(t: Trace, n: nat, topic: Topic)
    requires PassesOnce(t, topic) && n <= |t.events|
    ensures CountForwards(t, n, topic) <= 1
  {
    if n > 0 {
      if Forwards(t, n - 1, topic) {
        NoneBefore(t, n - 1, topic);
        NoForwards(t, n - 1, topic);
      } else {
        ForwardsOnce(t, n - 1, topic);
      }
    }
  }

  // ----- edges -----

  /** A list without repetition has at most one entry for a device, and none for one not on it. */
  lemma {:induction false} ListedOnce(peers: seq<nat>, e: nat)
    requires forall k, l :: 0 <= k < l < |peers| ==> peers[k] != peers[l]
    ensures |Listed(peers, Some(e))| == if e in peers then 1 else 0
  {
    if peers != [] {
      var init, last := peers[..|peers| - 1], peers[|peers| - 1];
      ListedOnce(init, e);
      assert peers == init + [last];
    }
  }

  lemma SettledBounds(w: World, net: Net, d: nat, topic: Topic, to: Option<nat>)
    requires w.Valid() && w.Covers(net) && d < w.n && Settled(w, net, d, topic, to)
    requires PassesOnce(TraceOf(w, net.logs[d]), topic)
    ensures CountSent(Toward(net.sent[d], to), topic) <= |Listed(w.adj[d], to)|
  {
    ForwardsOnce(TraceOf(w, net.logs[d]), |net.logs[d]|, topic);
    assert Times(1, |Listed(w.adj[d], to)|) == Times(0, |Listed(w.adj[d], to)|) + |Listed(w.adj[d], to)|;
  }

  lemma DeviceSends(w: World, actions: seq<Action>, d: nat, topic: Topic, to: Option<nat>)
    requires w.Valid() && w.AllEnabled(w.Quiet(), actions) && d < w.n
    requires PassesOnce(TraceOf(w, w.Exec(w.Quiet(), actions).logs[d]), topic)
    ensures CountSent(Toward(w.Exec(w.Quiet(), actions).sent[d], to), topic) <= |Listed(w.adj[d], to)|
  {
    QuietSettled(w, d, topic, to);
    StaysSettled(w, w.Quiet(), actions, d, topic, to);
    SettledBounds(w, w.Exec(w.Quiet(), actions), d, topic, to);
  }

  /** The device sent the topic to e at most as often as its neighbour list names e, which on a list
      without repetition is once if e is a neighbour and never otherwise. */
  ghost predicate OncePerEdge(adj: Topology, sent: seq<Flight>, d: nat, e: nat, topic: Topic)
    requires d in adj
  {
    && CountSent(Toward(sent, Some(e)), topic) <= |Listed(adj[d], Some(e))|
    && (Simple(adj) ==> CountSent(Toward(sent, Some(e)), topic) <= if e in adj[d] then 1 else 0)
  }

  /** Whatever is injected, lost or reordered: what passes step 4 of a device at most once, that
      device sends at most once over each of its edges, and to nobody else. */
  lemma SendsOncePerEdge(w: World, actions: seq<Action>, d: nat, e: nat, topic: Topic)
    requires w.Valid() && w.AllEnabled(w.Quiet(), actions) && d < w.n
    requires PassesOnce(TraceOf(w, w.Exec(w.Quiet(), actions).logs[d]), topic)
    ensures OncePerEdge(w.adj, w.Exec(w.Quiet(), actions).sent[d], d, e, topic)
  {
    DeviceSends(w, actions, d, topic, Some(e));
    if Simple(w.adj) {
      ListedOnce(w.adj[d], e);
    }
  }

  /** In every run, a device that never forgets an id sends each message id at most once over each of
      its edges. */
  lemma SendsWhileRemembered(w: World, actions: seq<Action>, d: nat, e: nat, msgId: Bytes)
    requires w.Valid() && w.AllEnabled(w.Quiet(), actions) && d < w.n
    requires NeverForgets(TraceOf(w, w.Exec(w.Quiet(), actions).logs[d]))
    ensures OncePerEdge(w.adj, w.Exec(w.Quiet(), actions).sent[d], d, e, Topic(msgId, None))
  {
    RememberedPassesOnce(TraceOf(w, w.Exec(w.Quiet(), actions).logs[d]), msgId);
    SendsOncePerEdge(w, actions, d, e, Topic(msgId, None));
  }

  /** In every run, a device whose clock runs forward and whose passes fit its cache sends each
      message id with one timestamp at most once over each of its edges, even if it forgot ids by
      age. */
  lemma SendsWhileCached(w: World, actions: seq<Action>, d: nat, e: nat, msgId: Bytes, timestamp: int)
    requires w.Valid() && w.AllEnabled(w.Quiet(), actions) && d < w.n
    requires ClockRuns(w.Exec(w.Quiet(), actions).logs[d])
    requires FitsCache(TraceOf(w, w.Exec(w.Quiet(), actions).logs[d]))
    ensures OncePerEdge(w.adj, w.Exec(w.Quiet(), actions).sent[d], d, e, Topic(msgId, Some(timestamp)))
  {
    CachedPassesOnce(TraceOf(w, w.Exec(w.Quiet(), actions).logs[d]), msgId, timestamp);
    SendsOncePerEdge(w, actions, d, e, Topic(msgId, Some(timestamp)));
  }

  /** What the first m devices sent of a topic, together. */
  function SentBy(sent: map<nat, seq<Flight>>, m: nat, topic: Topic): nat
    requires forall d: nat :: d < m ==> d in sent
  {
    if m == 0 then 0 else SentBy(sent, m - 1, topic) + CountSent(sent[m - 1], topic)
  }

  lemma {:induction false} SentBounded(adj: Topology, sent: map<nat, seq<Flight>>, m: nat, topic: Topic)
    requires forall d: nat :: d < m ==> d in sent && d in adj && CountSent(sent[d], topic) <= |adj[d]|
    ensures SentBy(sent, m, topic) <= DirectedEdges(adj, m)
  {
    if m > 0 {
      SentBounded(adj, sent, m - 1, topic);
    }
  }

  ghost predicate AllPassOnce(w: World, net: Net, topic: Topic) {
    forall d: nat :: d in net.logs ==> PassesOnce(TraceOf(w, net.logs[d]), topic)
  }

  /** And so all devices together send it at most as often as there are directed edges. */
  lemma SendsAtMostEdges(w: World, actions: seq<Action>, topic: Topic)
    requires w.Valid() && w.AllEnabled(w.Quiet(), actions)
    requires AllPassOnce(w, w.Exec(w.Quiet(), actions), topic)
    ensures SentBy(w.Exec(w.Quiet(), actions).sent, w.n, topic) <= DirectedEdges(w.adj, w.n)
  {
    var sent := w.Exec(w.Quiet(), actions).sent;
    forall d: nat | d < w.n ensures CountSent(sent[d], topic) <= |w.adj[d]| {
      DeviceSends(w, actions, d, topic, None);
    }
    SentBounded(w.adj, sent, w.n, topic);
  }

  lemma EdgesOfLine(adj: Topology, n: nat)
    requires n > 0 && IsLine(adj, n)
    ensures Devices(adj, n) && Simple(adj) && DirectedEdges(adj, n) == 2 * (n - 1)
  {
    LineShape(adj, n);
  }

  lemma EdgesOfStar(adj: Topology, n: nat)
    requires n > 0 && IsStar(adj, n)
    ensures Devices(adj, n) && Simple(adj) && DirectedEdges(adj, n) == 2 * (n - 1)
  {
    StarShape(adj, n);
  }

  /** That is 2(n-1) sends on a line or a star of n devices, and n(n-1) in a mesh. */
  lemma EdgesOfShapes(adj: Topology, n: nat)
    requires n > 0
    ensures IsLine(adj, n) || IsStar(adj, n) ==>
              Devices(adj, n) && Simple(adj) && DirectedEdges(adj, n) == 2 * (n - 1)
    ensures adj == BuildMesh(n) ==> Devices(adj, n) && Simple(adj) && DirectedEdges(adj, n) == n * (n - 1)
  {
    if IsLine(adj, n) {
      EdgesOfLine(adj, n);
    } else if IsStar(adj, n) {
      EdgesOfStar(adj, n);
    } else if adj == BuildMesh(n) {
      MeshShape(n);
    }
  }
}
