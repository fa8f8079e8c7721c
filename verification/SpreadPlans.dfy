/** Which devices one message can end up at, as a question about the topology alone. */
module SpreadPlans {
  import opened Sets
  import opened Topologies

  /** For every device that gets the message, how many hops the copy it took had made. */
  type Hops = map<nat, nat>

  ghost predicate IsParent(adj: Topology, hops: Hops, via: nat, d: nat)
    requires d in hops
  {
    via in hops && via in adj && d in adj[via] && hops[d] == hops[via] + 1
  }

  /** Device d took the copy of a neighbour that had taken one a hop earlier. */
  ghost predicate HasParent(adj: Topology, hops: Hops, d: nat)
    requires d in hops
  {
    exists via :: IsParent(adj, hops, via, d)
  }

  /** How a message spreads from its source: every copy taken came from a neighbour's. */
  ghost predicate Grown(adj: Topology, n: nat, source: nat, hops: Hops) {
    && source in hops && hops[source] == 0
    && (forall d :: d in hops ==> d < n)
    && (forall d :: d in hops && d != source ==> HasParent(adj, hops, d))
  }

  /** Devices with a hop left have passed the message to all their neighbours. */
  ghost predicate Spent(adj: Topology, reach: nat, hops: Hops) {
    forall d, peer :: d in hops && d in adj && hops[d] < reach && peer in adj[d] ==> peer in hops
  }

  /** One way for a message of this reach to spread, from start to end. */
  ghost predicate IsPlan(adj: Topology, n: nat, source: nat, reach: nat, hops: Hops) {
    && Grown(adj, n, source, hops) && Spent(adj, reach, hops)
    && (forall d :: d in hops ==> hops[d] <= reach)
  }

  /** The device is at most that many hops away. */
  ghost predicate Within(adj: Topology, source: nat, d: nat, reach: nat) {
    exists h: nat :: h <= reach && Walk(adj, source, d, h)
  }

  /** However the message spreads, it gets exactly as far as its reach. */
  ghost predicate Exact(adj: Topology, n: nat, source: nat, reach: nat) {
    forall hops, d: nat ::
      IsPlan(adj, n, source, reach, hops) && d < n ==> (d in hops <==> Within(adj, source, d, reach))
  }

  /** One more device takes a neighbour's copy. */
  lemma GrownByOne(adj: Topology, n: nat, source: nat, hops: Hops, via: nat, d: nat)
    requires Grown(adj, n, source, hops) && d < n && d !in hops
    requires via in hops && via in adj && d in adj[via]
    ensures Grown(adj, n, source, hops[d := hops[via] + 1])
  {
    var more := hops[d := hops[via] + 1];
    assert IsParent(adj, more, via, d);
    forall e | e in hops && e != source ensures HasParent(adj, more, e) {
      assert HasParent(adj, hops, e);
      var above :| IsParent(adj, hops, above, e);
      assert IsParent(adj, more, above, e);
    }
  }

  // ----- plans in the making -----

  /** The spread so far, on its way to a plan. */
  ghost predicate PartOf(hops: Hops, plan: Hops) {
    forall d :: d in hops ==> d in plan && hops[d] == plan[d]
  }

  /** Some device next in the plan has its parent served. */
  lemma {:induction false} NextFrom(adj: Topology, n: nat, source: nat, plan: Hops, hops: Hops, goal: nat)
    returns (via: nat, d: nat)
    requires Grown(adj, n, source, plan) && PartOf(hops, plan) && source in hops && goal in plan && goal !in hops
    ensures d in plan && d !in hops && via in hops && IsParent(adj, plan, via, d)
    decreases plan[goal]
  {
    assert HasParent(adj, plan, goal);
    via :| IsParent(adj, plan, via, goal);
    d := goal;
    if via !in hops {
      via, d := NextFrom(adj, n, source, plan, hops, via);
    }
  }

  lemma NextInPlan(adj: Topology, n: nat, source: nat, reach: nat, plan: Hops, hops: Hops) returns (via: nat, d: nat)
    requires IsPlan(adj, n, source, reach, plan) && PartOf(hops, plan) && source in hops && hops.Keys != plan.Keys
    ensures d in plan && d !in hops && via in hops && via in adj && d in adj[via]
    ensures plan[d] == hops[via] + 1 <= reach
  {
    assert hops.Keys <= plan.Keys;
    var goal :| goal in plan && goal !in hops;
    via, d := NextFrom(adj, n, source, plan, hops, goal);
  }

  lemma PlanShrinks(hops: Hops, plan: Hops, d: nat)
    requires PartOf(hops, plan) && d in plan && d !in hops
    ensures PartOf(hops[d := plan[d]], plan)
    ensures |plan.Keys - hops[d := plan[d]].Keys| < |plan.Keys - hops.Keys|
  {
    assert plan.Keys - hops[d := plan[d]].Keys == plan.Keys - hops.Keys - {d};
  }

  lemma {:induction false} AtMostNDevices(devices: set<nat>, n: nat)
    requires forall d :: d in devices ==> d < n
    ensures |devices| <= n
  {
    if n > 0 {
      AtMostNDevices(devices - {n - 1}, n - 1);
    } else {
      assert devices == {};
    }
  }

  /** However a spread begins, it can go on to a plan. */
  lemma {:induction false} GrowsToPlan(adj: Topology, n: nat, source: nat, reach: nat, hops: Hops) returns (plan: Hops)
    requires Devices(adj, n) && Grown(adj, n, source, hops) && forall d :: d in hops ==> hops[d] <= reach
    ensures IsPlan(adj, n, source, reach, plan) && PartOf(hops, plan)
    decreases n - |hops|
  {
    AtMostNDevices(hops.Keys, n);
    if Spent(adj, reach, hops) {
      plan := hops;
    } else {
      var d, peer :| d in hops && d in adj && hops[d] < reach && peer in adj[d] && peer !in hops;
      GrownByOne(adj, n, source, hops, d, peer);
      AtMostNDevices(hops.Keys + {peer}, n);
      plan := GrowsToPlan(adj, n, source, reach, hops[peer := hops[d] + 1]);
    }
  }

  // ----- no plan exceeds the reach -----

  lemma {:induction false} PlanWalks(adj: Topology, n: nat, source: nat, hops: Hops, d: nat)
    requires Grown(adj, n, source, hops) && d in hops
    ensures Walk(adj, source, d, hops[d])
    decreases hops[d]
  {
    if d != source {
      assert HasParent(adj, hops, d);
      var via :| IsParent(adj, hops, via, d);
      PlanWalks(adj, n, source, hops, via);
    }
  }

  lemma PlanWithin(adj: Topology, n: nat, source: nat, reach: nat, hops: Hops, d: nat)
    requires IsPlan(adj, n, source, reach, hops) && d in hops
    ensures Within(adj, source, d, reach)
  {
    PlanWalks(adj, n, source, hops, d);
  }

  // ----- trees: exact for every reach -----

  /** A rooted tree: every device but the root lists the device above it, every other entry of its
      list is a device below it, and levels count the steps from the root. */
  datatype Rooting = Rooting(up: nat -> nat, level: nat -> nat) {

    ghost predicate Hangs(adj: Topology, n: nat, d: nat) {
      up(d) < n && up(d) in adj && d in adj[up(d)] && level(d) == level(up(d)) + 1
    }

    predicate IsEdge(d: nat, peer: nat, root: nat) {
      (d != root && peer == up(d)) || (peer != root && up(peer) == d)
    }

    ghost predicate Fits(adj: Topology, n: nat, root: nat) {
      && Devices(adj, n) && root < n && level(root) == 0
      && (forall d: nat :: d < n && d != root ==> Hangs(adj, n, d))
      && (forall d: nat, peer: nat :: d < n && peer in adj[d] ==> IsEdge(d, peer, root))
    }
  }

  /** In a tree, a copy always comes from above: hops are levels. */
  lemma {:induction false} HopsAreLevels(adj: Topology, n: nat, root: nat, tree: Rooting, hops: Hops, d: nat)
    requires tree.Fits(adj, n, root) && Grown(adj, n, root, hops) && d in hops
    ensures hops[d] == tree.level(d)
    ensures d != root ==> tree.up(d) in hops && hops[d] == hops[tree.up(d)] + 1
    decreases hops[d]
  {
    if d != root {
      assert HasParent(adj, hops, d);
      var via :| IsParent(adj, hops, via, d);
      HopsAreLevels(adj, n, root, tree, hops, via);
      assert tree.IsEdge(via, d, root) && tree.Hangs(adj, n, d);
    }
  }

  lemma {:induction false} LevelServed(adj: Topology, n: nat, root: nat, tree: Rooting, reach: nat, hops: Hops, d: nat)
    requires tree.Fits(adj, n, root) && IsPlan(adj, n, root, reach, hops)
    requires d < n && tree.level(d) <= reach
    ensures d in hops
    decreases tree.level(d)
  {
    if d != root {
      var above := tree.up(d);
      assert tree.Hangs(adj, n, d);
      LevelServed(adj, n, root, tree, reach, hops, above);
      HopsAreLevels(adj, n, root, tree, hops, above);
    }
  }

  /** In a tree a message gets to exactly the devices at most `reach` levels from its source. */
  lemma TreePlan(adj: Topology, n: nat, root: nat, tree: Rooting, reach: nat, hops: Hops, d: nat)
    requires tree.Fits(adj, n, root) && IsPlan(adj, n, root, reach, hops) && d < n
    ensures d in hops <==> tree.level(d) <= reach
  {
    if d in hops {
      HopsAreLevels(adj, n, root, tree, hops, d);
    } else if tree.level(d) <= reach {
      LevelServed(adj, n, root, tree, reach, hops, d);
    }
  }

  lemma WalkLevel(adj: Topology, n: nat, root: nat, tree: Rooting, d: nat, h: nat)
    requires tree.Fits(adj, n, root) && Walk(adj, root, d, h)
    ensures d < n && tree.level(d) <= h
    decreases h
  {
    if h > 0 {
      var via: nat :| via in adj && Walk(adj, root, via, h - 1) && d in adj[via];
      WalkLevel(adj, n, root, tree, via, h - 1);
      assert tree.IsEdge(via, d, root);
      assert d != root ==> tree.Hangs(adj, n, d);
      assert via != root ==> tree.Hangs(adj, n, via);
    }
  }

  lemma {:induction false} LevelWalk(adj: Topology, n: nat, root: nat, tree: Rooting, d: nat)
    requires tree.Fits(adj, n, root) && d < n
    ensures Walk(adj, root, d, tree.level(d))
    decreases tree.level(d)
  {
    if d != root {
      assert tree.Hangs(adj, n, d);
      LevelWalk(adj, n, root, tree, tree.up(d));
    }
  }

  /** Trees are exact for every reach, and levels are what the reach is compared with. */
  lemma TreesAreExact(adj: Topology, n: nat, root: nat, tree: Rooting, reach: nat)
    requires tree.Fits(adj, n, root)
    ensures Exact(adj, n, root, reach)
    ensures forall d: nat :: d < n ==> (Within(adj, root, d, reach) <==> tree.level(d) <= reach)
  {
    forall d: nat | d < n ensures Within(adj, root, d, reach) <==> tree.level(d) <= reach {
      LevelWalk(adj, n, root, tree, d);
      if Within(adj, root, d, reach) {
        var h: nat :| h <= reach && Walk(adj, root, d, h);
        WalkLevel(adj, n, root, tree, d, h);
      }
    }
    forall hops, d: nat | IsPlan(adj, n, root, reach, hops) && d < n
      ensures d in hops <==> Within(adj, root, d, reach)
    {
      TreePlan(adj, n, root, tree, reach, hops, d);
    }
  }

  function Distance(a: nat, b: nat): nat {
    if a <= b then b - a else a - b
  }

  function TowardsOnLine(source: nat, d: nat): nat {
    if d < source then d + 1 else if d > source then d - 1 else d
  }

  function LineRooting(source: nat): Rooting {
    Rooting((d: nat) => TowardsOnLine(source, d), (d: nat) => Distance(source, d))
  }

  lemma LineEdge(adj: Topology, n: nat, a: nat, b: nat)
    requires IsLine(adj, n) && a < n
    ensures b in adj[a] <==> b < n && (b == a + 1 || a == b + 1)
  {
    var peers := LineNeighbours(a, n);
    assert a + 1 < n ==> peers[|peers| - 1] == a + 1;
  }

  lemma LineHangs(adj: Topology, n: nat, source: nat, d: nat)
    requires IsLine(adj, n) && source < n && d < n && d != source
    ensures LineRooting(source).Hangs(adj, n, d)
  {
    LineEdge(adj, n, TowardsOnLine(source, d), d);
  }

  lemma LineHangsTogether(adj: Topology, n: nat, source: nat, d: nat, peer: nat)
    requires IsLine(adj, n) && source < n && d < n && peer in adj[d]
    ensures LineRooting(source).IsEdge(d, peer, source)
  {
    LineEdge(adj, n, d, peer);
  }

  lemma LineDevices(adj: Topology, n: nat)
    requires IsLine(adj, n)
    ensures Devices(adj, n)
  {
  }

  lemma LineFits(adj: Topology, n: nat, source: nat)
    requires IsLine(adj, n) && source < n
    ensures LineRooting(source).Fits(adj, n, source)
  {
    var tree := LineRooting(source);
    LineDevices(adj, n);
    forall d: nat | d < n && d != source ensures tree.Hangs(adj, n, d) {
      LineHangs(adj, n, source, d);
    }
    forall d: nat, peer: nat | d < n && peer in adj[d] ensures tree.IsEdge(d, peer, source) {
      LineHangsTogether(adj, n, source, d, peer);
    }
  }

  /** A line, from any of its devices. */
  lemma LinesAreExact(adj: Topology, n: nat, source: nat, reach: nat)
    requires IsLine(adj, n) && source < n
    ensures Exact(adj, n, source, reach)
    ensures forall d: nat :: d < n ==> (Within(adj, source, d, reach) <==> Distance(source, d) <= reach)
  {
    LineFits(adj, n, source);
    TreesAreExact(adj, n, source, LineRooting(source), reach);
    forall d: nat | d < n ensures Within(adj, source, d, reach) <==> Distance(source, d) <= reach {
      assert LineRooting(source).level(d) == Distance(source, d);
    }
  }

  /** On a star the hub is one hop from every leaf, and leaves are two hops from each other. */
  function StarDistance(a: nat, b: nat): nat {
    if a == b then 0 else if a == 0 || b == 0 then 1 else 2
  }

  function TowardsOnStar(source: nat, d: nat): nat {
    if d == source then d else if d == 0 then source else 0
  }

  function StarRooting(source: nat): Rooting {
    Rooting((d: nat) => TowardsOnStar(source, d), (d: nat) => StarDistance(source, d))
  }

  lemma StarEdge(adj: Topology, n: nat, a: nat, b: nat)
    requires IsStar(adj, n) && a < n
    ensures b in adj[a] <==> b < n && (a == 0) != (b == 0)
  {
    if a == 0 && 0 < b < n {
      assert adj[0][b - 1] == b;
    }
  }

  lemma StarHangs(adj: Topology, n: nat, source: nat, d: nat)
    requires IsStar(adj, n) && source < n && d < n && d != source
    ensures StarRooting(source).Hangs(adj, n, d)
  {
    StarEdge(adj, n, TowardsOnStar(source, d), d);
  }

  lemma StarFits(adj: Topology, n: nat, source: nat)
    requires IsStar(adj, n) && source < n
    ensures StarRooting(source).Fits(adj, n, source)
  {
    var tree := StarRooting(source);
    StarShape(adj, n);
    forall d: nat | d < n && d != source ensures tree.Hangs(adj, n, d) {
      StarHangs(adj, n, source, d);
    }
    forall d: nat, peer: nat | d < n && peer in adj[d] ensures tree.IsEdge(d, peer, source) {
      StarEdge(adj, n, d, peer);
    }
  }

  /** A star, from the hub or from a leaf. */
  lemma StarsAreExact(adj: Topology, n: nat, source: nat, reach: nat)
    requires IsStar(adj, n) && source < n
    ensures Exact(adj, n, source, reach)
    ensures forall d: nat :: d < n ==> (Within(adj, source, d, reach) <==> StarDistance(source, d) <= reach)
  {
    StarFits(adj, n, source);
    TreesAreExact(adj, n, source, StarRooting(source), reach);
    forall d: nat | d < n ensures Within(adj, source, d, reach) <==> StarDistance(source, d) <= reach {
      assert StarRooting(source).level(d) == StarDistance(source, d);
    }
  }

  // ----- any topology -----

  lemma ShortWalkServed(adj: Topology, n: nat, source: nat, reach: nat, hops: Hops, d: nat)
    requires IsPlan(adj, n, source, reach, hops) && reach <= 1 && Within(adj, source, d, reach)
    ensures d in hops
  {
    var h: nat :| h <= reach && Walk(adj, source, d, h);
    if h == 1 {
      var via: nat :| via in adj && Walk(adj, source, via, 0) && d in adj[via];
    }
  }

  /** With no hop only the source has the message, with one exactly its neighbours as well. */
  lemma ShortReachExact(adj: Topology, n: nat, source: nat, reach: nat)
    requires Devices(adj, n) && source < n && reach <= 1
    ensures Exact(adj, n, source, reach)
  {
    forall hops, d: nat | IsPlan(adj, n, source, reach, hops) && d < n
      ensures d in hops <==> Within(adj, source, d, reach)
    {
      if d in hops {
        PlanWithin(adj, n, source, reach, hops, d);
      } else if Within(adj, source, d, reach) {
        ShortWalkServed(adj, n, source, reach, hops, d);
        assert false;
      }
    }
  }

  /** The devices that took their copy after at most h hops. */
  ghost function UpToHop(hops: Hops, h: nat): set<nat> {
    set d | d in hops && hops[d] <= h
  }

  /** A copy of h hops has h + 1 devices behind it. */
  lemma {:induction false} HopsNeedDevices(adj: Topology, n: nat, source: nat, hops: Hops, d: nat)
    requires Grown(adj, n, source, hops) && d in hops
    ensures |UpToHop(hops, hops[d])| >= hops[d] + 1
    decreases hops[d]
  {
    if d == source {
      assert source in UpToHop(hops, 0);
    } else {
      assert HasParent(adj, hops, d);
      var via :| IsParent(adj, hops, via, d);
      HopsNeedDevices(adj, n, source, hops, via);
      SubsetSize(UpToHop(hops, hops[via]) + {d}, UpToHop(hops, hops[d]));
    }
  }

  /** When the reach is at least n - 1, whoever is not served neighbours nobody who is. */
  lemma LongReachCloses(adj: Topology, n: nat, source: nat, reach: nat, hops: Hops, d: nat, peer: nat)
    requires Devices(adj, n) && reach + 1 >= n && IsPlan(adj, n, source, reach, hops)
    requires d in hops && peer in adj[d]
    ensures peer in hops
  {
    if peer !in hops {
      HopsNeedDevices(adj, n, source, hops, d);
      var served := UpToHop(hops, hops[d]);
      AtMostNDevices(served + {peer}, n);
    }
  }

  lemma {:induction false} LongReachServes(adj: Topology, n: nat, source: nat, reach: nat, hops: Hops, d: nat, h: nat)
    requires Devices(adj, n) && reach + 1 >= n && IsPlan(adj, n, source, reach, hops) && Walk(adj, source, d, h)
    ensures d in hops
    decreases h
  {
    if h > 0 {
      var via: nat :| via in adj && Walk(adj, source, via, h - 1) && d in adj[via];
      LongReachServes(adj, n, source, reach, hops, via, h - 1);
      LongReachCloses(adj, n, source, reach, hops, via, d);
    }
  }

  ghost predicate Connected(adj: Topology, source: nat, d: nat) {
    exists h: nat :: Walk(adj, source, d, h)
  }

  lemma LongReachPlan(adj: Topology, n: nat, source: nat, reach: nat, hops: Hops, d: nat)
    requires Devices(adj, n) && reach + 1 >= n && IsPlan(adj, n, source, reach, hops)
    ensures d in hops <==> Connected(adj, source, d)
  {
    if d in hops {
      PlanWalks(adj, n, source, hops, d);
    } else if Connected(adj, source, d) {
      var h: nat :| Walk(adj, source, d, h);
      LongReachServes(adj, n, source, reach, hops, d, h);
      assert false;
    }
  }

  /** A reach of n - 1 hops is exact on every topology of n devices. */
  lemma LongReachExact(adj: Topology, n: nat, source: nat, reach: nat)
    requires Devices(adj, n) && source < n && reach + 1 >= n
    ensures Exact(adj, n, source, reach)
  {
    forall hops, d: nat | IsPlan(adj, n, source, reach, hops) && d < n
      ensures d in hops <==> Within(adj, source, d, reach)
    {
      if d in hops {
        PlanWithin(adj, n, source, reach, hops, d);
      } else if Within(adj, source, d, reach) {
        var h: nat :| h <= reach && Walk(adj, source, d, h);
        LongReachServes(adj, n, source, reach, hops, d, h);
      }
    }
  }

  lemma MeshWithin(n: nat, source: nat, reach: nat, d: nat)
    requires source < n && d < n
    ensures Within(BuildMesh(n), source, d, reach) <==> d == source || reach >= 1
  {
    var adj := BuildMesh(n);
    assert Walk(adj, source, source, 0);
    if d != source {
      assert d in adj[source];
      assert Walk(adj, source, d, 1);
    }
  }

  lemma MeshSpent(n: nat, source: nat, reach: nat, hops: Hops, d: nat)
    requires source < n && d < n && d != source && reach >= 1 && IsPlan(BuildMesh(n), n, source, reach, hops)
    ensures d in hops
  {
    assert d in BuildMesh(n)[source];
  }

  lemma MeshPlan(n: nat, source: nat, reach: nat, hops: Hops, d: nat)
    requires source < n && d < n && IsPlan(BuildMesh(n), n, source, reach, hops)
    ensures d in hops <==> d == source || reach >= 1
  {
    if d in hops {
      PlanWithin(BuildMesh(n), n, source, reach, hops, d);
      MeshWithin(n, source, reach, d);
    } else if d != source && reach >= 1 {
      MeshSpent(n, source, reach, hops, d);
    }
  }

  /** In a mesh everyone is one hop away. */
  lemma MeshesAreExact(n: nat, source: nat, reach: nat)
    requires source < n
    ensures Exact(BuildMesh(n), n, source, reach)
    ensures forall d: nat :: d < n ==> (Within(BuildMesh(n), source, d, reach) <==> d == source || reach >= 1)
  {
    var adj := BuildMesh(n);
    forall d: nat | d < n ensures Within(adj, source, d, reach) <==> d == source || reach >= 1 {
      MeshWithin(n, source, reach, d);
    }
    forall hops, d: nat | IsPlan(adj, n, source, reach, hops) && d < n
      ensures d in hops <==> Within(adj, source, d, reach)
    {
      MeshPlan(n, source, reach, hops, d);
    }
  }

  // ----- between those, the order of arrival matters -----

  /** A triangle 0, 1, 2 whose device 2 starts a tail 3, 4, and so on. */
  function KiteNeighbours(i: nat, n: nat): seq<nat> {
    if i == 0 then [1, 2] else if i == 1 then [0, 2]
    else (if i == 2 then [0, 1] else [i - 1]) + (if i + 1 < n then [i + 1] else [])
  }

  function Kite(n: nat): Topology {
    map i: nat | i < n :: KiteNeighbours(i, n)
  }

  lemma KiteEdge(n: nat, i: nat, j: nat)
    requires n >= 3 && i < n && j < n
    ensures j in Kite(n)[i] <==> j == i + 1 || i == j + 1 || (i == 0 && j == 2) || (i == 2 && j == 0)
  {
    assert Kite(n)[i] == KiteNeighbours(i, n);
    assert i >= 2 && i + 1 < n ==> KiteNeighbours(i, n)[|KiteNeighbours(i, n)| - 1] == i + 1;
  }

  /** Two-way topologies on the devices 0..n-1. */
  ghost predicate Undirected(adj: Topology, n: nat) {
    Devices(adj, n) && Simple(adj) && Symmetric(adj)
  }

  lemma KiteShape(n: nat)
    requires n >= 3
    ensures Undirected(Kite(n), n)
  {
    var adj := Kite(n);
    forall i: nat | i < n ensures adj[i] == KiteNeighbours(i, n) && i !in adj[i] {
      KiteEdge(n, i, i);
    }
    forall i: nat, j: nat | i < n && j < n ensures j in adj[i] <==> i in adj[j] {
      KiteEdge(n, i, j);
      KiteEdge(n, j, i);
    }
  }

  function HopsTheLongWay(d: nat): nat {
    d
  }

  /** Everybody up to device `reach` has the message, each from the one before: device 2 took the
      copy that came by way of device 1. */
  function LongWay(reach: nat): Hops {
    map d: nat | d <= reach :: HopsTheLongWay(d)
  }

  lemma LongWayParent(n: nat, reach: nat, d: nat)
    requires 2 <= reach && reach + 2 <= n && 0 < d <= reach
    ensures HasParent(Kite(n), LongWay(reach), d)
  {
    KiteEdge(n, d - 1, d);
    assert IsParent(Kite(n), LongWay(reach), d - 1, d);
  }

  lemma LongWayIsPlan(n: nat, reach: nat)
    requires 2 <= reach && reach + 2 <= n
    ensures IsPlan(Kite(n), n, 0, reach, LongWay(reach))
  {
    var adj, hops := Kite(n), LongWay(reach);
    KiteShape(n);
    forall d: nat | 0 < d <= reach ensures HasParent(Kite(n), LongWay(reach), d) {
      LongWayParent(n, reach, d);
    }
    forall d: nat, peer: nat | d < reach && peer in adj[d] ensures peer in hops {
      KiteEdge(n, d, peer);
    }
  }

  /** The tail is one hop closer than that. */
  lemma {:induction false} KiteWalk(n: nat, d: nat)
    requires 2 <= d < n
    ensures Walk(Kite(n), 0, d, d - 1)
  {
    KiteEdge(n, if d == 2 then 0 else d - 1, d);
    if d == 2 {
      assert Walk(Kite(n), 0, 0, 0);
    } else {
      KiteWalk(n, d - 1);
    }
  }

  lemma KiteWithin(n: nat, reach: nat)
    requires 2 <= reach && reach + 2 <= n
    ensures Within(Kite(n), 0, reach + 1, reach)
  {
    KiteWalk(n, reach + 1);
  }

  lemma MissedByPlan(adj: Topology, n: nat, source: nat, reach: nat, hops: Hops, d: nat)
    requires IsPlan(adj, n, source, reach, hops) && d < n && d !in hops && Within(adj, source, d, reach)
    ensures !Exact(adj, n, source, reach)
  {
  }

  /** A two-way topology on which a message of this reach can miss a device within its reach. */
  lemma KiteMisses(n: nat, reach: nat) returns (adj: Topology, hops: Hops)
    requires 2 <= reach && reach + 2 <= n
    ensures Undirected(adj, n) && IsPlan(adj, n, 0, reach, hops)
    ensures Within(adj, 0, reach + 1, reach) && reach + 1 !in hops
  {
    adj, hops := Kite(n), LongWay(reach);
    KiteShape(n);
    LongWayIsPlan(n, reach);
    KiteWithin(n, reach);
  }

  lemma ShortOrLongExact(adj: Topology, n: nat, source: nat, reach: nat)
    requires Devices(adj, n) && source < n && (reach <= 1 || reach + 1 >= n)
    ensures Exact(adj, n, source, reach)
  {
    if reach <= 1 {
      ShortReachExact(adj, n, source, reach);
    } else {
      LongReachExact(adj, n, source, reach);
    }
  }

  /** How far a message gets is independent of the order of arrival on all topologies of n devices
      and from all sources exactly when its reach is at most one hop or at least n - 1. */
  lemma ExactEverywhereIff(n: nat, reach: nat)
    ensures (forall adj, source: nat :: Undirected(adj, n) && source < n ==> Exact(adj, n, source, reach)) <==>
            reach <= 1 || reach + 1 >= n
  {
    if reach <= 1 || reach + 1 >= n {
      forall adj, source: nat | Undirected(adj, n) && source < n ensures Exact(adj, n, source, reach) {
        ShortOrLongExact(adj, n, source, reach);
      }
    } else {
      var kite, hops := KiteMisses(n, reach);
      MissedByPlan(kite, n, 0, reach, hops, reach + 1);
    }
  }
}
