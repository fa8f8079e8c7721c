/** The simulated topologies as adjacency lists, and the loops that build them. */
module Topologies {

  type Topology = map<nat, seq<nat>>

  /** The devices are 0..n-1 and every neighbour is one of them. */
  ghost predicate Devices(adj: Topology, n: nat) {
    && (forall i: nat :: i in adj <==> i < n)
    && (forall i: nat, k :: i < n && 0 <= k < |adj[i]| ==> adj[i][k] < n)
  }

  /** No device lists another twice. */
  ghost predicate Simple(adj: Topology) {
    forall i, k, l :: i in adj && 0 <= k < l < |adj[i]| ==> adj[i][k] != adj[i][l]
  }

  /** j is listed at i iff i is listed at j, and nobody lists itself. */
  ghost predicate Symmetric(adj: Topology) {
    forall i, j :: i in adj && j in adj ==> (j in adj[i] <==> i in adj[j]) && i !in adj[i]
  }

  /** There is a walk of exactly h hops from source to dest. */
  ghost predicate Walk(adj: Topology, source: nat, dest: nat, h: nat)
    decreases h
  {
    if h == 0 then source == dest
    else exists via: nat :: via in adj && Walk(adj, source, via, h - 1) && dest in adj[via]
  }

  /** The number of directed edges out of devices 0..n-1. */
  function DirectedEdges(adj: Topology, n: nat): nat
    requires forall i: nat :: i < n ==> i in adj
  {
    if n == 0 then 0 else DirectedEdges(adj, n - 1) + |adj[n - 1]|
  }

  /** Every device starts with an empty list. */
  function NoPeers(i: nat): seq<nat> {
    []
  }

  // ----- line -----

  function LineNeighbours(i: nat, n: int): seq<nat> {
    (if i > 0 then [i - 1] else []) + (if i + 1 < n then [i + 1] else [])
  }

  ghost predicate IsLine(adj: Topology, n: int) {
    && (forall i: nat :: i in adj <==> i < n)
    && (forall i: nat :: i < n ==> adj[i] == LineNeighbours(i, n))
  }

  method BuildLine(n: int) returns (adj: Topology)
    ensures IsLine(adj, n)
  {
    adj := map i: nat | i < n :: NoPeers(i);
    var i: nat := 0;
    while i < n - 1
      invariant i == 0 || i <= n - 1
      invariant forall j: nat :: j in adj <==> j < n
      invariant forall j: nat :: j < n ==>
                  adj[j] == (if 0 < j <= i then [j - 1] else []) + (if j < i then [j + 1] else [])
    {
      adj := adj[i := adj[i] + [i + 1]];
      adj := adj[i + 1 := adj[i + 1] + [i]];
      i := i + 1;
    }
  }

  lemma {:induction false} LineEdges(adj: Topology, n: nat, m: nat)
    requires IsLine(adj, n) && m <= n
    ensures DirectedEdges(adj, m) == if m == 0 then 0 else if m == n then 2 * (n - 1) else 2 * m - 1
  {
    if m > 0 {
      LineEdges(adj, n, m - 1);
      assert adj[m - 1] == LineNeighbours(m - 1, n);
    }
  }

  lemma LineShape(adj: Topology, n: nat)
    requires IsLine(adj, n)
    ensures Devices(adj, n) && Simple(adj) && Symmetric(adj)
    ensures forall i: nat, j: nat :: i < n && j < n ==> (j in adj[i] <==> j == i + 1 || i == j + 1)
    ensures DirectedEdges(adj, n) == if n == 0 then 0 else 2 * (n - 1)
  {
    forall i: nat, j: nat | i < n && j < n ensures j in adj[i] <==> j == i + 1 || i == j + 1 {
      assert adj[i] == LineNeighbours(i, n);
      if i > 0 { assert LineNeighbours(i, n)[0] == i - 1; }
      if i + 1 < n { assert LineNeighbours(i, n)[|LineNeighbours(i, n)| - 1] == i + 1; }
    }
    LineEdges(adj, n, n);
  }

  // ----- star -----

  function Leaves(m: nat): (s: seq<nat>)
    ensures |s| == m
    ensures forall k :: 0 <= k < m ==> s[k] == k + 1
  {
    seq(m, k => k + 1)
  }

  ghost predicate IsStar(adj: Topology, n: int) {
    && (forall i: nat :: i in adj <==> i < n)
    && (n > 0 ==> adj[0] == Leaves(n - 1))
    && (forall i: nat :: 0 < i < n ==> adj[i] == [0])
  }

  method BuildStar(n: int) returns (adj: Topology)
    ensures IsStar(adj, n)
  {
    adj := map i: nat | i < n :: NoPeers(i);
    var i: nat := 1;
    while i < n
      invariant n > 0 ==> i <= n
      invariant forall j: nat :: j in adj <==> j < n
      invariant n > 0 ==> adj[0] == Leaves(i - 1)
      invariant forall j: nat :: 0 < j < n ==> adj[j] == if j < i then [0] else []
    {
      adj := adj[0 := adj[0] + [i]];
      adj := adj[i := adj[i] + [0]];
      i := i + 1;
    }
  }

  lemma {:induction false} StarEdges(adj: Topology, n: nat, m: nat)
    requires IsStar(adj, n) && m <= n
    ensures DirectedEdges(adj, m) == if m == 0 then 0 else n - 1 + (m - 1)
  {
    if m > 0 {
      StarEdges(adj, n, m - 1);
    }
  }

  lemma StarShape(adj: Topology, n: nat)
    requires IsStar(adj, n)
    ensures Devices(adj, n) && Simple(adj) && Symmetric(adj)
    ensures DirectedEdges(adj, n) == if n == 0 then 0 else 2 * (n - 1)
  {
    forall i: nat, j: nat | i < n && j < n ensures j in adj[i] <==> (i == 0 && j > 0) || (i > 0 && j == 0) {
      if i == 0 && j > 0 { assert adj[0][j - 1] == j; }
      if i > 0 && j == 0 { assert adj[i][0] == 0; }
    }
    StarEdges(adj, n, n);
  }

  // ----- mesh -----

  /** The devices below m other than i, in order. */
  function Others(i: nat, m: nat): (s: seq<nat>)
    ensures forall k :: 0 <= k < |s| ==> s[k] < m && s[k] != i
    ensures forall k, l :: 0 <= k < l < |s| ==> s[k] < s[l]
    ensures forall j: nat :: j < m && j != i ==> j in s
    ensures |s| == if i < m then m - 1 else m
  {
    if m == 0 then []
    else if m - 1 == i then Others(i, m - 1)
    else Others(i, m - 1) + [m - 1]
  }

  function BuildMesh(n: int): Topology {
    map i: nat | i < n :: Others(i, n)
  }

  lemma MeshDegree(n: nat, i: nat)
    requires i < n
    ensures |BuildMesh(n)[i]| == n - 1
  {
  }

  lemma OneMore(a: int, b: int)
    ensures (a + 1) * b == a * b + b
  {
  }

  lemma {:induction false} MeshEdges(n: nat, m: nat)
    requires m <= n
    ensures DirectedEdges(BuildMesh(n), m) == m * (n - 1)
  {
    if m > 0 {
      MeshEdges(n, m - 1);
      MeshDegree(n, m - 1);
      OneMore(m - 1, n - 1);
    }
  }

  lemma MeshShape(n: nat)
    ensures Devices(BuildMesh(n), n) && Simple(BuildMesh(n)) && Symmetric(BuildMesh(n))
    ensures DirectedEdges(BuildMesh(n), n) == n * (n - 1)
  {
    MeshEdges(n, n);
  }
}
