/**
 * The path graph engine behind handleAddPath and handleAddNewPath: a list of
 * SubNodes, one per active grid cell, grown one edge per click. Both handlers
 * run this same engine, on Level.SubNodes and on NewPaths[0].NodesToUnlock.
 *
 * An edge between two nodes counts as connected when EITHER endpoint records
 * the direction that points at the other. NeighbourNodes[d] flags an active
 * grid neighbour in direction d that is not connected.
 */
module PathGraph {
  import opened EditorTypes
  import opened Topology

  // ---------------------------------------------------------------------------
  // Lookups in the node list (Array.prototype.find / findIndex / some).

  /** The position of the first node with this Index, or -1. */
  function FirstWithIndex(nodes: seq<SubNode>, index: int): (k: int)
    ensures -1 <= k < |nodes|
    ensures k >= 0 ==> nodes[k].Index == index && forall j | 0 <= j < k :: nodes[j].Index != index
    ensures k == -1 ==> forall j | 0 <= j < |nodes| :: nodes[j].Index != index
  {
    if |nodes| == 0 then -1
    else if nodes[|nodes| - 1].Index == index && FirstWithIndex(nodes[..|nodes| - 1], index) == -1
    then |nodes| - 1
    else FirstWithIndex(nodes[..|nodes| - 1], index)
  }

  predicate HasNode(nodes: seq<SubNode>, index: int) {
    FirstWithIndex(nodes, index) >= 0
  }

  /** The node `find` returns. */
  function NodeAt(nodes: seq<SubNode>, index: int): SubNode
    requires HasNode(nodes, index)
  {
    nodes[FirstWithIndex(nodes, index)]
  }

  lemma HasNodeIff(nodes: seq<SubNode>, index: int)
    ensures HasNode(nodes, index) <==> exists j | 0 <= j < |nodes| :: nodes[j].Index == index
  {
  }

  /** Two lists with the same Index at every position have the same lookups. */
  lemma FirstWithIndexSameIndices(a: seq<SubNode>, b: seq<SubNode>, index: int)
    requires |a| == |b| && forall i | 0 <= i < |a| :: a[i].Index == b[i].Index
    ensures FirstWithIndex(a, index) == FirstWithIndex(b, index)
  {
    var ka, kb := FirstWithIndex(a, index), FirstWithIndex(b, index);
    assert ka >= 0 ==> b[ka].Index == index;
    assert kb >= 0 ==> a[kb].Index == index;
  }

  /** Appending a node: old lookups are kept, the new one is found only if new. */
  lemma FirstWithIndexAppend(nodes: seq<SubNode>, n: SubNode, index: int)
    ensures FirstWithIndex(nodes + [n], index) ==
      if HasNode(nodes, index) then FirstWithIndex(nodes, index)
      else if n.Index == index then |nodes| else -1
  {
    var l := nodes + [n];
    var k := FirstWithIndex(l, index);
    var k0 := FirstWithIndex(nodes, index);
    assert k0 >= 0 ==> l[k0].Index == index;
    assert 0 <= k < |nodes| ==> nodes[k].Index == index;
    assert k == |nodes| ==> n.Index == index;
    assert l[|nodes|] == n;
  }

  // ---------------------------------------------------------------------------
  // Well-formed graphs.

  predicate AllOnGrid(nodes: seq<SubNode>) {
    forall i | 0 <= i < |nodes| :: OnGrid(nodes[i].Index)
  }

  predicate UniqueIndices(nodes: seq<SubNode>) {
    forall i, j | 0 <= i < j < |nodes| :: nodes[i].Index != nodes[j].Index
  }

  /** Paths entries are directions and none is repeated. */
  predicate ValidPaths(paths: seq<int>) {
    (forall i | 0 <= i < |paths| :: IsDirection(paths[i]))
    && (forall i, j | 0 <= i < j < |paths| :: paths[i] != paths[j])
  }

  /** How many times d occurs in a Paths list. */
  function Count(paths: seq<int>, d: int): nat {
    multiset(paths)[d]
  }

  predicate ValidNode(n: SubNode) {
    OnGrid(n.Index) && ValidPaths(n.Paths) && |n.NeighbourNodes| == 4 && |n.JumpNodes| == 4
  }

  /** The invariant both handlers keep: every node is a grid cell with valid
      Paths and 4-entry flag arrays, and no Index occurs twice. */
  predicate ValidGraph(nodes: seq<SubNode>) {
    (forall i | 0 <= i < |nodes| :: ValidNode(nodes[i])) && UniqueIndices(nodes)
  }

  lemma ValidGraphOnGrid(nodes: seq<SubNode>)
    requires ValidGraph(nodes)
    ensures AllOnGrid(nodes)
  {
  }

  /** In a valid graph the node `find` returns is the only one with its Index. */
  lemma UniqueNodeAt(nodes: seq<SubNode>, i: int)
    requires UniqueIndices(nodes) && 0 <= i < |nodes|
    ensures HasNode(nodes, nodes[i].Index) && FirstWithIndex(nodes, nodes[i].Index) == i
  {
    var k := FirstWithIndex(nodes, nodes[i].Index);
    assert k >= 0;
  }

  /** A list of paths without repeats holds each of its entries exactly once. */
  lemma CountInValidPaths(paths: seq<int>, d: int)
    requires ValidPaths(paths) && d in paths
    ensures Count(paths, d) == 1
  {
    var i :| 0 <= i < |paths| && paths[i] == d;
    assert paths == paths[..i] + [d] + paths[i + 1..];
    assert d !in paths[..i] && d !in paths[i + 1..];
    assert multiset(paths) == multiset(paths[..i]) + multiset{d} + multiset(paths[i + 1..]);
  }

  // ---------------------------------------------------------------------------
  // Connectivity.

  /** areNodesConnected: both nodes must be in the list; the pair of Paths
      entries to test comes from the first matching relative-position test, in
      the order above / right / below / left, each on one coordinate only. */
  function AreNodesConnected(nodes: seq<SubNode>, a: int, b: int): bool {
    if !HasNode(nodes, a) || !HasNode(nodes, b) then false
    else
      var n1, n2 := NodeAt(nodes, a), NodeAt(nodes, b);
      var p1, p2 := PositionOf(a), PositionOf(b);
      if p2.0 == p1.0 - 1 then 0 in n1.Paths || 2 in n2.Paths
      else if p2.1 == p1.1 + 1 then 1 in n1.Paths || 3 in n2.Paths
      else if p2.0 == p1.0 + 1 then 2 in n1.Paths || 0 in n2.Paths
      else if p2.1 == p1.1 - 1 then 3 in n1.Paths || 1 in n2.Paths
      else false
  }

  /** The either-endpoint rule for v and its neighbour w in direction d. */
  predicate LinkedEitherWay(nodes: seq<SubNode>, v: int, w: int, d: int)
    requires IsDirection(d)
  {
    HasNode(nodes, v) && HasNode(nodes, w)
    && (d in NodeAt(nodes, v).Paths || Opposite(d) in NodeAt(nodes, w).Paths)
  }

  /** For a real grid neighbour the relative-position chain picks the pair
      (d, opposite d): connectivity is the either-endpoint rule. */
  lemma ConnectedNeighbours(nodes: seq<SubNode>, v: int, d: int)
    requires OnGrid(v) && IsDirection(d) && Neighbour(v, d).Some?
    ensures AreNodesConnected(nodes, v, Neighbour(v, d).value)
            == LinkedEitherWay(nodes, v, Neighbour(v, d).value, d)
  {
    var w := Neighbour(v, d).value;
    NeighbourPosition(v, d);
    var p1, p2 := PositionOf(v), PositionOf(w);
    if d == UP {
      assert p2.0 == p1.0 - 1;
    } else if d == RIGHT {
      assert p2.0 == p1.0 && p2.1 == p1.1 + 1;
    } else if d == DOWN {
      assert p2.0 == p1.0 + 1 && p2.1 == p1.1;
    } else {
      assert p2.0 == p1.0 && p2.1 == p1.1 - 1;
    }
  }

  /** The rule does not depend on which endpoint is asked first. */
  lemma ConnectedSymmetric(nodes: seq<SubNode>, v: int, d: int)
    requires OnGrid(v) && IsDirection(d) && Neighbour(v, d).Some?
    ensures AreNodesConnected(nodes, v, Neighbour(v, d).value)
            == AreNodesConnected(nodes, Neighbour(v, d).value, v)
  {
    var w := Neighbour(v, d).value;
    NeighbourSymmetric(v, d);
    ConnectedNeighbours(nodes, v, d);
    ConnectedNeighbours(nodes, w, Opposite(d));
    assert Opposite(Opposite(d)) == d;
  }

  // ---------------------------------------------------------------------------
  // Neighbour flags (getNeighbourNodes).

  function NeighbourBlocked(nodes: seq<SubNode>, v: int, d: int): bool
    requires OnGrid(v) && IsDirection(d)
  {
    match Neighbour(v, d)
    case None => false
    case Some(w) => HasNode(nodes, w) && !AreNodesConnected(nodes, v, w)
  }

  function GetNeighbourNodes(nodes: seq<SubNode>, v: int): (flags: seq<bool>)
    requires OnGrid(v)
    ensures |flags| == 4
  {
    [NeighbourBlocked(nodes, v, UP), NeighbourBlocked(nodes, v, RIGHT),
     NeighbourBlocked(nodes, v, DOWN), NeighbourBlocked(nodes, v, LEFT)]
  }

  /** NeighbourNodes[d] holds exactly when a grid cell exists in direction d,
      that cell is in the list, and neither this node records d nor the
      neighbour records the opposite direction. A node that is not itself in
      the list is never connected, so its flag only asks for the neighbour. */
  lemma NeighbourFlagMeaning(nodes: seq<SubNode>, v: int, d: int)
    requires OnGrid(v) && IsDirection(d)
    ensures GetNeighbourNodes(nodes, v)[d] <==>
      Neighbour(v, d).Some? && HasNode(nodes, Neighbour(v, d).value)
      && !LinkedEitherWay(nodes, v, Neighbour(v, d).value, d)
  {
    if Neighbour(v, d).Some? {
      ConnectedNeighbours(nodes, v, d);
    }
  }

  /** Two lists agreeing on Index and Paths everywhere. */
  predicate SameShape(a: seq<SubNode>, b: seq<SubNode>) {
    |a| == |b| && forall i | 0 <= i < |a| :: a[i].Index == b[i].Index && a[i].Paths == b[i].Paths
  }

  /** The flags read only Index and Paths, never the flags themselves. */
  lemma FlagsDependOnShape(a: seq<SubNode>, b: seq<SubNode>, v: int)
    requires SameShape(a, b) && OnGrid(v)
    ensures GetNeighbourNodes(a, v) == GetNeighbourNodes(b, v)
  {
    BlockedDependsOnShape(a, b, v, UP);
    BlockedDependsOnShape(a, b, v, RIGHT);
    BlockedDependsOnShape(a, b, v, DOWN);
    BlockedDependsOnShape(a, b, v, LEFT);
  }

  lemma BlockedDependsOnShape(a: seq<SubNode>, b: seq<SubNode>, v: int, d: int)
    requires SameShape(a, b) && OnGrid(v) && IsDirection(d)
    ensures NeighbourBlocked(a, v, d) == NeighbourBlocked(b, v, d)
  {
    FirstWithIndexSameIndices(a, b, v);
    if Neighbour(v, d).Some? {
      FirstWithIndexSameIndices(a, b, Neighbour(v, d).value);
    }
  }

  /** The flags of every node after the forEach refresh. */
  function Refresh(nodes: seq<SubNode>): (r: seq<SubNode>)
    requires AllOnGrid(nodes)
    ensures SameShape(r, nodes)
    ensures forall i | 0 <= i < |r| :: r[i].JumpNodes == nodes[i].JumpNodes
  {
    seq(|nodes|, i requires 0 <= i < |nodes| =>
      nodes[i].(NeighbourNodes := GetNeighbourNodes(nodes, nodes[i].Index)))
  }

  /** After the refresh every node's flags agree with the list it sits in. */
  lemma RefreshIsFresh(nodes: seq<SubNode>)
    requires AllOnGrid(nodes)
    ensures forall i | 0 <= i < |nodes| ::
      Refresh(nodes)[i].NeighbourNodes == GetNeighbourNodes(Refresh(nodes), nodes[i].Index)
  {
    var r := Refresh(nodes);
    forall i | 0 <= i < |nodes|
      ensures r[i].NeighbourNodes == GetNeighbourNodes(r, nodes[i].Index)
    {
      FlagsDependOnShape(r, nodes, nodes[i].Index);
    }
  }

  /** Refreshing twice is refreshing once. */
  lemma RefreshIdempotent(nodes: seq<SubNode>)
    requires AllOnGrid(nodes)
    ensures Refresh(Refresh(nodes)) == Refresh(nodes)
  {
    var r := Refresh(nodes);
    RefreshIsFresh(nodes);
    assert forall i | 0 <= i < |r| :: Refresh(r)[i] == r[i];
  }

  /** The forEach at the end of an edge click: each node's NeighbourNodes is
      recomputed from the list, in order. The loop reads the list it writes,
      which is harmless because the flags read only Index and Paths. */
  method RefreshNeighbours(nodes: seq<SubNode>) returns (r: seq<SubNode>)
    requires AllOnGrid(nodes)
    ensures r == Refresh(nodes)
  {
    r := nodes;
    var i := 0;
    while i < |r|
      invariant 0 <= i <= |r| && SameShape(r, nodes)
      invariant forall j | 0 <= j < |r| :: r[j].JumpNodes == nodes[j].JumpNodes
      invariant forall j | 0 <= j < i :: r[j].NeighbourNodes == GetNeighbourNodes(nodes, nodes[j].Index)
      invariant forall j | i <= j < |r| :: r[j] == nodes[j]
    {
      FlagsDependOnShape(r, nodes, r[i].Index);
      r := r[i := r[i].(NeighbourNodes := GetNeighbourNodes(r, r[i].Index))];
      i := i + 1;
    }
  }

  // ---------------------------------------------------------------------------
  // One click.

  /** `!prevBlockIndex`: no previous index, or the falsy index 0. */
  predicate IsFirstClick(prev: Option<int>) {
    prev.None? || prev.value == 0
  }

  /** The direction tests, first match wins, each on one coordinate only;
      -1 when none matches. */
  function PathDirection(from: (int, int), to: (int, int)): (d: int)
    ensures d == -1 || IsDirection(d)
  {
    if to.0 == from.0 - 1 then UP
    else if to.1 == from.1 + 1 then RIGHT
    else if to.0 == from.0 + 1 then DOWN
    else if to.1 == from.1 - 1 then LEFT
    else -1
  }

  function EdgeDirection(curr: int, prev: int): (d: int)
    ensures d == -1 || IsDirection(d)
  {
    PathDirection(PositionOf(prev), PositionOf(curr))
  }

  /** A click one row above is Up whatever its column; a click on the same row
      one column right is Right; and the same cell twice matches no test. */
  lemma DirectionPriority(from: (int, int), to: (int, int))
    ensures to.0 == from.0 - 1 ==> PathDirection(from, to) == UP
    ensures to.0 == from.0 && to.1 == from.1 + 1 ==> PathDirection(from, to) == RIGHT
    ensures to.0 == from.0 + 1 && to.1 != from.1 + 1 ==> PathDirection(from, to) == DOWN
    ensures to.0 == from.0 && to.1 == from.1 - 1 ==> PathDirection(from, to) == LEFT
    ensures to == from ==> PathDirection(from, to) == -1
  {
  }

  /** Clicking a real grid neighbour yields its direction. */
  lemma NeighbourDirection(prev: int, d: int)
    requires OnGrid(prev) && IsDirection(d) && Neighbour(prev, d).Some?
    ensures EdgeDirection(Neighbour(prev, d).value, prev) == d
  {
    NeighbourPosition(prev, d);
  }

  /** The first-click branch: add the current node, with empty Paths and
      flags computed while it is not yet in the list, if it is absent. */
  function AddFirstNode(nodes: seq<SubNode>, curr: int): seq<SubNode>
    requires OnGrid(curr)
  {
    if HasNode(nodes, curr) then nodes
    else nodes + [SubNode(curr, [], GetNeighbourNodes(nodes, curr), NO_FLAGS)]
  }

  /** The previous node after the edge: d appended to its Paths if missing
      (its flags recomputed), or a new node with Paths [d]. */
  function LinkPrevious(nodes: seq<SubNode>, prev: int, d: int): seq<SubNode>
    requires OnGrid(prev) && IsDirection(d)
  {
    var k := FirstWithIndex(nodes, prev);
    if k >= 0 then
      if d in nodes[k].Paths then nodes
      else
        var linked := nodes[k := nodes[k].(Paths := nodes[k].Paths + [d])];
        linked[k := linked[k].(NeighbourNodes := GetNeighbourNodes(linked, prev))]
    else nodes + [SubNode(prev, [d], GetNeighbourNodes(nodes, prev), NO_FLAGS)]
  }

  /** The current node after the edge: appended with empty Paths if it was
      absent before the click, otherwise only its flags recomputed. */
  function LinkCurrent(before: seq<SubNode>, nodes: seq<SubNode>, curr: int): seq<SubNode>
    requires OnGrid(curr)
    requires |before| <= |nodes|
  {
    var j := FirstWithIndex(before, curr);
    if j >= 0 then nodes[j := nodes[j].(NeighbourNodes := GetNeighbourNodes(nodes, curr))]
    else nodes + [SubNode(curr, [], GetNeighbourNodes(nodes, curr), NO_FLAGS)]
  }

  /** Linking a previous node that already records d changes nothing. */
  lemma LinkPreviousNoop(nodes: seq<SubNode>, prev: int, d: int)
    requires OnGrid(prev) && IsDirection(d)
    requires HasNode(nodes, prev) && d in NodeAt(nodes, prev).Paths
    ensures LinkPrevious(nodes, prev, d) == nodes
  {
  }

  /** Linking a current node present with fresh flags changes nothing. */
  lemma LinkCurrentNoop(nodes: seq<SubNode>, curr: int)
    requires OnGrid(curr)
    requires HasNode(nodes, curr) && NodeAt(nodes, curr).NeighbourNodes == GetNeighbourNodes(nodes, curr)
    ensures LinkCurrent(nodes, nodes, curr) == nodes
  {
    var j := FirstWithIndex(nodes, curr);
    assert nodes[j := nodes[j].(NeighbourNodes := GetNeighbourNodes(nodes, curr))] == nodes;
  }

  /** The structural part of an edge click, before the final refresh. */
  function LinkEdge(nodes: seq<SubNode>, curr: int, prev: int, d: int): seq<SubNode>
    requires OnGrid(curr) && OnGrid(prev) && IsDirection(d)
  {
    var withPrev := LinkPrevious(nodes, prev, d);
    LinkCurrent(nodes, withPrev, curr)
  }

  /** What the engine does to a node list on one click. */
  function AddPathResult(nodes: seq<SubNode>, curr: int, prev: Option<int>): seq<SubNode>
    requires AllOnGrid(nodes) && OnGrid(curr)
    requires !IsFirstClick(prev) ==> OnGrid(prev.value)
  {
    if IsFirstClick(prev) then AddFirstNode(nodes, curr)
    else
      var d := EdgeDirection(curr, prev.value);
      if d == -1 then nodes
      else
        LinkEdgeOnGrid(nodes, curr, prev.value, d);
        Refresh(LinkEdge(nodes, curr, prev.value, d))
  }

  /** A branch of the handler that writes the list back (the others return
      the old data untouched). */
  predicate WritesBack(curr: int, prev: Option<int>)
    requires !IsFirstClick(prev) ==> OnGrid(prev.value)
  {
    IsFirstClick(prev) || EdgeDirection(curr, prev.value) != -1
  }

  // ---------------------------------------------------------------------------
  // What LinkEdge does to each node.

  lemma LinkEdgeOnGrid(nodes: seq<SubNode>, curr: int, prev: int, d: int)
    requires AllOnGrid(nodes) && OnGrid(curr) && OnGrid(prev) && IsDirection(d)
    ensures AllOnGrid(LinkEdge(nodes, curr, prev, d))
  {
    var l := LinkEdge(nodes, curr, prev, d);
    LinkEdgeShape(nodes, curr, prev, d);
    EdgeShapeIndices(nodes, l, prev, curr, d, FirstWithIndex(nodes, prev), HasNode(nodes, curr));
    IndicesOnGrid(nodes, l, prev, curr);
  }

  /** LinkPrevious keeps every old node's Index and JumpNodes, and every
      Paths but prev's, which gains d when missing; an absent prev is
      appended with [d]. */
  lemma LinkPreviousShape(nodes: seq<SubNode>, prev: int, d: int)
    requires OnGrid(prev) && IsDirection(d)
    ensures var w := LinkPrevious(nodes, prev, d);
      var k := FirstWithIndex(nodes, prev);
      && |w| == |nodes| + (if k >= 0 then 0 else 1)
      && (forall i | 0 <= i < |nodes| :: w[i].Index == nodes[i].Index && w[i].JumpNodes == nodes[i].JumpNodes)
      && (forall i | 0 <= i < |nodes| && i != k :: w[i].Paths == nodes[i].Paths)
      && (k >= 0 ==> w[k].Paths == if d in nodes[k].Paths then nodes[k].Paths else nodes[k].Paths + [d])
      && (k < 0 ==> w[|nodes|].Index == prev && w[|nodes|].Paths == [d] && w[|nodes|].JumpNodes == NO_FLAGS)
  {
  }

  /** LinkCurrent keeps every node's Index, Paths and JumpNodes, and appends
      curr with [] when it was absent before the click. */
  lemma LinkCurrentShape(before: seq<SubNode>, nodes: seq<SubNode>, curr: int)
    requires OnGrid(curr) && |before| <= |nodes|
    ensures var w := LinkCurrent(before, nodes, curr);
      var j := FirstWithIndex(before, curr);
      && |w| == |nodes| + (if j >= 0 then 0 else 1)
      && (forall i | 0 <= i < |nodes| ::
            w[i].Index == nodes[i].Index && w[i].Paths == nodes[i].Paths && w[i].JumpNodes == nodes[i].JumpNodes)
      && (j < 0 ==> w[|nodes|].Index == curr && w[|nodes|].Paths == [] && w[|nodes|].JumpNodes == NO_FLAGS)
  {
  }

  /** The shape an edge leaves on l, given the list before it: the old nodes
      keep their Index and JumpNodes, and their Paths but for prev's (at k,
      or -1 when prev was absent), which gains d when missing; prev is
      appended with [d] when absent, then curr with [] when hasCurr is false,
      both with no jump flags. */
  predicate EdgeShape(nodes: seq<SubNode>, l: seq<SubNode>, prev: int, curr: int, d: int, k: int, hasCurr: bool) {
    var added := (if k >= 0 then [] else [prev]) + (if hasCurr then [] else [curr]);
    && -1 <= k < |nodes|
    && |l| == |nodes| + |added|
    && (forall i | 0 <= i < |nodes| :: l[i].Index == nodes[i].Index && l[i].JumpNodes == nodes[i].JumpNodes)
    && (forall i | 0 <= i < |nodes| && i != k :: l[i].Paths == nodes[i].Paths)
    && (k >= 0 ==> l[k].Paths == if d in nodes[k].Paths then nodes[k].Paths else nodes[k].Paths + [d])
    && (forall i | 0 <= i < |added| :: l[|nodes| + i].Index == added[i] && l[|nodes| + i].JumpNodes == NO_FLAGS)
    && (k < 0 ==> l[|nodes|].Paths == [d])
    && (!hasCurr ==> l[|l| - 1].Paths == [])
  }

  /** The two steps' shapes compose: a list w made from nodes by the
      previous-node step and a list l made from w by the current-node step
      have the shape of an edge. */
  lemma ComposeShape(nodes: seq<SubNode>, w: seq<SubNode>, l: seq<SubNode>, prev: int, curr: int, d: int, k: int, hasCurr: bool)
    requires -1 <= k < |nodes|
    requires |w| == |nodes| + (if k >= 0 then 0 else 1)
    requires forall i | 0 <= i < |nodes| :: w[i].Index == nodes[i].Index && w[i].JumpNodes == nodes[i].JumpNodes
    requires forall i | 0 <= i < |nodes| && i != k :: w[i].Paths == nodes[i].Paths
    requires k >= 0 ==> w[k].Paths == if d in nodes[k].Paths then nodes[k].Paths else nodes[k].Paths + [d]
    requires k < 0 ==> w[|nodes|].Index == prev && w[|nodes|].Paths == [d] && w[|nodes|].JumpNodes == NO_FLAGS
    requires |l| == |w| + (if hasCurr then 0 else 1)
    requires forall i | 0 <= i < |w| ::
      l[i].Index == w[i].Index && l[i].Paths == w[i].Paths && l[i].JumpNodes == w[i].JumpNodes
    requires !hasCurr ==> l[|w|].Index == curr && l[|w|].Paths == [] && l[|w|].JumpNodes == NO_FLAGS
    ensures EdgeShape(nodes, l, prev, curr, d, k, hasCurr)
  {
  }

  /** LinkEdge leaves the shape of an edge. */
  lemma LinkEdgeShape(nodes: seq<SubNode>, curr: int, prev: int, d: int)
    requires OnGrid(curr) && OnGrid(prev) && IsDirection(d)
    ensures EdgeShape(nodes, LinkEdge(nodes, curr, prev, d), prev, curr, d,
                      FirstWithIndex(nodes, prev), HasNode(nodes, curr))
  {
    var withPrev := LinkPrevious(nodes, prev, d);
    LinkPreviousShape(nodes, prev, d);
    LinkCurrentShape(nodes, withPrev, curr);
    ComposeShape(nodes, withPrev, LinkEdge(nodes, curr, prev, d), prev, curr, d,
                 FirstWithIndex(nodes, prev), HasNode(nodes, curr));
  }

  /** A position that holds the index with no earlier one is what `find` picks. */
  lemma FirstWithIndexIs(nodes: seq<SubNode>, index: int, m: int)
    requires 0 <= m < |nodes| && nodes[m].Index == index
    requires forall j | 0 <= j < m :: nodes[j].Index != index
    ensures FirstWithIndex(nodes, index) == m
  {
    var k := FirstWithIndex(nodes, index);
    assert k >= 0 ==> nodes[k].Index == index;
  }

  /** Where LinkEdge leaves prev and curr. */
  /** Where prev and curr stand in a list of edge shape: at their old
      positions (k and j), or, when new, prev first and curr last. */
  lemma EdgeShapeLookups(nodes: seq<SubNode>, l: seq<SubNode>, prev: int, curr: int, d: int, k: int, j: int)
    requires prev != curr && -1 <= j < |nodes|
    requires k >= 0 ==> 0 <= k < |nodes| && nodes[k].Index == prev && forall i | 0 <= i < k :: nodes[i].Index != prev
    requires k < 0 ==> forall i | 0 <= i < |nodes| :: nodes[i].Index != prev
    requires j >= 0 ==> nodes[j].Index == curr && forall i | 0 <= i < j :: nodes[i].Index != curr
    requires j < 0 ==> forall i | 0 <= i < |nodes| :: nodes[i].Index != curr
    requires EdgeShape(nodes, l, prev, curr, d, k, j >= 0)
    ensures FirstWithIndex(l, prev) == (if k >= 0 then k else |nodes|)
    ensures FirstWithIndex(l, curr) == (if j >= 0 then j else |l| - 1)
  {
    var added := (if k >= 0 then [] else [prev]) + (if j >= 0 then [] else [curr]);
    if k < 0 {
      assert l[|nodes| + 0].Index == added[0];
    }
    if j < 0 {
      assert l[|nodes| + |added| - 1].Index == added[|added| - 1];
    }
    FirstWithIndexIs(l, prev, if k >= 0 then k else |nodes|);
    FirstWithIndexIs(l, curr, if j >= 0 then j else |l| - 1);
  }

  lemma LinkEdgeLookups(nodes: seq<SubNode>, curr: int, prev: int, d: int)
    requires OnGrid(curr) && OnGrid(prev) && IsDirection(d) && curr != prev
    ensures var l := LinkEdge(nodes, curr, prev, d);
      var k := FirstWithIndex(nodes, prev);
      var j := FirstWithIndex(nodes, curr);
      && FirstWithIndex(l, prev) == (if k >= 0 then k else |nodes|)
      && FirstWithIndex(l, curr) == (if j >= 0 then j else |l| - 1)
  {
    LinkEdgeShape(nodes, curr, prev, d);
    EdgeShapeLookups(nodes, LinkEdge(nodes, curr, prev, d), prev, curr, d,
                     FirstWithIndex(nodes, prev), FirstWithIndex(nodes, curr));
  }

  lemma EdgeUnfold(nodes: seq<SubNode>, curr: int, prev: int)
    requires AllOnGrid(nodes) && OnGrid(curr) && OnGrid(prev)
    requires EdgeDirection(curr, prev) != -1
    ensures curr != prev && !IsFirstClick(Some(prev))
    ensures AllOnGrid(LinkEdge(nodes, curr, prev, EdgeDirection(curr, prev)))
    ensures AddPathResult(nodes, curr, Some(prev))
            == Refresh(LinkEdge(nodes, curr, prev, EdgeDirection(curr, prev)))
  {
    OnGridNotZero(prev);
    DirectionPriority(PositionOf(prev), PositionOf(curr));
    LinkEdgeOnGrid(nodes, curr, prev, EdgeDirection(curr, prev));
  }

  /** The Paths prev ends with: d appended unless it was there, [d] when new. */
  function LinkedPaths(nodes: seq<SubNode>, prev: int, d: int): seq<int> {
    if !HasNode(nodes, prev) then [d]
    else if d in NodeAt(nodes, prev).Paths then NodeAt(nodes, prev).Paths
    else NodeAt(nodes, prev).Paths + [d]
  }

  lemma LinkedPathsHasDirection(nodes: seq<SubNode>, prev: int, d: int)
    ensures d in LinkedPaths(nodes, prev, d)
  {
  }

  /** After an edge from prev to curr in direction d, prev is in the list and
      its Paths gained d unless it had it (a new prev has Paths [d]). */
  lemma EdgeLinksPrevious(nodes: seq<SubNode>, curr: int, prev: int)
    requires AllOnGrid(nodes) && OnGrid(curr) && OnGrid(prev)
    requires EdgeDirection(curr, prev) != -1
    ensures var r := AddPathResult(nodes, curr, Some(prev));
      HasNode(r, prev) && NodeAt(r, prev).Paths == LinkedPaths(nodes, prev, EdgeDirection(curr, prev))
  {
    var d := EdgeDirection(curr, prev);
    EdgeUnfold(nodes, curr, prev);
    var l := LinkEdge(nodes, curr, prev, d);
    var r := Refresh(l);
    LinkEdgeShape(nodes, curr, prev, d);
    LinkEdgeLookups(nodes, curr, prev, d);
    FirstWithIndexSameIndices(r, l, prev);
  }

  /** Linking keeps Paths repeat-free and leaves d in them exactly once. */
  lemma LinkedPathsValid(nodes: seq<SubNode>, prev: int, d: int)
    requires ValidGraph(nodes) && IsDirection(d)
    ensures ValidPaths(LinkedPaths(nodes, prev, d))
    ensures Count(LinkedPaths(nodes, prev, d), d) == 1
  {
    if HasNode(nodes, prev) {
      var n := NodeAt(nodes, prev);
      assert ValidNode(n);
      if d in n.Paths {
        CountInValidPaths(n.Paths, d);
      } else {
        assert ValidPaths(n.Paths + [d]);
        CountInValidPaths(n.Paths + [d], d);
      }
    } else {
      assert ValidPaths([d]);
      CountInValidPaths([d], d);
    }
  }

  /** With repeat-free Paths, d occurs exactly once in prev's Paths after the edge. */
  lemma EdgeRecordsDirectionOnce(nodes: seq<SubNode>, curr: int, prev: int)
    requires ValidGraph(nodes) && OnGrid(curr) && OnGrid(prev)
    requires EdgeDirection(curr, prev) != -1
    ensures var r := AddPathResult(nodes, curr, Some(prev));
      HasNode(r, prev) && Count(NodeAt(r, prev).Paths, EdgeDirection(curr, prev)) == 1
  {
    ValidGraphOnGrid(nodes);
    EdgeLinksPrevious(nodes, curr, prev);
    LinkedPathsValid(nodes, prev, EdgeDirection(curr, prev));
  }

  /** After an edge, curr is in the list with its Paths untouched, or with
      no Paths when it is new. */
  lemma EdgeKeepsCurrent(nodes: seq<SubNode>, curr: int, prev: int)
    requires AllOnGrid(nodes) && OnGrid(curr) && OnGrid(prev)
    requires EdgeDirection(curr, prev) != -1
    ensures var r := AddPathResult(nodes, curr, Some(prev));
      && HasNode(r, curr)
      && NodeAt(r, curr).Paths == (if HasNode(nodes, curr) then NodeAt(nodes, curr).Paths else [])
  {
    var d := EdgeDirection(curr, prev);
    EdgeUnfold(nodes, curr, prev);
    var l := LinkEdge(nodes, curr, prev, d);
    var r := Refresh(l);
    LinkEdgeShape(nodes, curr, prev, d);
    LinkEdgeLookups(nodes, curr, prev, d);
    FirstWithIndexSameIndices(r, l, curr);
    var j := FirstWithIndex(nodes, curr);
    assert j >= 0 ==> nodes[j].Index != prev;
  }

  /** An edge leaves every other node's Index, Paths and JumpNodes as they
      were, appends only the nodes that were missing, and leaves every index
      on the grid and every flag array agreeing with the new list. */
  lemma EdgeFrame(nodes: seq<SubNode>, curr: int, prev: int)
    requires AllOnGrid(nodes) && OnGrid(curr) && OnGrid(prev)
    requires EdgeDirection(curr, prev) != -1
    ensures var r := AddPathResult(nodes, curr, Some(prev));
      && |r| == |nodes| + (if HasNode(nodes, prev) then 0 else 1) + (if HasNode(nodes, curr) then 0 else 1)
      && (forall i | 0 <= i < |nodes| && nodes[i].Index != prev ::
            r[i].Index == nodes[i].Index && r[i].Paths == nodes[i].Paths && r[i].JumpNodes == nodes[i].JumpNodes)
      && (forall i | 0 <= i < |r| :: OnGrid(r[i].Index) && r[i].NeighbourNodes == GetNeighbourNodes(r, r[i].Index))
  {
    var d := EdgeDirection(curr, prev);
    EdgeUnfold(nodes, curr, prev);
    var l := LinkEdge(nodes, curr, prev, d);
    var r := Refresh(l);
    LinkEdgeShape(nodes, curr, prev, d);
    RefreshIsFresh(l);
    var k := FirstWithIndex(nodes, prev);
    forall i | 0 <= i < |nodes| && nodes[i].Index != prev
      ensures r[i].Paths == nodes[i].Paths
    {
      assert i != k;
    }
  }

  // ---------------------------------------------------------------------------
  // Click properties.

  /** The first click of a path adds the clicked cell once, with no Paths, no
      jump flags, and NeighbourNodes[d] set exactly when the grid neighbour
      in d is already in the list; a cell already there changes nothing.
      No other node is touched. */
  lemma FirstClickAdds(nodes: seq<SubNode>, curr: int, prev: Option<int>)
    requires AllOnGrid(nodes) && OnGrid(curr) && IsFirstClick(prev)
    ensures HasNode(nodes, curr) ==> AddPathResult(nodes, curr, prev) == nodes
    ensures !HasNode(nodes, curr) ==>
      var r := AddPathResult(nodes, curr, prev);
      && |r| == |nodes| + 1 && r[..|nodes|] == nodes
      && r[|nodes|].Index == curr && r[|nodes|].Paths == [] && r[|nodes|].JumpNodes == NO_FLAGS
      && forall d | 0 <= d < 4 :: r[|nodes|].NeighbourNodes[d] <==>
           Neighbour(curr, d).Some? && HasNode(nodes, Neighbour(curr, d).value)
  {
    forall d | 0 <= d < 4 { NeighbourFlagMeaning(nodes, curr, d); }
  }

  /** A second click that matches no direction test, such as the same cell
      twice, leaves the list as it was. */
  lemma NoEdgeUnchanged(nodes: seq<SubNode>, curr: int, prev: int)
    requires AllOnGrid(nodes) && OnGrid(curr) && OnGrid(prev)
    requires prev != 0 && (EdgeDirection(curr, prev) == -1 || curr == prev)
    ensures AddPathResult(nodes, curr, Some(prev)) == nodes
  {
  }

  /** Index, Paths and JumpNodes well formed; flags not yet refreshed. */
  predicate ValidShape(nodes: seq<SubNode>) {
    (forall i | 0 <= i < |nodes| ::
       OnGrid(nodes[i].Index) && ValidPaths(nodes[i].Paths) && |nodes[i].JumpNodes| == 4)
    && UniqueIndices(nodes)
  }

  lemma RefreshValid(nodes: seq<SubNode>)
    requires ValidShape(nodes)
    ensures ValidGraph(Refresh(nodes))
  {
  }

  lemma LinkEdgeValid(nodes: seq<SubNode>, curr: int, prev: int, d: int)
    requires ValidGraph(nodes) && OnGrid(curr) && OnGrid(prev) && IsDirection(d) && curr != prev
    ensures ValidShape(LinkEdge(nodes, curr, prev, d))
  {
    LinkEdgeNodesValid(nodes, curr, prev, d);
    LinkEdgeUnique(nodes, curr, prev, d);
  }

  /** In a list of edge shape every Index is an old one at its place, prev
      or curr. */
  lemma EdgeShapeIndices(nodes: seq<SubNode>, l: seq<SubNode>, prev: int, curr: int, d: int, k: int, hasCurr: bool)
    requires EdgeShape(nodes, l, prev, curr, d, k, hasCurr)
    ensures forall i | 0 <= i < |l| ::
      l[i].Index == prev || l[i].Index == curr || (i < |nodes| && l[i].Index == nodes[i].Index)
  {
    var added := (if k >= 0 then [] else [prev]) + (if hasCurr then [] else [curr]);
    forall i | |nodes| <= i < |l|
      ensures l[i].Index == prev || l[i].Index == curr
    {
      assert l[|nodes| + (i - |nodes|)].Index == added[i - |nodes|];
    }
  }

  /** ... and every node has 4 jump flags when the old ones had. */
  lemma EdgeShapeJumps(nodes: seq<SubNode>, l: seq<SubNode>, prev: int, curr: int, d: int, k: int, hasCurr: bool)
    requires forall i | 0 <= i < |nodes| :: |nodes[i].JumpNodes| == 4
    requires EdgeShape(nodes, l, prev, curr, d, k, hasCurr)
    ensures forall i | 0 <= i < |l| :: |l[i].JumpNodes| == 4
  {
    var added := (if k >= 0 then [] else [prev]) + (if hasCurr then [] else [curr]);
    forall i | |nodes| <= i < |l|
      ensures |l[i].JumpNodes| == 4
    {
      assert l[i].Index == added[i - |nodes|] && l[i].JumpNodes == NO_FLAGS;
    }
  }

  /** In a list of edge shape over repeat-free Paths of directions, every
      Paths is still repeat-free and made of directions. */
  lemma EdgeShapePaths(nodes: seq<SubNode>, l: seq<SubNode>, prev: int, curr: int, d: int, k: int, hasCurr: bool)
    requires forall i | 0 <= i < |nodes| :: ValidPaths(nodes[i].Paths)
    requires IsDirection(d)
    requires EdgeShape(nodes, l, prev, curr, d, k, hasCurr)
    ensures forall i | 0 <= i < |l| :: ValidPaths(l[i].Paths)
  {
    if k >= 0 && d !in nodes[k].Paths {
      assert ValidPaths(nodes[k].Paths);
      assert ValidPaths(nodes[k].Paths + [d]);
    }
    forall i | 0 <= i < |l|
      ensures ValidPaths(l[i].Paths)
    {
      if i < |nodes| {
        if i != k {
          assert l[i].Paths == nodes[i].Paths;
        }
      } else if i == |nodes| && k < 0 {
        assert ValidPaths([d]);
      } else {
        assert l[i].Paths == [];
      }
    }
  }

  /** A list whose indices are old ones, prev or curr stays on the grid. */
  lemma IndicesOnGrid(nodes: seq<SubNode>, l: seq<SubNode>, prev: int, curr: int)
    requires AllOnGrid(nodes) && OnGrid(prev) && OnGrid(curr)
    requires forall i | 0 <= i < |l| ::
      l[i].Index == prev || l[i].Index == curr || (i < |nodes| && l[i].Index == nodes[i].Index)
    ensures AllOnGrid(l)
  {
  }

  lemma LinkEdgeNodesValid(nodes: seq<SubNode>, curr: int, prev: int, d: int)
    requires ValidGraph(nodes) && OnGrid(curr) && OnGrid(prev) && IsDirection(d) && curr != prev
    ensures var l := LinkEdge(nodes, curr, prev, d);
      forall i | 0 <= i < |l| :: OnGrid(l[i].Index) && ValidPaths(l[i].Paths) && |l[i].JumpNodes| == 4
  {
    var l := LinkEdge(nodes, curr, prev, d);
    var k, hasCurr := FirstWithIndex(nodes, prev), HasNode(nodes, curr);
    LinkEdgeShape(nodes, curr, prev, d);
    assert forall i | 0 <= i < |nodes| :: ValidNode(nodes[i]);
    EdgeShapeIndices(nodes, l, prev, curr, d, k, hasCurr);
    EdgeShapeJumps(nodes, l, prev, curr, d, k, hasCurr);
    EdgeShapePaths(nodes, l, prev, curr, d, k, hasCurr);
    IndicesOnGrid(nodes, l, prev, curr);
  }

  /** Appending distinct indices that the list lacks keeps indices unique. */
  lemma AppendFreshUnique(nodes: seq<SubNode>, l: seq<SubNode>, added: seq<int>)
    requires UniqueIndices(nodes)
    requires |l| == |nodes| + |added|
    requires forall i | 0 <= i < |nodes| :: l[i].Index == nodes[i].Index
    requires forall m | 0 <= m < |added| :: l[|nodes| + m].Index == added[m]
    requires forall i, m | 0 <= i < |nodes| && 0 <= m < |added| :: nodes[i].Index != added[m]
    requires forall m, n | 0 <= m < n < |added| :: added[m] != added[n]
    ensures UniqueIndices(l)
  {
    forall i, j | 0 <= i < j < |l|
      ensures l[i].Index != l[j].Index
    {
      if j >= |nodes| {
        assert l[j].Index == added[j - |nodes|];
        if i >= |nodes| {
          assert l[i].Index == added[i - |nodes|];
        }
      }
    }
  }

  /** The indices an edge appends are ones the list lacked, so a list with
      unique indices keeps them. */
  lemma EdgeAppendUnique(nodes: seq<SubNode>, l: seq<SubNode>, prev: int, curr: int, d: int, k: int, hasCurr: bool)
    requires UniqueIndices(nodes) && prev != curr
    requires k < 0 ==> forall i | 0 <= i < |nodes| :: nodes[i].Index != prev
    requires !hasCurr ==> forall i | 0 <= i < |nodes| :: nodes[i].Index != curr
    requires EdgeShape(nodes, l, prev, curr, d, k, hasCurr)
    ensures UniqueIndices(l)
  {
    var added := (if k >= 0 then [] else [prev]) + (if hasCurr then [] else [curr]);
    forall i, m | 0 <= i < |nodes| && 0 <= m < |added|
      ensures nodes[i].Index != added[m]
    {
      if added[m] == prev {
        assert k < 0;
      } else {
        assert added[m] == curr && !hasCurr;
      }
    }
    AppendFreshUnique(nodes, l, added);
  }

  lemma LinkEdgeUnique(nodes: seq<SubNode>, curr: int, prev: int, d: int)
    requires UniqueIndices(nodes) && OnGrid(curr) && OnGrid(prev) && IsDirection(d) && curr != prev
    ensures UniqueIndices(LinkEdge(nodes, curr, prev, d))
  {
    LinkEdgeShape(nodes, curr, prev, d);
    EdgeAppendUnique(nodes, LinkEdge(nodes, curr, prev, d), prev, curr, d,
                     FirstWithIndex(nodes, prev), HasNode(nodes, curr));
  }

  /** Every click keeps the graph well formed: no Index twice, Paths
      repeat-free directions, 4-entry flag arrays. */
  lemma AddPathPreservesValid(nodes: seq<SubNode>, curr: int, prev: Option<int>)
    requires ValidGraph(nodes) && OnGrid(curr)
    requires !IsFirstClick(prev) ==> OnGrid(prev.value)
    ensures ValidGraph(AddPathResult(nodes, curr, prev))
  {
    if IsFirstClick(prev) {
      if !HasNode(nodes, curr) {
        assert ValidPaths([]);
      }
    } else if EdgeDirection(curr, prev.value) != -1 {
      EdgeUnfold(nodes, curr, prev.value);
      LinkEdgeValid(nodes, curr, prev.value, EdgeDirection(curr, prev.value));
      RefreshValid(LinkEdge(nodes, curr, prev.value, EdgeDirection(curr, prev.value)));
    }
  }

  /** A click keeps every node on the grid, so the next click can be made. */
  lemma AddPathOnGrid(nodes: seq<SubNode>, curr: int, prev: Option<int>)
    requires AllOnGrid(nodes) && OnGrid(curr)
    requires !IsFirstClick(prev) ==> OnGrid(prev.value)
    ensures AllOnGrid(AddPathResult(nodes, curr, prev))
  {
    if !IsFirstClick(prev) && EdgeDirection(curr, prev.value) != -1 {
      LinkEdgeOnGrid(nodes, curr, prev.value, EdgeDirection(curr, prev.value));
    }
  }

  /** Clicking curr, the grid neighbour of prev in direction d, connects the
      two both ways round. */
  lemma EdgeConnects(nodes: seq<SubNode>, prev: int, d: int, curr: int)
    requires AllOnGrid(nodes) && OnGrid(prev) && IsDirection(d) && Neighbour(prev, d) == Some(curr)
    ensures OnGrid(curr)
    ensures var r := AddPathResult(nodes, curr, Some(prev));
      AreNodesConnected(r, prev, curr) && AreNodesConnected(r, curr, prev)
  {
    NeighbourPosition(prev, d);
    EdgeLinked(nodes, prev, d, curr);
    var r := AddPathResult(nodes, curr, Some(prev));
    ConnectedNeighbours(r, prev, d);
    ConnectedSymmetric(r, prev, d);
  }

  /** The edge leaves both endpoints in the list with d recorded at prev. */
  lemma EdgeLinked(nodes: seq<SubNode>, prev: int, d: int, curr: int)
    requires AllOnGrid(nodes) && OnGrid(prev) && IsDirection(d) && Neighbour(prev, d) == Some(curr)
    ensures OnGrid(curr)
    ensures var r := AddPathResult(nodes, curr, Some(prev));
      && HasNode(r, prev) && HasNode(r, curr) && d in NodeAt(r, prev).Paths
      && LinkedEitherWay(r, prev, curr, d)
  {
    NeighbourPosition(prev, d);
    NeighbourDirection(prev, d);
    EdgeLinksPrevious(nodes, curr, prev);
    EdgeKeepsCurrent(nodes, curr, prev);
  }

  /** A node linked to its neighbour in d, with fresh flags, does not flag it. */
  lemma LinkedNotFlagged(r: seq<SubNode>, v: int, d: int, w: int)
    requires OnGrid(v) && IsDirection(d) && Neighbour(v, d) == Some(w)
    requires LinkedEitherWay(r, v, w, d)
    requires NodeAt(r, v).NeighbourNodes == GetNeighbourNodes(r, v)
    ensures |NodeAt(r, v).NeighbourNodes| == 4 && !NodeAt(r, v).NeighbourNodes[d]
  {
    NeighbourFlagMeaning(r, v, d);
  }

  /** After an edge click the flags of any node in the list are fresh. */
  lemma EdgeFreshAt(nodes: seq<SubNode>, curr: int, prev: int, v: int)
    requires AllOnGrid(nodes) && OnGrid(curr) && OnGrid(prev) && OnGrid(v)
    requires EdgeDirection(curr, prev) != -1
    requires HasNode(AddPathResult(nodes, curr, Some(prev)), v)
    ensures var r := AddPathResult(nodes, curr, Some(prev));
      NodeAt(r, v).NeighbourNodes == GetNeighbourNodes(r, v)
  {
    EdgeUnfold(nodes, curr, prev);
    var l := LinkEdge(nodes, curr, prev, EdgeDirection(curr, prev));
    RefreshIsFresh(l);
    var k := FirstWithIndex(Refresh(l), v);
    assert Refresh(l)[k].Index == v;
  }

  /** ... and clears the NeighbourNodes flag each endpoint keeps for the other. */
  lemma EdgeClearsFlags(nodes: seq<SubNode>, prev: int, d: int, curr: int)
    requires AllOnGrid(nodes) && OnGrid(prev) && IsDirection(d) && Neighbour(prev, d) == Some(curr)
    ensures OnGrid(curr)
    ensures var r := AddPathResult(nodes, curr, Some(prev));
      && HasNode(r, prev) && HasNode(r, curr)
      && |NodeAt(r, prev).NeighbourNodes| == 4 && |NodeAt(r, curr).NeighbourNodes| == 4
      && !NodeAt(r, prev).NeighbourNodes[d] && !NodeAt(r, curr).NeighbourNodes[Opposite(d)]
  {
    NeighbourPosition(prev, d);
    NeighbourDirection(prev, d);
    NeighbourSymmetric(prev, d);
    EdgeLinked(nodes, prev, d, curr);
    var r := AddPathResult(nodes, curr, Some(prev));
    EdgeFreshAt(nodes, curr, prev, prev);
    EdgeFreshAt(nodes, curr, prev, curr);
    LinkedNotFlagged(r, prev, d, curr);
    assert Opposite(Opposite(d)) == d;
    assert LinkedEitherWay(r, curr, prev, Opposite(d));
    LinkedNotFlagged(r, curr, Opposite(d), prev);
  }

  /** Repeating a click changes nothing more. */
  lemma AddPathIdempotent(nodes: seq<SubNode>, curr: int, prev: Option<int>)
    requires ValidGraph(nodes) && OnGrid(curr)
    requires !IsFirstClick(prev) ==> OnGrid(prev.value)
    ensures ValidGraph(AddPathResult(nodes, curr, prev))
    ensures AddPathResult(AddPathResult(nodes, curr, prev), curr, prev) == AddPathResult(nodes, curr, prev)
  {
    AddPathPreservesValid(nodes, curr, prev);
    if IsFirstClick(prev) {
      if !HasNode(nodes, curr) {
        FirstWithIndexAppend(nodes, SubNode(curr, [], GetNeighbourNodes(nodes, curr), NO_FLAGS), curr);
      }
    } else if EdgeDirection(curr, prev.value) != -1 {
      EdgeIdempotent(nodes, curr, prev.value);
    }
  }

  lemma EdgeIdempotent(nodes: seq<SubNode>, curr: int, p: int)
    requires AllOnGrid(nodes) && OnGrid(curr) && OnGrid(p)
    requires EdgeDirection(curr, p) != -1
    ensures AllOnGrid(AddPathResult(nodes, curr, Some(p)))
    ensures AddPathResult(AddPathResult(nodes, curr, Some(p)), curr, Some(p)) == AddPathResult(nodes, curr, Some(p))
  {
    var d := EdgeDirection(curr, p);
    EdgeUnfold(nodes, curr, p);
    var l := LinkEdge(nodes, curr, p, d);
    var r := Refresh(l);
    assert AllOnGrid(r);
    EdgeUnfold(r, curr, p);
    EdgeLinksPrevious(nodes, curr, p);
    LinkedPathsHasDirection(nodes, p, d);
    LinkPreviousNoop(r, p, d);
    EdgeKeepsCurrent(nodes, curr, p);
    EdgeFreshAt(nodes, curr, p, curr);
    LinkCurrentNoop(r, curr);
    assert LinkEdge(r, curr, p, d) == r;
    RefreshIdempotent(l);
  }

  // ---------------------------------------------------------------------------
  // The handler body.

  /** One click of the path engine, as the handler runs it: look both nodes
      up, scan for their positions, pick the direction, link, refresh. */
  method AddPath(nodes: seq<SubNode>, curr: int, prev: Option<int>) returns (r: seq<SubNode>)
    requires AllOnGrid(nodes) && OnGrid(curr)
    requires !IsFirstClick(prev) ==> OnGrid(prev.value)
    ensures r == AddPathResult(nodes, curr, prev)
  {
    var subNodes := nodes;
    if IsFirstClick(prev) {
      if !HasNode(subNodes, curr) {
        subNodes := subNodes + [SubNode(curr, [], GetNeighbourNodes(subNodes, curr), NO_FLAGS)];
      }
      return subNodes;
    }
    var p := prev.value;
    var k := FirstWithIndex(subNodes, p);
    var j := FirstWithIndex(subNodes, curr);
    var prevRow, prevCol := FindNodePosition(p);
    var currRow, currCol := FindNodePosition(curr);
    var d := PathDirection((prevRow, prevCol), (currRow, currCol));
    if d == -1 {
      return nodes;
    }
    if k >= 0 {
      if d !in subNodes[k].Paths {
        subNodes := subNodes[k := subNodes[k].(Paths := subNodes[k].Paths + [d])];
        subNodes := subNodes[k := subNodes[k].(NeighbourNodes := GetNeighbourNodes(subNodes, p))];
      }
    } else {
      subNodes := subNodes + [SubNode(p, [d], GetNeighbourNodes(subNodes, p), NO_FLAGS)];
    }
    assert subNodes == LinkPrevious(nodes, p, d);
    if j < 0 {
      subNodes := subNodes + [SubNode(curr, [], GetNeighbourNodes(subNodes, curr), NO_FLAGS)];
    } else {
      subNodes := subNodes[j := subNodes[j].(NeighbourNodes := GetNeighbourNodes(subNodes, curr))];
    }
    EdgeUnfold(nodes, curr, p);
    r := RefreshNeighbours(subNodes);
  }
}
