/**
 * The save pass of the level editor: JumpNodes are recomputed for the main
 * path and for the first new path, and the level is spliced back into the
 * region document at the (node tag, level tag) it was opened from.
 */
module SavePass {
  import opened EditorTypes
  import opened Topology
  import opened PathGraph
  import opened RegionLookup

  /** areNodesConnectedInDirection: both nodes must be in the list; then one
      of them points at the other in the given direction. */
  function ConnectedInDirection(nodes: seq<SubNode>, a: int, b: int, d: int): bool {
    if !HasNode(nodes, a) || !HasNode(nodes, b) then false
    else
      var n1, n2 := NodeAt(nodes, a), NodeAt(nodes, b);
      if d == UP then 0 in n1.Paths || 2 in n2.Paths
      else if d == RIGHT then 1 in n1.Paths || 3 in n2.Paths
      else if d == DOWN then 2 in n1.Paths || 0 in n2.Paths
      else if d == LEFT then 3 in n1.Paths || 1 in n2.Paths
      else false
  }

  /** The save pass and the click engine agree on which neighbours are
      connected: both use the either-endpoint rule. */
  lemma ConnectedInDirectionIsEitherWay(nodes: seq<SubNode>, a: int, b: int, d: int)
    requires IsDirection(d)
    ensures ConnectedInDirection(nodes, a, b, d) == LinkedEitherWay(nodes, a, b, d)
  {
  }

  function JumpFlag(nodes: seq<SubNode>, v: int, d: int): bool
    requires OnGrid(v) && IsDirection(d)
  {
    match Neighbour(v, d)
    case None => false
    case Some(w) => ConnectedInDirection(nodes, v, w, d)
  }

  /** The JumpNodes array one node gets. */
  function JumpFlags(nodes: seq<SubNode>, v: int): (flags: seq<bool>)
    requires OnGrid(v)
    ensures |flags| == 4
  {
    [JumpFlag(nodes, v, UP), JumpFlag(nodes, v, RIGHT), JumpFlag(nodes, v, DOWN), JumpFlag(nodes, v, LEFT)]
  }

  /** JumpNodes[d] holds exactly when the grid neighbour in d exists and the
      two are connected; in particular it is never set towards a cell that is
      not part of the path. */
  lemma JumpFlagMeaning(nodes: seq<SubNode>, v: int, d: int)
    requires OnGrid(v) && IsDirection(d)
    ensures JumpFlags(nodes, v)[d] <==>
      Neighbour(v, d).Some? && AreNodesConnected(nodes, v, Neighbour(v, d).value)
    ensures JumpFlags(nodes, v)[d] ==> HasNode(nodes, v) && HasNode(nodes, Neighbour(v, d).value)
  {
    if Neighbour(v, d).Some? {
      ConnectedNeighbours(nodes, v, d);
    }
  }

  /** A connection is seen from both sides: w's flag towards v is v's flag
      towards w. */
  lemma JumpFlagSymmetric(nodes: seq<SubNode>, v: int, d: int)
    requires OnGrid(v) && IsDirection(d) && Neighbour(v, d).Some?
    ensures OnGrid(Neighbour(v, d).value)
    ensures JumpFlags(nodes, Neighbour(v, d).value)[Opposite(d)] == JumpFlags(nodes, v)[d]
  {
    NeighbourSymmetric(v, d);
    var w := Neighbour(v, d).value;
    JumpFlagMeaning(nodes, v, d);
    JumpFlagMeaning(nodes, w, Opposite(d));
    ConnectedSymmetric(nodes, v, d);
  }

  lemma JumpFlagsDependOnShape(a: seq<SubNode>, b: seq<SubNode>, v: int)
    requires SameShape(a, b) && OnGrid(v)
    ensures JumpFlags(a, v) == JumpFlags(b, v)
  {
    JumpFlagDependsOnShape(a, b, v, UP);
    JumpFlagDependsOnShape(a, b, v, RIGHT);
    JumpFlagDependsOnShape(a, b, v, DOWN);
    JumpFlagDependsOnShape(a, b, v, LEFT);
  }

  lemma JumpFlagDependsOnShape(a: seq<SubNode>, b: seq<SubNode>, v: int, d: int)
    requires SameShape(a, b) && OnGrid(v) && IsDirection(d)
    ensures JumpFlag(a, v, d) == JumpFlag(b, v, d)
  {
    FirstWithIndexSameIndices(a, b, v);
    if Neighbour(v, d).Some? {
      FirstWithIndexSameIndices(a, b, Neighbour(v, d).value);
    }
  }

  /** Every node's JumpNodes recomputed; nothing else changes. */
  function WithJumpNodes(nodes: seq<SubNode>): (r: seq<SubNode>)
    requires AllOnGrid(nodes)
    ensures SameShape(r, nodes)
    ensures forall i | 0 <= i < |r| :: r[i].NeighbourNodes == nodes[i].NeighbourNodes
  {
    seq(|nodes|, i requires 0 <= i < |nodes| =>
      nodes[i].(JumpNodes := JumpFlags(nodes, nodes[i].Index)))
  }

  /** The pass reads only Index and Paths, so running it twice is running it once. */
  lemma WithJumpNodesIdempotent(nodes: seq<SubNode>)
    requires AllOnGrid(nodes)
    ensures WithJumpNodes(WithJumpNodes(nodes)) == WithJumpNodes(nodes)
  {
    var r := WithJumpNodes(nodes);
    forall i | 0 <= i < |r|
      ensures WithJumpNodes(r)[i] == r[i]
    {
      JumpFlagsDependOnShape(r, nodes, r[i].Index);
    }
  }

  /** The pass keeps the graph well formed. */
  lemma WithJumpNodesValid(nodes: seq<SubNode>)
    requires ValidGraph(nodes)
    ensures ValidGraph(WithJumpNodes(nodes))
  {
  }

  /** The forEach of the save pass: every node, in order, gets a fresh
      JumpNodes array. The loop reads the list it writes, which is harmless
      because the flags read only Index and Paths. */
  method GenerateJumpNodes(nodes: seq<SubNode>) returns (r: seq<SubNode>)
    requires AllOnGrid(nodes)
    ensures r == WithJumpNodes(nodes)
  {
    r := nodes;
    var i := 0;
    while i < |r|
      invariant 0 <= i <= |r| && SameShape(r, nodes)
      invariant forall j | 0 <= j < |r| :: r[j].NeighbourNodes == nodes[j].NeighbourNodes
      invariant forall j | 0 <= j < i :: r[j].JumpNodes == JumpFlags(nodes, nodes[j].Index)
      invariant forall j | i <= j < |r| :: r[j] == nodes[j]
    {
      JumpFlagsDependOnShape(r, nodes, r[i].Index);
      r := r[i := r[i].(JumpNodes := JumpFlags(r, r[i].Index))];
      i := i + 1;
    }
  }

  /** With fresh NeighbourNodes, a node's two flag arrays split its neighbours
      that are in the list: each such neighbour is flagged in exactly one of
      them, and a neighbour outside the list in neither. */
  lemma FlagsPartitionNeighbours(nodes: seq<SubNode>, i: int, d: int)
    requires ValidGraph(nodes) && 0 <= i < |nodes| && IsDirection(d)
    requires nodes[i].NeighbourNodes == GetNeighbourNodes(nodes, nodes[i].Index)
    ensures var r := WithJumpNodes(nodes);
      var v := nodes[i].Index;
      && |r[i].NeighbourNodes| == 4 && |r[i].JumpNodes| == 4
      && (Neighbour(v, d).Some? && HasNode(nodes, Neighbour(v, d).value) ==>
            r[i].NeighbourNodes[d] != r[i].JumpNodes[d])
      && (Neighbour(v, d).None? || !HasNode(nodes, Neighbour(v, d).value) ==>
            !r[i].NeighbourNodes[d] && !r[i].JumpNodes[d])
  {
    var v := nodes[i].Index;
    UniqueNodeAt(nodes, i);
    NeighbourFlagMeaning(nodes, v, d);
    JumpFlagMeaning(nodes, v, d);
    if Neighbour(v, d).Some? {
      ConnectedNeighbours(nodes, v, d);
    }
  }

  // ---------------------------------------------------------------------------
  // The pass over a Level.

  /** The node lists the pass works on are made of grid cells. */
  predicate LevelOnGrid(level: Level) {
    AllOnGrid(level.SubNodes)
    && (|level.NewPaths| > 0 ==> AllOnGrid(level.NewPaths[0].NodesToUnlock))
  }

  /** generateJumpNodesForMainPath: the main path's JumpNodes; nothing else. */
  function JumpNodesForMainPath(level: Level): (r: Level)
    requires LevelOnGrid(level)
    ensures r.(SubNodes := level.SubNodes) == level
    ensures LevelOnGrid(r)
  {
    level.(SubNodes := WithJumpNodes(level.SubNodes))
  }

  /** generateSubNodeForNewPath: no new path leaves the level as it is;
      otherwise only the first new path's JumpNodes are recomputed. */
  function JumpNodesForNewPath(level: Level): (r: Level)
    requires LevelOnGrid(level)
    ensures |level.NewPaths| == 0 ==> r == level
    ensures r.SubNodes == level.SubNodes && |r.NewPaths| == |level.NewPaths|
    ensures forall k | 1 <= k < |r.NewPaths| :: r.NewPaths[k] == level.NewPaths[k]
    ensures LevelOnGrid(r)
  {
    if |level.NewPaths| == 0 then level
    else
      var np := level.NewPaths[0];
      level.(NewPaths := level.NewPaths[0 := np.(NodesToUnlock := WithJumpNodes(np.NodesToUnlock))])
  }

  /** generateJumpNodes, after the confirmation: both passes, main path first. */
  function JumpNodesForSave(level: Level): (r: Level)
    requires LevelOnGrid(level)
    ensures r.SubNodes == WithJumpNodes(level.SubNodes)
    ensures |level.NewPaths| > 0 ==>
      r.NewPaths == level.NewPaths[0 := level.NewPaths[0].(NodesToUnlock := WithJumpNodes(level.NewPaths[0].NodesToUnlock))]
    ensures |level.NewPaths| == 0 ==> r.NewPaths == []
    ensures r.(SubNodes := level.SubNodes, NewPaths := level.NewPaths) == level
  {
    JumpNodesForNewPath(JumpNodesForMainPath(level))
  }

  /** Saving twice in a row saves the same level. */
  lemma SaveIdempotent(level: Level)
    requires LevelOnGrid(level)
    ensures LevelOnGrid(JumpNodesForSave(level))
    ensures JumpNodesForSave(JumpNodesForSave(level)) == JumpNodesForSave(level)
  {
    WithJumpNodesIdempotent(level.SubNodes);
    if |level.NewPaths| > 0 {
      WithJumpNodesIdempotent(level.NewPaths[0].NodesToUnlock);
    }
  }

  // ---------------------------------------------------------------------------
  // saveLevel: the splice into the region document.

  /** Replace the level at (nodeTag, levelTag); no document, no such node or
      no such level leaves the document as it is. */
  function SaveLevel(data: Option<Region>, nodeTag: string, levelTag: string, lvl: Level): Option<Region> {
    if data.None? then None
    else
      var nodes := data.value.Nodes;
      var i := NodeIndex(nodes, nodeTag);
      if i == -1 then data
      else
        var j := LevelIndex(nodes[i].Levels, levelTag);
        if j == -1 then data
        else Some(data.value.(Nodes := nodes[i := nodes[i].(Levels := nodes[i].Levels[j := lvl])]))
  }

  /** A level saved under its own tag is what the same lookup then finds. */
  lemma SaveLevelStores(data: Option<Region>, nodeTag: string, levelTag: string, lvl: Level)
    requires FindLevel(data, nodeTag, levelTag).Some? && lvl.LevelTag == levelTag
    ensures FindLevel(SaveLevel(data, nodeTag, levelTag, lvl), nodeTag, levelTag) == Some(lvl)
  {
    var nodes := data.value.Nodes;
    var i := NodeIndex(nodes, nodeTag);
    var j := LevelIndex(nodes[i].Levels, levelTag);
    var r := SaveLevel(data, nodeTag, levelTag, lvl).value;
    NodeIndexIs(r.Nodes, nodeTag, i);
    LevelIndexIs(r.Nodes[i].Levels, levelTag, j);
  }

  /** A save with nowhere to go changes nothing. */
  lemma SaveLevelMissing(data: Option<Region>, nodeTag: string, levelTag: string, lvl: Level)
    requires FindLevel(data, nodeTag, levelTag).None?
    ensures SaveLevel(data, nodeTag, levelTag, lvl) == data
  {
  }

  /** A save touches one slot: the region name, the node list's tags, and
      every node's level count stay, and every other level stays. */
  lemma SaveLevelFrame(data: Option<Region>, nodeTag: string, levelTag: string, lvl: Level)
    requires data.Some?
    ensures var r := SaveLevel(data, nodeTag, levelTag, lvl);
      && r.Some? && r.value.Name == data.value.Name
      && |r.value.Nodes| == |data.value.Nodes|
      && forall k | 0 <= k < |data.value.Nodes| ::
           && r.value.Nodes[k].NodeTag == data.value.Nodes[k].NodeTag
           && r.value.Nodes[k].NodeId == data.value.Nodes[k].NodeId
           && |r.value.Nodes[k].Levels| == |data.value.Nodes[k].Levels|
           && forall m | 0 <= m < |data.value.Nodes[k].Levels| ::
                (k != NodeIndex(data.value.Nodes, nodeTag)
                 || m != LevelIndex(data.value.Nodes[k].Levels, levelTag))
                ==> r.value.Nodes[k].Levels[m] == data.value.Nodes[k].Levels[m]
  {
  }
  /** Every level stored in the document is made of grid cells. */
  predicate DocumentOnGrid(data: Option<Region>) {
    data.Some? ==>
      forall i, j | 0 <= i < |data.value.Nodes| && 0 <= j < |data.value.Nodes[i].Levels| ::
        LevelOnGrid(data.value.Nodes[i].Levels[j])
  }

  /** A level looked up in such a document is on the grid. */
  lemma FindLevelOnGrid(data: Option<Region>, nodeTag: string, levelTag: string)
    requires DocumentOnGrid(data)
    ensures FindLevel(data, nodeTag, levelTag).Some? ==> LevelOnGrid(FindLevel(data, nodeTag, levelTag).value)
  {
  }

  /** Saving a level on the grid keeps the whole document on the grid. */
  lemma SaveLevelOnGrid(data: Option<Region>, nodeTag: string, levelTag: string, lvl: Level)
    requires DocumentOnGrid(data) && LevelOnGrid(lvl)
    ensures DocumentOnGrid(SaveLevel(data, nodeTag, levelTag, lvl))
  {
    if data.Some? {
      SaveLevelFrame(data, nodeTag, levelTag, lvl);
    }
  }
}
