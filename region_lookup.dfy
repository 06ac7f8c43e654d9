/**
 * The lookups the pages make in the region document: `findIndex` of a Node by
 * NodeTag and of a Level by LevelTag, and `find` of a Region by name. Each is
 * the position of the first match, or -1.
 */
module RegionLookup {
  import opened EditorTypes

  function NodeIndex(nodes: seq<Node>, tag: string): (k: int)
    ensures -1 <= k < |nodes|
    ensures k >= 0 ==> nodes[k].NodeTag == tag && forall j | 0 <= j < k :: nodes[j].NodeTag != tag
    ensures k == -1 ==> forall j | 0 <= j < |nodes| :: nodes[j].NodeTag != tag
  {
    if |nodes| == 0 then -1
    else if nodes[|nodes| - 1].NodeTag == tag && NodeIndex(nodes[..|nodes| - 1], tag) == -1
    then |nodes| - 1
    else NodeIndex(nodes[..|nodes| - 1], tag)
  }

  function LevelIndex(levels: seq<Level>, tag: string): (k: int)
    ensures -1 <= k < |levels|
    ensures k >= 0 ==> levels[k].LevelTag == tag && forall j | 0 <= j < k :: levels[j].LevelTag != tag
    ensures k == -1 ==> forall j | 0 <= j < |levels| :: levels[j].LevelTag != tag
  {
    if |levels| == 0 then -1
    else if levels[|levels| - 1].LevelTag == tag && LevelIndex(levels[..|levels| - 1], tag) == -1
    then |levels| - 1
    else LevelIndex(levels[..|levels| - 1], tag)
  }

  /** The selected region is picked from a list of the fetched regions'
      names, so it is compared as a RegionName. */
  function RegionIndex(regions: seq<Region>, name: RegionName): (k: int)
    ensures -1 <= k < |regions|
    ensures k >= 0 ==> regions[k].Name == name && forall j | 0 <= j < k :: regions[j].Name != name
    ensures k == -1 ==> forall j | 0 <= j < |regions| :: regions[j].Name != name
  {
    if |regions| == 0 then -1
    else if regions[|regions| - 1].Name == name && RegionIndex(regions[..|regions| - 1], name) == -1
    then |regions| - 1
    else RegionIndex(regions[..|regions| - 1], name)
  }

  /** A position holding the tag with no earlier one is what findIndex returns. */
  lemma NodeIndexIs(nodes: seq<Node>, tag: string, m: int)
    requires 0 <= m < |nodes| && nodes[m].NodeTag == tag
    requires forall j | 0 <= j < m :: nodes[j].NodeTag != tag
    ensures NodeIndex(nodes, tag) == m
  {
    var k := NodeIndex(nodes, tag);
    assert k >= 0 ==> nodes[k].NodeTag == tag;
  }

  lemma LevelIndexIs(levels: seq<Level>, tag: string, m: int)
    requires 0 <= m < |levels| && levels[m].LevelTag == tag
    requires forall j | 0 <= j < m :: levels[j].LevelTag != tag
    ensures LevelIndex(levels, tag) == m
  {
    var k := LevelIndex(levels, tag);
    assert k >= 0 ==> levels[k].LevelTag == tag;
  }

  /** The level a (node tag, level tag) pair names, if any. */
  function FindLevel(data: Option<Region>, nodeTag: string, levelTag: string): Option<Level> {
    if data.None? then None
    else
      var i := NodeIndex(data.value.Nodes, nodeTag);
      if i < 0 then None
      else
        var j := LevelIndex(data.value.Nodes[i].Levels, levelTag);
        if j < 0 then None else Some(data.value.Nodes[i].Levels[j])
  }
}
