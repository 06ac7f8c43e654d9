/**
 * The node page: the levels of the node the route names, a button that adds
 * a fresh "Level N", and the check before moving on to the level page.
 */
module NodeConfiguration {
  import opened EditorTypes
  import opened Constants
  import opened TagPattern
  import opened RegionLookup

  const LEVEL_PREFIX := "Level "
  const NO_REGION_ERROR := "Please select a region first, go back and select a node"
  const NO_LEVEL_ERROR := "Please select a level first"

  /** The levels' tags, in order. */
  function LevelTags(levels: seq<Level>): (tags: seq<string>)
    ensures |tags| == |levels|
    ensures forall i | 0 <= i < |levels| :: tags[i] == levels[i].LevelTag
  {
    seq(|levels|, i requires 0 <= i < |levels| => levels[i].LevelTag)
  }

  /** The tag of the next level: one more than the highest "Level <digits>". */
  function NewLevelTag(levels: seq<Level>): string {
    LEVEL_PREFIX + NatToString(HighestNumber(LevelTags(levels), LEVEL_PREFIX) + 1)
  }

  /** handleAddLevel: the document with a fresh level appended to the
      route's node, or None when the handler returns early. */
  function AddLevelTo(data: Option<Region>, region: string): Option<Region> {
    if data.None? || region == "" then None
    else
      var nodes := data.value.Nodes;
      var i := NodeIndex(nodes, region);
      if i == -1 then None
      else
        var levels := nodes[i].Levels;
        Some(data.value.(Nodes := nodes[i := nodes[i].(Levels := levels + [ResetLevelData(NewLevelTag(levels))])]))
  }

  /** The new tag is "Level " and the highest number plus one, as the
      pattern reads it back; that number bounds every matching tag. */
  lemma NewLevelTagNumber(levels: seq<Level>)
    ensures var h := HighestNumber(LevelTags(levels), LEVEL_PREFIX);
      && MatchNumber(NewLevelTag(levels), LEVEL_PREFIX) == Some(h + 1)
      && forall j | 0 <= j < |levels| && MatchNumber(levels[j].LevelTag, LEVEL_PREFIX).Some? ::
           MatchNumber(levels[j].LevelTag, LEVEL_PREFIX).value < h + 1
  {
    MadeTagNumber(LEVEL_PREFIX, HighestNumber(LevelTags(levels), LEVEL_PREFIX) + 1);
    HighestIsMaximum(LevelTags(levels), LEVEL_PREFIX);
  }

  /** The new tag is none of the node's level tags. */
  lemma NewLevelTagFresh(levels: seq<Level>)
    ensures forall j | 0 <= j < |levels| :: levels[j].LevelTag != NewLevelTag(levels)
  {
    NewTagIsFresh(LevelTags(levels), LEVEL_PREFIX);
    assert forall j | 0 <= j < |levels| :: levels[j].LevelTag == LevelTags(levels)[j];
  }

  lemma LevelTagsConcat(a: seq<Level>, b: seq<Level>)
    ensures LevelTags(a + b) == LevelTags(a) + LevelTags(b)
  {
  }

  /** A level whose tag the pattern does not match, wherever it stands,
      does not change the new tag. */
  lemma UnmatchedLevelIgnored(before: seq<Level>, l: Level, after: seq<Level>)
    requires MatchNumber(l.LevelTag, LEVEL_PREFIX).None?
    ensures NewLevelTag(before + [l] + after) == NewLevelTag(before + after)
  {
    var tb, ta := LevelTags(before), LevelTags(after);
    LevelTagsConcat(before + [l], after);
    LevelTagsConcat(before, [l]);
    LevelTagsConcat(before, after);
    assert LevelTags([l]) == [l.LevelTag];
    UnmatchedTagIgnored(tb, l.LevelTag, ta, LEVEL_PREFIX);
    assert HighestNumber(LevelTags(before + [l] + after), LEVEL_PREFIX) == HighestNumber(LevelTags(before + after), LEVEL_PREFIX);
  }

  /** The handler returns early exactly without a document, without a
      region, or when no node has the region's tag. */
  lemma AddLevelNoop(data: Option<Region>, region: string)
    ensures AddLevelTo(data, region).None? <==>
      data.None? || region == "" || NodeIndex(data.value.Nodes, region) == -1
  {
  }

  /** Exactly one reset level, under the new tag, is appended to the matching
      node; the region's name, the other nodes, and that node's tag, id and
      earlier levels are as they were. */
  lemma AddLevelAppendsOne(data: Option<Region>, region: string)
    requires AddLevelTo(data, region).Some?
    ensures var r := AddLevelTo(data, region).value;
      var i := NodeIndex(data.value.Nodes, region);
      && 0 <= i < |data.value.Nodes|
      && r.Name == data.value.Name && |r.Nodes| == |data.value.Nodes|
      && (forall k | 0 <= k < |r.Nodes| && k != i :: r.Nodes[k] == data.value.Nodes[k])
      && r.Nodes[i].NodeTag == data.value.Nodes[i].NodeTag && r.Nodes[i].NodeId == data.value.Nodes[i].NodeId
      && r.Nodes[i].Levels == data.value.Nodes[i].Levels + [ResetLevelData(NewLevelTag(data.value.Nodes[i].Levels))]
  {
  }

  /** The level page, opened on the route's node and the new tag, finds the
      fresh level just added. */
  lemma AddedLevelIsFound(data: Option<Region>, region: string)
    requires AddLevelTo(data, region).Some?
    ensures var i := NodeIndex(data.value.Nodes, region);
      0 <= i < |data.value.Nodes| &&
      var tag := NewLevelTag(data.value.Nodes[i].Levels);
      FindLevel(AddLevelTo(data, region), region, tag) == Some(ResetLevelData(tag))
  {
    var nodes := data.value.Nodes;
    var i := NodeIndex(nodes, region);
    var levels := nodes[i].Levels;
    var tag := NewLevelTag(levels);
    var r := AddLevelTo(data, region).value;
    NodeIndexIs(r.Nodes, region, i);
    NewLevelTagFresh(levels);
    LevelIndexIs(r.Nodes[i].Levels, tag, |levels|);
  }

  /** handleNext: a missing region is reported before a missing level. */
  function CheckNext(region: string, selectedLevel: string): Option<string> {
    if region == "" then Some(NO_REGION_ERROR)
    else if selectedLevel == "" then Some(NO_LEVEL_ERROR)
    else None
  }

  lemma CheckNextOrder(region: string, selectedLevel: string)
    ensures region == "" ==> CheckNext(region, selectedLevel) == Some(NO_REGION_ERROR)
    ensures region != "" && selectedLevel == "" ==> CheckNext(region, selectedLevel) == Some(NO_LEVEL_ERROR)
    ensures CheckNext(region, selectedLevel).None? <==> region != "" && selectedLevel != ""
  {
  }

  class NodeConfigurationPage {
    var data: Option<Region>
    const region: string
    var selectedLevel: string
    var availableLevels: seq<string>
    var error: string

    constructor(data: Option<Region>, region: string)
      ensures this.data == data && this.region == region
      ensures selectedLevel == "" && availableLevels == [] && error == ""
    {
      this.data := data;
      this.region := region;
      selectedLevel := "";
      availableLevels := [];
      error := "";
    }

    /** The effect listing the route's node's level tags. */
    method LoadLevels()
      modifies this
      ensures data == old(data) && selectedLevel == old(selectedLevel) && error == old(error)
      ensures data.Some? && NodeIndex(data.value.Nodes, region) >= 0 ==>
        availableLevels == LevelTags(data.value.Nodes[NodeIndex(data.value.Nodes, region)].Levels)
      ensures !(data.Some? && NodeIndex(data.value.Nodes, region) >= 0) ==> availableLevels == old(availableLevels)
    {
      if data.Some? {
        var i := NodeIndex(data.value.Nodes, region);
        if i >= 0 {
          availableLevels := LevelTags(data.value.Nodes[i].Levels);
        }
      }
    }

    /** handleAddLevel: the document gains the level, the new tag is listed
        and selected, and the error is cleared. */
    method AddLevel()
      modifies this
      ensures AddLevelTo(old(data), region).None? ==>
        data == old(data) && selectedLevel == old(selectedLevel)
        && availableLevels == old(availableLevels) && error == old(error)
      ensures AddLevelTo(old(data), region).Some? ==>
        && data == AddLevelTo(old(data), region)
        && selectedLevel == NewLevelTag(old(data).value.Nodes[NodeIndex(old(data).value.Nodes, region)].Levels)
        && availableLevels == old(availableLevels) + [selectedLevel]
        && error == ""
    {
      var updated := AddLevelTo(data, region);
      if updated.None? {
        return;
      }
      var tag := NewLevelTag(data.value.Nodes[NodeIndex(data.value.Nodes, region)].Levels);
      data := updated;
      availableLevels := availableLevels + [tag];
      selectedLevel := tag;
      error := "";
    }

    /** handleNext: the (node tag, level tag) route of the level page, or
        the error shown instead. */
    method Next() returns (target: Option<(string, string)>)
      modifies this
      ensures data == old(data) && selectedLevel == old(selectedLevel) && availableLevels == old(availableLevels)
      ensures CheckNext(region, selectedLevel).Some? ==>
        target == None && error == CheckNext(region, selectedLevel).value
      ensures CheckNext(region, selectedLevel).None? ==>
        target == Some((region, selectedLevel)) && error == old(error)
    {
      var check := CheckNext(region, selectedLevel);
      if check.Some? {
        error := check.value;
        return None;
      }
      return Some((region, selectedLevel));
    }
  }
}
