/**
 * The region page: the fetched regions, the selected region and node, a
 * button that appends a fresh "Node N" to the selected region, and the check
 * before moving on to the node page. The fetch itself is not modelled; the
 * fetched regions are the page's input.
 */
module AddJson {
  import opened EditorTypes
  import opened TagPattern
  import opened RegionLookup

  const NODE_PREFIX := "Node "
  const NO_REGION_ERROR := "Please select a region"
  const NO_NODE_ERROR := "Please select a node"

  /** The nodes' tags, in order. */
  function NodeTags(nodes: seq<Node>): (tags: seq<string>)
    ensures |tags| == |nodes|
    ensures forall i | 0 <= i < |nodes| :: tags[i] == nodes[i].NodeTag
  {
    seq(|nodes|, i requires 0 <= i < |nodes| => nodes[i].NodeTag)
  }

  /** The tag of the next node: one more than the highest "Node <digits>". */
  function NewNodeTag(nodes: seq<Node>): string {
    NODE_PREFIX + NatToString(HighestNumber(NodeTags(nodes), NODE_PREFIX) + 1)
  }

  /** The node handleAddNode appends: the new tag, the next id, no levels. */
  function NewNode(nodes: seq<Node>): Node {
    Node(NewNodeTag(nodes), Some(|nodes| + 1), [])
  }

  /** handleAddNode: the position of the selected region among the fetched
      ones and that region with the node appended; None for an early return
      (no document loaded, no region selected, or the region not fetched). */
  function AddNodeTo(data: Option<Region>, selected: Option<RegionName>, regions: seq<Region>): Option<(nat, Region)> {
    if data.None? || selected.None? then None
    else
      var i := RegionIndex(regions, selected.value);
      if i == -1 then None
      else Some((i, regions[i].(Nodes := regions[i].Nodes + [NewNode(regions[i].Nodes)])))
  }

  /** The handler returns early exactly in those three cases. */
  lemma AddNodeNoop(data: Option<Region>, selected: Option<RegionName>, regions: seq<Region>)
    ensures AddNodeTo(data, selected, regions).None? <==>
      data.None? || selected.None? || RegionIndex(regions, selected.value) == -1
  {
  }

  /** The node is appended to the first fetched region of the selected name:
      exactly one node, tagged "Node " and the highest number plus one, with
      NodeId the node count before the append plus one and no levels. The
      earlier nodes and the region's name stay. */
  lemma AddNodeAppendsOne(data: Option<Region>, selected: Option<RegionName>, regions: seq<Region>)
    requires AddNodeTo(data, selected, regions).Some?
    ensures var (i, r) := AddNodeTo(data, selected, regions).value;
      && i < |regions| && regions[i].Name == selected.value
      && (forall j | 0 <= j < i :: regions[j].Name != selected.value)
      && r.Name == regions[i].Name
      && |r.Nodes| == |regions[i].Nodes| + 1
      && r.Nodes[..|regions[i].Nodes|] == regions[i].Nodes
      && r.Nodes[|regions[i].Nodes|].NodeId == Some(|regions[i].Nodes| + 1)
      && r.Nodes[|regions[i].Nodes|].Levels == []
      && MatchNumber(r.Nodes[|regions[i].Nodes|].NodeTag, NODE_PREFIX)
         == Some(HighestNumber(NodeTags(regions[i].Nodes), NODE_PREFIX) + 1)
  {
    var (i, r) := AddNodeTo(data, selected, regions).value;
    MadeTagNumber(NODE_PREFIX, HighestNumber(NodeTags(regions[i].Nodes), NODE_PREFIX) + 1);
  }

  /** The new tag is none of the region's node tags. */
  lemma NewNodeTagFresh(nodes: seq<Node>)
    ensures forall j | 0 <= j < |nodes| :: nodes[j].NodeTag != NewNodeTag(nodes)
  {
    NewTagIsFresh(NodeTags(nodes), NODE_PREFIX);
    assert forall j | 0 <= j < |nodes| :: nodes[j].NodeTag == NodeTags(nodes)[j];
  }

  /** So the node page, opened on the new tag, finds the new node. */
  lemma NewNodeIsFound(nodes: seq<Node>)
    ensures NodeIndex(nodes + [NewNode(nodes)], NewNodeTag(nodes)) == |nodes|
  {
    var tag := NewNodeTag(nodes);
    var extended := nodes + [NewNode(nodes)];
    NewNodeTagFresh(nodes);
    assert forall j | 0 <= j < |nodes| :: extended[j].NodeTag != tag;
    NodeIndexIs(extended, tag, |nodes|);
  }

  /** handleSubmit: a missing region is reported before a missing node. */
  function CheckSubmit(selected: Option<RegionName>, selectedNode: string): Option<string> {
    if selected.None? then Some(NO_REGION_ERROR)
    else if selectedNode == "" then Some(NO_NODE_ERROR)
    else None
  }

  lemma CheckSubmitOrder(selected: Option<RegionName>, selectedNode: string)
    ensures selected.None? ==> CheckSubmit(selected, selectedNode) == Some(NO_REGION_ERROR)
    ensures selected.Some? && selectedNode == "" ==> CheckSubmit(selected, selectedNode) == Some(NO_NODE_ERROR)
    ensures CheckSubmit(selected, selectedNode).None? <==> selected.Some? && selectedNode != ""
  {
  }

  class AddJsonPage {
    var regionData: seq<Region>
    var selectedRegion: Option<RegionName>
    var selectedNode: string
    var availableNodes: seq<string>
    var error: string
    var data: Option<Region>

    constructor(regionData: seq<Region>, data: Option<Region>)
      ensures this.regionData == regionData && this.data == data
      ensures selectedRegion == None && selectedNode == "" && availableNodes == [] && error == ""
    {
      this.regionData := regionData;
      this.data := data;
      selectedRegion := None;
      selectedNode := "";
      availableNodes := [];
      error := "";
    }

    /** Picking a region, and the two effects that follow: the document
        becomes that region and its node tags are listed, when it is among
        the fetched regions. */
    method SelectRegion(name: RegionName)
      modifies this
      ensures selectedRegion == Some(name)
      ensures regionData == old(regionData) && selectedNode == old(selectedNode) && error == old(error)
      ensures RegionIndex(regionData, name) >= 0 ==>
        && data == Some(regionData[RegionIndex(regionData, name)])
        && availableNodes == NodeTags(regionData[RegionIndex(regionData, name)].Nodes)
      ensures RegionIndex(regionData, name) == -1 ==> data == old(data) && availableNodes == old(availableNodes)
    {
      selectedRegion := Some(name);
      var i := RegionIndex(regionData, name);
      if i >= 0 {
        data := Some(regionData[i]);
        availableNodes := NodeTags(regionData[i].Nodes);
      }
    }

    /** handleAddNode: the fetched region gains the node in place, becomes the
        document, and the new tag is listed and selected. */
    method AddNode()
      modifies this
      ensures selectedRegion == old(selectedRegion)
      ensures AddNodeTo(old(data), selectedRegion, old(regionData)).None? ==>
        && regionData == old(regionData) && data == old(data) && selectedNode == old(selectedNode)
        && availableNodes == old(availableNodes) && error == old(error)
      ensures AddNodeTo(old(data), selectedRegion, old(regionData)).Some? ==>
        var (i, r) := AddNodeTo(old(data), selectedRegion, old(regionData)).value;
        && i < |old(regionData)|
        && regionData == old(regionData)[i := r] && data == Some(r)
        && selectedNode == NewNodeTag(old(regionData)[i].Nodes)
        && availableNodes == old(availableNodes) + [selectedNode] && error == ""
    {
      var added := AddNodeTo(data, selectedRegion, regionData);
      if added.None? {
        return;
      }
      var (i, r) := added.value;
      var tag := NewNodeTag(regionData[i].Nodes);
      regionData := regionData[i := r];
      data := Some(r);
      availableNodes := availableNodes + [tag];
      selectedNode := tag;
      error := "";
    }

    /** handleSubmit: the node tag the node page is opened on, or the error
        shown instead. */
    method Submit() returns (target: Option<string>)
      modifies this
      ensures regionData == old(regionData) && data == old(data) && selectedRegion == old(selectedRegion)
      ensures selectedNode == old(selectedNode) && availableNodes == old(availableNodes)
      ensures CheckSubmit(selectedRegion, selectedNode).Some? ==>
        target == None && error == CheckSubmit(selectedRegion, selectedNode).value
      ensures CheckSubmit(selectedRegion, selectedNode).None? ==>
        target == Some(selectedNode) && error == old(error)
    {
      var check := CheckSubmit(selectedRegion, selectedNode);
      if check.Some? {
        error := check.value;
        return None;
      }
      return Some(selectedNode);
    }
  }
}
