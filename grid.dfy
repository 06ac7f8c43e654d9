/**
 * The grid: one cell per NODES entry, and the previous-click register that
 * supplies the previous index of a path click.
 */
module GridView {
  import opened EditorTypes
  import opened Topology
  import opened PathGraph
  import opened SavePass
  import opened LevelEdits
  import opened LevelConfiguration
  import BlockCell
  import Constants

  // ---------------------------------------------------------------------------
  // Render order.

  /** The rows laid end to end. */
  function Flatten(rows: seq<seq<int>>): seq<int> {
    if |rows| == 0 then [] else Flatten(rows[..|rows| - 1]) + rows[|rows| - 1]
  }

  /** Laying out 20-wide rows puts entry (r, c) at position 20 r + c. */
  lemma {:induction false} FlattenRows(rows: seq<seq<int>>)
    requires forall r | 0 <= r < |rows| :: |rows[r]| == 20
    ensures |Flatten(rows)| == 20 * |rows|
    ensures forall i | 0 <= i < |Flatten(rows)| :: Flatten(rows)[i] == rows[i / 20][i % 20]
  {
    if |rows| > 0 {
      var init := rows[..|rows| - 1];
      FlattenRows(init);
      var f := Flatten(rows);
      forall i | 0 <= i < |f|
        ensures f[i] == rows[i / 20][i % 20]
      {
        if i < 20 * |init| {
          assert f[i] == Flatten(init)[i];
          assert init[i / 20] == rows[i / 20];
        } else {
          assert i / 20 == |rows| - 1;
        }
      }
    }
  }

  /** The cells in the order the grid renders them: 400 of them, row by
      row, entry (r, c) at position 20 r + c. */
  function RenderOrder(): (cells: seq<int>)
    ensures |cells| == 400
    ensures forall i | 0 <= i < 400 :: cells[i] == NODES[i / 20][i % 20]
  {
    Rectangular();
    FlattenRows(NODES);
    Flatten(NODES)
  }

  /** No index is rendered twice, so the index works as the cell's key. */
  lemma RenderOrderDistinct(i: int, j: int)
    requires 0 <= i < j < 400
    ensures RenderOrder()[i] != RenderOrder()[j]
  {
    var f := RenderOrder();
    if f[i] == f[j] {
      CellsInjective(i / 20, i % 20, j / 20, j % 20);
    }
  }

  /** Cell (r, c) is rendered at position 20 r + c. */
  lemma CellRendered(r: int, c: int)
    requires IsCell(r, c)
    ensures 0 <= 20 * r + c < 400 && RenderOrder()[20 * r + c] == NODES[r][c]
  {
    var i := 20 * r + c;
    assert i / 20 == r && i % 20 == c;
  }

  /** The rendered indices are exactly the grid cells. */
  lemma RenderOrderCoversGrid(v: int)
    ensures v in RenderOrder() <==> OnGrid(v)
  {
    Rectangular();
    var f := RenderOrder();
    if OnGrid(v) {
      var r, c :| IsCell(r, c) && NODES[r][c] == v;
      CellRendered(r, c);
    }
    if v in f {
      var i :| 0 <= i < |f| && f[i] == v;
      var r, c := i / 20, i % 20;
      assert IsCell(r, c) && NODES[r][c] == v;
    }
  }

  // ---------------------------------------------------------------------------
  // The trap mode a cell sees.

  /** The grid renders every Block without an `isAddingTrap` prop (nor the
      two trap handlers), so in the cell the prop is undefined, which is
      falsy, whatever the page's own toggle says. */
  const BLOCK_TRAP_MODE := false

  /** So a click on a grid cell never opens the trap-object or trigger
      modal and never gets the trap-mode alert: the page's trap handlers are
      not reached from the grid. Holding 't' or 'o' gives what any key
      outside the legend gives. */
  lemma GridClickNeverAuthorsTraps(blockType: Constants.BlockType, key: string, level: Level, index: int)
    ensures var a := BlockCell.Click(blockType, BLOCK_TRAP_MODE, key, level, index);
      && a != Some(BlockCell.OpenTriggerModal) && a != Some(BlockCell.OpenTrapObjectModal)
      && a != Some(BlockCell.TrapModeRejected)
    ensures !BlockCell.IsDisabled(blockType) && (key == "t" || key == "o") ==>
      BlockCell.Click(blockType, BLOCK_TRAP_MODE, key, level, index)
      == Some(if HasNode(level.SubNodes, index) then BlockCell.CallNormalClick else BlockCell.InactiveCell)
  {
  }

  // ---------------------------------------------------------------------------
  // The previous-click register.

  /** The index the register holds after a run of path clicks: the last one. */
  function LastClick(clicks: seq<int>): Option<int> {
    if |clicks| == 0 then None else Some(clicks[|clicks| - 1])
  }

  /** The i-th path click of a session, from the register, is sent the
      click just before it; the first one none. */
  lemma LastClickIsPrevious(clicks: seq<int>, i: nat)
    requires i < |clicks|
    ensures LastClick(clicks[..i]) == (if i == 0 then None else Some(clicks[i - 1]))
  {
  }

  class GridComponent {
    var prevClickedIndex: Option<int>
    /** The path clicks of the session so far. */
    ghost var pathClicks: seq<int>
    const editor: LevelEditor

    /** The register holds the last path click, always a grid cell. */
    ghost predicate Valid()
      reads this
    {
      && prevClickedIndex == LastClick(pathClicks)
      && forall i | 0 <= i < |pathClicks| :: OnGrid(pathClicks[i])
    }

    constructor(editor: LevelEditor)
      ensures Valid() && this.editor == editor
      ensures prevClickedIndex == None && pathClicks == []
    {
      this.editor := editor;
      prevClickedIndex := None;
      pathClicks := [];
    }

    /** A path click: the page's handler gets the register's index, then the
        register takes the clicked one. */
    method OnAddPath(curr: int) returns (sent: Option<int>)
      requires Valid() && editor.Valid() && OnGrid(curr)
      modifies this, editor
      ensures Valid() && editor.Valid()
      ensures sent == LastClick(old(pathClicks))
      ensures pathClicks == old(pathClicks) + [curr] && prevClickedIndex == Some(curr)
      ensures editor.data == old(editor.data) && editor.isAddingTrap == old(editor.isAddingTrap)
      ensures old(editor.levelData).None? ==> editor.levelData == None
      ensures old(editor.levelData).Some? ==>
        editor.levelData == Some(AddPathToLevel(old(editor.levelData).value, curr, sent))
    {
      sent := prevClickedIndex;
      editor.AddPath(curr, sent);
      prevClickedIndex := Some(curr);
      pathClicks := pathClicks + [curr];
    }

    /** A new-path click sends no previous index and leaves the register. */
    method OnAddNewPath(curr: int) returns (sent: Option<int>, thrown: bool)
      requires Valid() && editor.Valid() && OnGrid(curr)
      modifies editor
      ensures Valid() && editor.Valid()
      ensures sent == None
      ensures editor.data == old(editor.data) && editor.isAddingTrap == old(editor.isAddingTrap)
      ensures old(editor.levelData).None? ==> editor.levelData == None && !thrown
      ensures old(editor.levelData).Some? ==>
        match AddNewPathToLevel(old(editor.levelData).value, curr, None)
        case Done(l) => editor.levelData == Some(l) && !thrown
        case Alerted(_) => false
        case Thrown => editor.levelData == old(editor.levelData) && thrown
    {
      sent := None;
      thrown := editor.AddNewPath(curr, None);
    }
  }

  /** A new-path click always takes the first-click branch: on a level with
      a new path it adds the clicked cell, without linking it to anything. */
  lemma NewPathClickIsFirstClick(level: Level, curr: int)
    requires |level.NewPaths| > 0 && LevelOnGrid(level) && OnGrid(curr)
    ensures AddNewPathToLevel(level, curr, None).Done?
    ensures var r := AddNewPathToLevel(level, curr, None).value;
      r.NewPaths[0].NodesToUnlock == AddFirstNode(level.NewPaths[0].NodesToUnlock, curr)
      && HasNode(r.NewPaths[0].NodesToUnlock, curr)
  {
    NewPathClickAddsCell(level, curr);
  }
}
