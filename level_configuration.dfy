/**
 * The level configuration page: the level being edited, the trap-authoring
 * toggle and the region document it saves into, with one method per handler.
 * The route parameters `region` (a node tag) and `level` (a level tag) are
 * fixed for the page. Each handler that goes through `setLevelData` with an
 * updater does nothing while no level is loaded.
 */
module LevelConfiguration {
  import opened EditorTypes
  import opened Topology
  import opened PathGraph
  import opened RegionLookup
  import opened SavePass
  import opened LevelEdits

  class LevelEditor {
    var levelData: Option<Level>
    var isAddingTrap: bool
    var data: Option<Region>
    const region: string
    const level: string

    /** The loaded level's path lists use grid cells, which the path engine
        and the JumpNodes pass need; the other handlers take any level. */
    predicate Valid()
      reads this
    {
      levelData.Some? ==> LevelOnGrid(levelData.value)
    }

    /** The page as it first renders: no level loaded, not authoring a trap. */
    constructor(data: Option<Region>, region: string, level: string)
      ensures Valid()
      ensures this.data == data && this.region == region && this.level == level
      ensures levelData == None && !isAddingTrap
    {
      this.data := data;
      this.region := region;
      this.level := level;
      levelData := None;
      isAddingTrap := false;
    }

    /** The loading effect: with a document and no level yet, the level the
        route names, if it exists. A loaded level carries the route's tag. */
    method LoadLevel()
      modifies this
      ensures old(Valid()) && DocumentOnGrid(data) ==> Valid()
      ensures data == old(data) && isAddingTrap == old(isAddingTrap)
      ensures old(data).Some? && old(levelData).None? && FindLevel(data, region, level).Some?
              ==> levelData == FindLevel(data, region, level)
      ensures !(old(data).Some? && old(levelData).None? && FindLevel(data, region, level).Some?)
              ==> levelData == old(levelData)
      ensures old(levelData).None? && levelData.Some? ==> levelData.value.LevelTag == level
    {
      if data.Some? && levelData.None? {
        var found := FindLevel(data, region, level);
        if found.Some? {
          if DocumentOnGrid(data) {
            FindLevelOnGrid(data, region, level);
          }
          levelData := found;
        }
      }
    }

    /** saveLevel: the level becomes the page's level and is spliced into
        the document at the route's node and level. */
    method SaveLevel(lvl: Level)
      modifies this
      ensures Valid() <==> LevelOnGrid(lvl)
      ensures DocumentOnGrid(old(data)) && LevelOnGrid(lvl) ==> DocumentOnGrid(data)
      ensures levelData == Some(lvl) && isAddingTrap == old(isAddingTrap)
      ensures data == SavePass.SaveLevel(old(data), region, level, lvl)
      ensures lvl.LevelTag == level && FindLevel(old(data), region, level).Some?
              ==> FindLevel(data, region, level) == Some(lvl)
    {
      if DocumentOnGrid(data) && LevelOnGrid(lvl) {
        SaveLevelOnGrid(data, region, level, lvl);
      }
      if lvl.LevelTag == level && FindLevel(data, region, level).Some? {
        SaveLevelStores(data, region, level, lvl);
      }
      levelData := Some(lvl);
      data := SavePass.SaveLevel(data, region, level, lvl);
    }

    /** generateJumpNodes: after the confirmation, both JumpNodes passes and
        the save. After saving the route's own level, looking it up in the
        document finds exactly the page's level. */
    method GenerateJumpNodes(confirmed: bool)
      requires Valid()
      modifies this
      ensures Valid()
      ensures DocumentOnGrid(old(data)) ==> DocumentOnGrid(data)
      ensures isAddingTrap == old(isAddingTrap)
      ensures old(levelData).None? || !confirmed ==> levelData == old(levelData) && data == old(data)
      ensures old(levelData).Some? && confirmed ==>
        && levelData == Some(JumpNodesForSave(old(levelData).value))
        && data == SavePass.SaveLevel(old(data), region, level, JumpNodesForSave(old(levelData).value))
      ensures old(levelData).Some? && confirmed && old(levelData).value.LevelTag == level
              && FindLevel(old(data), region, level).Some?
              ==> FindLevel(data, region, level) == levelData
    {
      if levelData.None? || !confirmed {
        return;
      }
      var newData := levelData.value;
      var subNodes := SavePass.GenerateJumpNodes(newData.SubNodes);
      newData := newData.(SubNodes := subNodes);
      if |newData.NewPaths| > 0 {
        var unlock := SavePass.GenerateJumpNodes(newData.NewPaths[0].NodesToUnlock);
        newData := newData.(NewPaths := newData.NewPaths[0 := newData.NewPaths[0].(NodesToUnlock := unlock)]);
      }
      assert newData == JumpNodesForSave(levelData.value);
      SaveLevel(newData);
    }

    /** handleAddPath: one click of the path engine on SubNodes. */
    method AddPath(curr: int, prev: Option<int>)
      requires Valid() && OnGrid(curr)
      requires !IsFirstClick(prev) ==> OnGrid(prev.value)
      modifies this
      ensures Valid()
      ensures data == old(data) && isAddingTrap == old(isAddingTrap)
      ensures old(levelData).None? ==> levelData == None
      ensures old(levelData).Some? ==> levelData == Some(AddPathToLevel(old(levelData).value, curr, prev))
    {
      if levelData.None? {
        return;
      }
      var l := levelData.value;
      var subNodes := PathGraph.AddPath(l.SubNodes, curr, prev);
      AddPathOnGrid(l.SubNodes, curr, prev);
      levelData := Some(l.(SubNodes := subNodes));
    }

    /** handleAddNewPath: the engine on NewPaths[0].NodesToUnlock; `thrown`
        when a writing branch finds no new path. */
    method AddNewPath(curr: int, prev: Option<int>) returns (thrown: bool)
      requires Valid() && OnGrid(curr)
      requires !IsFirstClick(prev) ==> OnGrid(prev.value)
      modifies this
      ensures Valid()
      ensures data == old(data) && isAddingTrap == old(isAddingTrap)
      ensures old(levelData).None? ==> levelData == None && !thrown
      ensures old(levelData).Some? ==>
        match AddNewPathToLevel(old(levelData).value, curr, prev)
        case Done(l) => levelData == Some(l) && !thrown
        case Alerted(_) => false
        case Thrown => levelData == old(levelData) && thrown
    {
      thrown := false;
      if levelData.None? {
        return;
      }
      var l := levelData.value;
      if !WritesBack(curr, prev) {
        return;
      }
      if |l.NewPaths| == 0 {
        thrown := true;
        return;
      }
      var unlock := PathGraph.AddPath(l.NewPaths[0].NodesToUnlock, curr, prev);
      AddPathOnGrid(l.NewPaths[0].NodesToUnlock, curr, prev);
      levelData := Some(l.(NewPaths := l.NewPaths[0 := l.NewPaths[0].(NodesToUnlock := unlock)]));
    }

    /** handleAddEnemy: the upsert of the enemy on the cell. */
    method AddEnemy(index: int, e: EnemyData)
      modifies this
      ensures Valid() <==> old(Valid())
      ensures data == old(data) && isAddingTrap == old(isAddingTrap)
      ensures old(levelData).None? ==> levelData == None
      ensures old(levelData).Some? ==> levelData == Some(LevelEdits.AddEnemy(old(levelData).value, index, e))
    {
      if levelData.Some? {
        levelData := Some(LevelEdits.AddEnemy(levelData.value, index, e));
      }
    }

    /** handleStartSelect: one more "Player" spawn. */
    method StartSelect(index: int, angle: int)
      modifies this
      ensures Valid() <==> old(Valid())
      ensures data == old(data) && isAddingTrap == old(isAddingTrap)
      ensures old(levelData).None? ==> levelData == None
      ensures old(levelData).Some? ==> levelData == Some(LevelEdits.StartSelect(old(levelData).value, index, angle))
    {
      if levelData.Some? {
        levelData := Some(LevelEdits.StartSelect(levelData.value, index, angle));
      }
    }

    /** handleEndSelect: the end node. */
    method EndSelect(index: int)
      modifies this
      ensures Valid() <==> old(Valid())
      ensures data == old(data) && isAddingTrap == old(isAddingTrap)
      ensures old(levelData).None? ==> levelData == None
      ensures old(levelData).Some? ==> levelData == Some(LevelEdits.EndSelect(old(levelData).value, index))
    {
      if levelData.Some? {
        levelData := Some(LevelEdits.EndSelect(levelData.value, index));
      }
    }

    /** handleAddCageKey. */
    method AddCageKey(index: int)
      modifies this
      ensures Valid() <==> old(Valid())
      ensures data == old(data) && isAddingTrap == old(isAddingTrap)
      ensures old(levelData).None? ==> levelData == None
      ensures old(levelData).Some? ==> levelData == Some(LevelEdits.AddCageKey(old(levelData).value, index))
    {
      if levelData.Some? {
        levelData := Some(LevelEdits.AddCageKey(levelData.value, index));
      }
    }

    /** handleAddCageReward. */
    method AddCageReward(index: int)
      modifies this
      ensures Valid() <==> old(Valid())
      ensures data == old(data) && isAddingTrap == old(isAddingTrap)
      ensures old(levelData).None? ==> levelData == None
      ensures old(levelData).Some? ==> levelData == Some(LevelEdits.AddCageReward(old(levelData).value, index))
    {
      if levelData.Some? {
        levelData := Some(LevelEdits.AddCageReward(levelData.value, index));
      }
    }

    /** handleAddDamageNode. */
    method AddDamageNode(index: int)
      modifies this
      ensures Valid() <==> old(Valid())
      ensures data == old(data) && isAddingTrap == old(isAddingTrap)
      ensures old(levelData).None? ==> levelData == None
      ensures old(levelData).Some? ==> levelData == Some(LevelEdits.AddDamageNode(old(levelData).value, index))
    {
      if levelData.Some? {
        levelData := Some(LevelEdits.AddDamageNode(levelData.value, index));
      }
    }

    /** handleAddNewPathIndexA: `confirmed` is the answer to the overwrite
        question, which is asked only when IndexA is already set. With no
        level loaded the optional chain yields nothing and the click is
        ignored; with a level and no new path the read throws. */
    method SetIndexA(index: int, confirmed: bool) returns (thrown: bool)
      modifies this
      ensures Valid() <==> old(Valid())
      ensures data == old(data) && isAddingTrap == old(isAddingTrap)
      ensures old(levelData).None? ==> levelData == None && !thrown
      ensures old(levelData).Some? ==>
        match LevelEdits.SetIndexA(old(levelData).value, index, confirmed)
        case Done(l) => levelData == Some(l) && !thrown
        case Alerted(_) => false
        case Thrown => levelData == old(levelData) && thrown
    {
      thrown := false;
      if levelData.Some? {
        var o := LevelEdits.SetIndexA(levelData.value, index, confirmed);
        if o.Done? {
          levelData := Some(o.value);
        } else {
          thrown := true;
        }
      }
    }

    /** handleAddNewPathIndexB, as A with IndexB and JointB. */
    method SetIndexB(index: int, confirmed: bool) returns (thrown: bool)
      modifies this
      ensures Valid() <==> old(Valid())
      ensures data == old(data) && isAddingTrap == old(isAddingTrap)
      ensures old(levelData).None? ==> levelData == None && !thrown
      ensures old(levelData).Some? ==>
        match LevelEdits.SetIndexB(old(levelData).value, index, confirmed)
        case Done(l) => levelData == Some(l) && !thrown
        case Alerted(_) => false
        case Thrown => levelData == old(levelData) && thrown
    {
      thrown := false;
      if levelData.Some? {
        var o := LevelEdits.SetIndexB(levelData.value, index, confirmed);
        if o.Done? {
          levelData := Some(o.value);
        } else {
          thrown := true;
        }
      }
    }

    /** handleAddTrapObject: the alert, if the level already has a trap. */
    method AddTrapObject(index: int, direction: int) returns (alert: Option<string>)
      modifies this
      ensures Valid() <==> old(Valid())
      ensures data == old(data) && isAddingTrap == old(isAddingTrap)
      ensures old(levelData).None? ==> levelData == None && alert == None
      ensures old(levelData).Some? ==>
        match LevelEdits.AddTrapObject(old(levelData).value, index, direction)
        case Done(l) => levelData == Some(l) && alert == None
        case Alerted(m) => levelData == old(levelData) && alert == Some(m)
        case Thrown => false
    {
      alert := None;
      if levelData.Some? {
        var o := LevelEdits.AddTrapObject(levelData.value, index, direction);
        if o.Done? {
          levelData := Some(o.value);
        } else {
          alert := Some(o.message);
        }
      }
    }

    /** handleAddTrapTrigger: the alert, if there is no trap. Authoring ends
        in every case, since the toggle is reset outside the updater. */
    method AddTrapTrigger(index: int, direction: int) returns (alert: Option<string>)
      modifies this
      ensures Valid() <==> old(Valid())
      ensures data == old(data) && !isAddingTrap
      ensures old(levelData).None? ==> levelData == None && alert == None
      ensures old(levelData).Some? ==>
        match LevelEdits.AddTrapTrigger(old(levelData).value, index, direction)
        case Done(l) => levelData == Some(l) && alert == None
        case Alerted(m) => levelData == old(levelData) && alert == Some(m)
        case Thrown => false
    {
      alert := None;
      if levelData.Some? {
        var o := LevelEdits.AddTrapTrigger(levelData.value, index, direction);
        if o.Done? {
          levelData := Some(o.value);
        } else {
          alert := Some(o.message);
        }
      }
      isAddingTrap := false;
    }

    /** onAddTrap: the "Add Trap" button. */
    method OnAddTrap() returns (alert: Option<string>)
      modifies this
      ensures Valid() <==> old(Valid())
      ensures data == old(data) && levelData == old(levelData)
      ensures (isAddingTrap, alert) == ToggleTrapMode(old(isAddingTrap), old(levelData))
    {
      var (mode, message) := ToggleTrapMode(isAddingTrap, levelData);
      isAddingTrap := mode;
      alert := message;
    }

    /** handleReset: a fresh level under the current level's tag. */
    method Reset()
      modifies this
      ensures Valid()
      ensures data == old(data) && isAddingTrap == old(isAddingTrap)
      ensures levelData == Some(ResetLevel(old(levelData)))
    {
      levelData := Some(ResetLevel(levelData));
    }
  }
}
