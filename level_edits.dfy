/**
 * The level editor's handlers as updates of one Level value: the two path
 * handlers, the placement registry (enemies, spawn objects, the end node,
 * the new-path triggers, the single trap) and reset.
 */
module LevelEdits {
  import opened EditorTypes
  import opened Topology
  import opened PathGraph
  import opened Constants

  // ---------------------------------------------------------------------------
  // Path handlers on a Level.

  /** handleAddPath: the engine on SubNodes; nothing else in the Level changes. */
  function AddPathToLevel(level: Level, curr: int, prev: Option<int>): (r: Level)
    requires AllOnGrid(level.SubNodes) && OnGrid(curr)
    requires !IsFirstClick(prev) ==> OnGrid(prev.value)
    ensures r.(SubNodes := level.SubNodes) == level
    ensures !WritesBack(curr, prev) ==> r == level
  {
    level.(SubNodes := AddPathResult(level.SubNodes, curr, prev))
  }

  /** The list handleAddNewPath starts from: NewPaths[0].NodesToUnlock, or []. */
  function NewPathNodes(level: Level): seq<SubNode> {
    if |level.NewPaths| > 0 then level.NewPaths[0].NodesToUnlock else []
  }

  /** handleAddNewPath: the engine on NewPaths[0].NodesToUnlock. Its read is
      guarded, its write `NewPaths[0].NodesToUnlock = ...` is not, so a
      branch that writes throws when there is no new path. */
  function AddNewPathToLevel(level: Level, curr: int, prev: Option<int>): Outcome<Level>
    requires AllOnGrid(NewPathNodes(level)) && OnGrid(curr)
    requires !IsFirstClick(prev) ==> OnGrid(prev.value)
  {
    if !WritesBack(curr, prev) then Done(level)
    else if |level.NewPaths| == 0 then Thrown
    else
      var np := level.NewPaths[0];
      Done(level.(NewPaths := level.NewPaths[0 := np.(NodesToUnlock := AddPathResult(np.NodesToUnlock, curr, prev))]))
  }

  /** The new-path handler throws exactly when a writing branch meets an
      empty NewPaths; otherwise it changes only NewPaths[0].NodesToUnlock,
      leaving SubNodes, the triggers and every other new path alone. */
  lemma AddNewPathFrame(level: Level, curr: int, prev: Option<int>)
    requires AllOnGrid(NewPathNodes(level)) && OnGrid(curr)
    requires !IsFirstClick(prev) ==> OnGrid(prev.value)
    ensures AddNewPathToLevel(level, curr, prev).Thrown? <==> WritesBack(curr, prev) && |level.NewPaths| == 0
    ensures !AddNewPathToLevel(level, curr, prev).Alerted?
    ensures var o := AddNewPathToLevel(level, curr, prev);
      o.Done? ==>
        && o.value.(NewPaths := level.NewPaths) == level
        && |o.value.NewPaths| == |level.NewPaths|
        && (forall k | 1 <= k < |level.NewPaths| :: o.value.NewPaths[k] == level.NewPaths[k])
        && (|level.NewPaths| > 0 ==>
              o.value.NewPaths[0].(NodesToUnlock := level.NewPaths[0].NodesToUnlock) == level.NewPaths[0]
              && o.value.NewPaths[0].NodesToUnlock == AddPathResult(NewPathNodes(level), curr, prev))
  {
  }

  /** A new-path click on a level with a new path, from the Grid (which never
      sends a previous index), adds the clicked cell to the secondary graph. */
  lemma NewPathClickAddsCell(level: Level, curr: int)
    requires |level.NewPaths| > 0 && AllOnGrid(NewPathNodes(level)) && OnGrid(curr)
    ensures AddNewPathToLevel(level, curr, None).Done?
    ensures HasNode(AddNewPathToLevel(level, curr, None).value.NewPaths[0].NodesToUnlock, curr)
  {
    var nodes := NewPathNodes(level);
    if !HasNode(nodes, curr) {
      FirstWithIndexAppend(nodes, SubNode(curr, [], GetNeighbourNodes(nodes, curr), NO_FLAGS), curr);
    }
  }

  // ---------------------------------------------------------------------------
  // Enemies: at most one per NodeIndex.

  /** findIndex of the enemy standing on a cell, or -1. */
  function EnemyAt(enemies: seq<Enemy>, index: int): (k: int)
    ensures -1 <= k < |enemies|
    ensures k >= 0 ==> enemies[k].Object.NodeIndex == index
    ensures k >= 0 ==> forall j | 0 <= j < k :: enemies[j].Object.NodeIndex != index
    ensures k == -1 ==> forall j | 0 <= j < |enemies| :: enemies[j].Object.NodeIndex != index
  {
    if |enemies| == 0 then -1
    else if enemies[|enemies| - 1].Object.NodeIndex == index && EnemyAt(enemies[..|enemies| - 1], index) == -1
    then |enemies| - 1
    else EnemyAt(enemies[..|enemies| - 1], index)
  }

  /** The enemy record the handler writes. The Type is the modal's string,
      passed through the unchecked cast as it is. */
  function MakeEnemy(index: int, e: EnemyData): Enemy {
    Enemy(SpawnObject("Enemy", index, PlacementTransform(e.direction)), e.enemyType, e.spawnable, e.rotateAntiClockwise)
  }

  /** handleAddEnemy: replace the enemy on the cell, or append one. */
  function AddEnemy(level: Level, index: int, e: EnemyData): (r: Level)
    ensures r.(Enemies := level.Enemies) == level
  {
    var k := EnemyAt(level.Enemies, index);
    if k >= 0 then level.(Enemies := level.Enemies[k := MakeEnemy(index, e)])
    else level.(Enemies := level.Enemies + [MakeEnemy(index, e)])
  }

  predicate AtMostOneEnemyPerCell(enemies: seq<Enemy>) {
    forall i, j | 0 <= i < j < |enemies| :: enemies[i].Object.NodeIndex != enemies[j].Object.NodeIndex
  }

  /** The upsert: an enemy already on the cell is replaced in place (length
      kept, every other entry as it was); otherwise exactly one is appended.
      Either way the cell then holds an enemy tagged "Enemy", standing on the
      cell, facing eulerAngles.y = direction, with the modal's type and flags. */
  lemma AddEnemyUpserts(level: Level, index: int, e: EnemyData)
    ensures var r := AddEnemy(level, index, e);
      var k := EnemyAt(level.Enemies, index);
      && (k >= 0 ==>
            && |r.Enemies| == |level.Enemies|
            && forall j | 0 <= j < |level.Enemies| && j != k :: r.Enemies[j] == level.Enemies[j])
      && (k < 0 ==> r.Enemies[..|level.Enemies|] == level.Enemies && |r.Enemies| == |level.Enemies| + 1)
      && EnemyAt(r.Enemies, index) == (if k >= 0 then k else |level.Enemies|)
      && var placed := r.Enemies[EnemyAt(r.Enemies, index)];
         && placed.Object.Tag == "Enemy" && placed.Object.NodeIndex == index
         && placed.Object.CustomTransform.eulerAngles.y == e.direction as real
         && placed.Type == e.enemyType && placed.Spawnable == e.spawnable
         && placed.RotateAntiClockwise == e.rotateAntiClockwise
  {
    var r := AddEnemy(level, index, e);
    var k := EnemyAt(level.Enemies, index);
    var m := if k >= 0 then k else |level.Enemies|;
    var found := EnemyAt(r.Enemies, index);
    assert r.Enemies[m].Object.NodeIndex == index;
    assert forall j | 0 <= j < m :: r.Enemies[j] == level.Enemies[j];
    assert found >= 0 ==> r.Enemies[found].Object.NodeIndex == index;
  }

  /** The upsert never puts a second enemy on a cell. */
  lemma AddEnemyKeepsOnePerCell(level: Level, index: int, e: EnemyData)
    requires AtMostOneEnemyPerCell(level.Enemies)
    ensures AtMostOneEnemyPerCell(AddEnemy(level, index, e).Enemies)
  {
  }

  /** Placing the same enemy twice is placing it once. */
  lemma AddEnemyIdempotent(level: Level, index: int, e: EnemyData)
    ensures AddEnemy(AddEnemy(level, index, e), index, e) == AddEnemy(level, index, e)
  {
    AddEnemyUpserts(level, index, e);
  }

  // ---------------------------------------------------------------------------
  // Spawn objects and the end node.

  /** Append one spawn object; the handlers only ever push. */
  function AddSpawn(level: Level, tag: string, index: int, angle: int): (r: Level)
    ensures r.(SpawnObjects := level.SpawnObjects) == level
    ensures |r.SpawnObjects| == |level.SpawnObjects| + 1
    ensures r.SpawnObjects[..|level.SpawnObjects|] == level.SpawnObjects
    ensures r.SpawnObjects[|level.SpawnObjects|].Tag == tag
    ensures r.SpawnObjects[|level.SpawnObjects|].NodeIndex == index
    ensures r.SpawnObjects[|level.SpawnObjects|].CustomTransform.eulerAngles.y == angle as real
  {
    level.(SpawnObjects := level.SpawnObjects + [SpawnObject(tag, index, PlacementTransform(angle))])
  }

  /** handleStartSelect: a "Player" spawn facing the chosen angle. */
  function StartSelect(level: Level, index: int, angle: int): Level {
    AddSpawn(level, "Player", index, angle)
  }

  /** handleAddCageKey, handleAddCageReward, handleAddDamageNode: angle 0. */
  function AddCageKey(level: Level, index: int): Level { AddSpawn(level, "Key", index, 0) }
  function AddCageReward(level: Level, index: int): Level { AddSpawn(level, "RewardCage", index, 0) }
  function AddDamageNode(level: Level, index: int): Level { AddSpawn(level, "DamageNode", index, 0) }

  /** handleEndSelect: the end node is a scalar. */
  function EndSelect(level: Level, index: int): (r: Level)
    ensures r.EndNode == index && r.(EndNode := level.EndNode) == level
  {
    level.(EndNode := index)
  }

  /** How many spawn objects carry a tag. */
  function CountTagged(spawns: seq<SpawnObject>, tag: string): nat {
    if |spawns| == 0 then 0
    else CountTagged(spawns[..|spawns| - 1], tag) + (if spawns[|spawns| - 1].Tag == tag then 1 else 0)
  }

  /** Selecting a start is not an upsert: every selection adds one more
      "Player" spawn, and leaves the count of every other tag alone. */
  lemma StartSelectAppendsPlayer(level: Level, index: int, angle: int, other: string)
    requires other != "Player"
    ensures CountTagged(StartSelect(level, index, angle).SpawnObjects, "Player")
            == CountTagged(level.SpawnObjects, "Player") + 1
    ensures CountTagged(StartSelect(level, index, angle).SpawnObjects, other)
            == CountTagged(level.SpawnObjects, other)
  {
    var s := StartSelect(level, index, angle).SpawnObjects;
    assert s[..|s| - 1] == level.SpawnObjects;
  }

  // ---------------------------------------------------------------------------
  // New-path trigger indices.

  /** handleAddNewPathIndexA: `NewPaths[0].IndexA` is read unguarded; a zero
      (falsy) value makes the click do nothing; otherwise IndexA and JointA
      are both set to the cell once the overwrite is confirmed. */
  function SetIndexA(level: Level, index: int, confirmed: bool): Outcome<Level> {
    if |level.NewPaths| == 0 then Thrown
    else if level.NewPaths[0].IndexA == 0 || !confirmed then Done(level)
    else Done(level.(NewPaths := level.NewPaths[0 := level.NewPaths[0].(IndexA := index, JointA := index)]))
  }

  /** handleAddNewPathIndexB: the same for IndexB and JointB. */
  function SetIndexB(level: Level, index: int, confirmed: bool): Outcome<Level> {
    if |level.NewPaths| == 0 then Thrown
    else if level.NewPaths[0].IndexB == 0 || !confirmed then Done(level)
    else Done(level.(NewPaths := level.NewPaths[0 := level.NewPaths[0].(IndexB := index, JointB := index)]))
  }

  /** Trigger A changes only when it is already set and the overwrite is
      confirmed, and then JointA moves with it; B, JointB, the new path's
      nodes, every other new path and the rest of the Level stay. */
  lemma SetIndexAChanges(level: Level, index: int, confirmed: bool)
    ensures SetIndexA(level, index, confirmed).Thrown? <==> |level.NewPaths| == 0
    ensures !SetIndexA(level, index, confirmed).Alerted?
    ensures |level.NewPaths| > 0 && (level.NewPaths[0].IndexA == 0 || !confirmed)
            ==> SetIndexA(level, index, confirmed) == Done(level)
    ensures |level.NewPaths| > 0 && level.NewPaths[0].IndexA != 0 && confirmed ==>
      var r := SetIndexA(level, index, confirmed).value;
      && r.(NewPaths := level.NewPaths) == level && |r.NewPaths| == |level.NewPaths|
      && r.NewPaths[0].IndexA == index && r.NewPaths[0].JointA == index
      && r.NewPaths[0].(IndexA := level.NewPaths[0].IndexA, JointA := level.NewPaths[0].JointA) == level.NewPaths[0]
      && forall k | 1 <= k < |level.NewPaths| :: r.NewPaths[k] == level.NewPaths[k]
  {
  }

  lemma SetIndexBChanges(level: Level, index: int, confirmed: bool)
    ensures SetIndexB(level, index, confirmed).Thrown? <==> |level.NewPaths| == 0
    ensures !SetIndexB(level, index, confirmed).Alerted?
    ensures |level.NewPaths| > 0 && (level.NewPaths[0].IndexB == 0 || !confirmed)
            ==> SetIndexB(level, index, confirmed) == Done(level)
    ensures |level.NewPaths| > 0 && level.NewPaths[0].IndexB != 0 && confirmed ==>
      var r := SetIndexB(level, index, confirmed).value;
      && r.(NewPaths := level.NewPaths) == level && |r.NewPaths| == |level.NewPaths|
      && r.NewPaths[0].IndexB == index && r.NewPaths[0].JointB == index
      && r.NewPaths[0].(IndexB := level.NewPaths[0].IndexB, JointB := level.NewPaths[0].JointB) == level.NewPaths[0]
      && forall k | 1 <= k < |level.NewPaths| :: r.NewPaths[k] == level.NewPaths[k]
  {
  }

  /** A fresh new path (both triggers 0) can never get a trigger from the
      editor: the click is a no-op whatever the confirmation. */
  lemma UnsetTriggerStaysUnset(level: Level, index: int, confirmed: bool)
    requires |level.NewPaths| > 0 && level.NewPaths[0].IndexA == 0 && level.NewPaths[0].IndexB == 0
    ensures SetIndexA(level, index, confirmed) == Done(level)
    ensures SetIndexB(level, index, confirmed) == Done(level)
  {
  }

  // ---------------------------------------------------------------------------
  // The single trap.

  const ONE_TRAP_ALERT := "A trap object already exists. Only one trap is allowed."
  const NO_TRAP_ALERT := "No trap object found, add trap first"
  const INCOMPLETE_TRAP_ALERT := "Complete adding trap"

  /** handleAddTrapObject: a turret trap whose trigger is the `{}` placeholder,
      only when there is no trap yet. */
  function AddTrapObject(level: Level, index: int, direction: int): Outcome<Level> {
    if |level.Traps| > 0 then Alerted(ONE_TRAP_ALERT)
    else
      var turret := SpawnObject("Turret", index, PlacementTransform(direction));
      Done(level.(Traps := level.Traps + [Trap(Placed(turret), EmptyObject, Turret, false)]))
  }

  /** handleAddTrapTrigger: the trigger of Traps[0], written over whatever was
      there, only when a trap exists. */
  function AddTrapTrigger(level: Level, index: int, direction: int): Outcome<Level> {
    if |level.Traps| == 0 then Alerted(NO_TRAP_ALERT)
    else
      var trigger := SpawnObject("TurretTrigger", index, PlacementTransform(direction));
      Done(level.(Traps := level.Traps[0 := level.Traps[0].(TrapTrigger := Placed(trigger))]))
  }

  /** A trap object is added only to a level with no trap, which then has
      exactly one: a turret on the cell with the placeholder trigger. Nothing
      else in the Level changes, and an alert leaves the Level as it was. */
  lemma AddTrapObjectOnlyFirst(level: Level, index: int, direction: int)
    ensures AddTrapObject(level, index, direction).Alerted? <==> |level.Traps| > 0
    ensures AddTrapObject(level, index, direction).Done? ==>
      var r := AddTrapObject(level, index, direction).value;
      && r.(Traps := level.Traps) == level && |r.Traps| == 1
      && r.Traps[0].TrapObject.Placed? && r.Traps[0].TrapObject.obj.NodeIndex == index
      && r.Traps[0].TrapObject.obj.Tag == "Turret"
      && r.Traps[0].TrapTrigger == EmptyObject && r.Traps[0].TrapType == Turret
  {
  }

  /** The trigger goes to Traps[0] and nowhere else, only when a trap exists. */
  lemma AddTrapTriggerFirstTrap(level: Level, index: int, direction: int)
    ensures AddTrapTrigger(level, index, direction).Alerted? <==> |level.Traps| == 0
    ensures AddTrapTrigger(level, index, direction).Done? ==>
      var r := AddTrapTrigger(level, index, direction).value;
      && r.(Traps := level.Traps) == level && |r.Traps| == |level.Traps|
      && r.Traps[0].TrapTrigger == Placed(SpawnObject("TurretTrigger", index, PlacementTransform(direction)))
      && r.Traps[0].(TrapTrigger := level.Traps[0].TrapTrigger) == level.Traps[0]
      && forall k | 1 <= k < |level.Traps| :: r.Traps[k] == level.Traps[k]
  {
  }

  /** Whatever the editor does, a level never holds more than one trap. */
  lemma AtMostOneTrap(level: Level, index: int, direction: int)
    requires |level.Traps| <= 1
    ensures var o := AddTrapObject(level, index, direction); o.Done? ==> |o.value.Traps| <= 1
    ensures var o := AddTrapTrigger(level, index, direction); o.Done? ==> |o.value.Traps| <= 1
  {
  }

  /** The trap test of onAddTrap: a missing (null) object or trigger. The `{}`
      placeholder is truthy and so counts as present. */
  predicate IsIncomplete(t: Trap) {
    !IsPresent(t.TrapObject) || !IsPresent(t.TrapTrigger)
  }

  function FirstIncomplete(traps: seq<Trap>): (k: int)
    ensures -1 <= k < |traps|
    ensures k >= 0 ==> IsIncomplete(traps[k])
    ensures k == -1 <==> forall j | 0 <= j < |traps| :: !IsIncomplete(traps[j])
  {
    if |traps| == 0 then -1
    else if IsIncomplete(traps[|traps| - 1]) && FirstIncomplete(traps[..|traps| - 1]) == -1
    then |traps| - 1
    else
      var k := FirstIncomplete(traps[..|traps| - 1]);
      assert k == -1 ==> forall j | 0 <= j < |traps| - 1 :: !IsIncomplete(traps[j]);
      k
  }

  /** onAddTrap: the new trap mode and the alert it raises, if any. */
  function ToggleTrapMode(isAddingTrap: bool, level: Option<Level>): (bool, Option<string>) {
    if !isAddingTrap then (true, None)
    else if level.None? || |level.value.Traps| == 0 then (false, None)
    else if FirstIncomplete(level.value.Traps) == -1 then (false, None)
    else (true, Some(INCOMPLETE_TRAP_ALERT))
  }

  /** The toggle always enters authoring; it leaves authoring exactly when no
      trap has a missing object or trigger, and alerts exactly when it stays. */
  lemma ToggleTrapModeMeaning(isAddingTrap: bool, level: Option<Level>)
    ensures !isAddingTrap ==> ToggleTrapMode(isAddingTrap, level) == (true, None)
    ensures isAddingTrap ==>
      (ToggleTrapMode(isAddingTrap, level).0 <==>
        level.Some? && exists k | 0 <= k < |level.value.Traps| :: IsIncomplete(level.value.Traps[k]))
    ensures ToggleTrapMode(isAddingTrap, level).1.Some? <==>
      isAddingTrap && ToggleTrapMode(isAddingTrap, level).0
  {
  }

  /** Right after a turret is placed, its trigger is still the placeholder,
      yet toggling leaves authoring without an alert. */
  lemma PlaceholderCountsAsPresent(level: Level, index: int, direction: int)
    requires |level.Traps| == 0
    ensures AddTrapObject(level, index, direction).Done?
    ensures ToggleTrapMode(true, Some(AddTrapObject(level, index, direction).value)) == (false, None)
  {
    var r := AddTrapObject(level, index, direction).value;
    assert !IsIncomplete(r.Traps[0]);
  }

  // ---------------------------------------------------------------------------
  // Reset.

  /** handleReset: a fresh level under the current tag ("" with no level). */
  function ResetLevel(current: Option<Level>): (r: Level)
    ensures current.Some? ==> r.LevelTag == current.value.LevelTag
    ensures current.None? ==> r.LevelTag == ""
    ensures r.SubNodes == [] && r.NewPaths == [] && r.Traps == [] && r.Enemies == [] && r.SpawnObjects == []
  {
    ResetLevelData(if current.Some? then current.value.LevelTag else "")
  }
}
