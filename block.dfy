/**
 * One grid cell of the editor: what a click does, given the held key and the
 * trap mode; the category the cell is shown as; and the guard on the enemy
 * modal's submit. The cell keeps the held key, the last clicked index and
 * its category as component state.
 */
module BlockCell {
  import opened EditorTypes
  import opened Topology
  import opened PathGraph
  import opened Constants
  import opened LevelEdits

  // ---------------------------------------------------------------------------
  // Click dispatch.

  /** What a click leads to: a modal opened, a page handler called, the
      trap-mode alert, or nothing for a cell off the main path. */
  datatype ClickAction =
    | OpenTriggerModal | OpenTrapObjectModal | TrapModeRejected
    | CallAddPath | InactiveCell
    | OpenStartModal | CallEndSelect | CallAddCageKey | CallAddCageReward
    | CallAddDamageNode | OpenEnemyModal | CallIndexA | CallIndexB
    | CallAddNewPath | CallNormalClick

  const TRAP_MODE_ALERT := "Complete adding trap using keys t and r"

  /** handleClick: the chain of tests, first match wins. */
  function HandleClick(isAddingTrap: bool, key: string, level: Level, index: int): ClickAction {
    if isAddingTrap && key == "t" then OpenTriggerModal
    else if isAddingTrap && key == "o" then OpenTrapObjectModal
    else if isAddingTrap then TrapModeRejected
    else if key == "x" then CallAddPath
    else if !HasNode(level.SubNodes, index) then InactiveCell
    else if key == "s" then OpenStartModal
    else if key == "e" then CallEndSelect
    else if key == "k" then CallAddCageKey
    else if key == "r" then CallAddCageReward
    else if key == "d" then CallAddDamageNode
    else if key == "a" then OpenEnemyModal
    else if key == "n" then CallIndexA
    else if key == "m" then CallIndexB
    else if key == "p" then CallAddNewPath
    else CallNormalClick
  }

  /** The editor's key legend for cells on the main path, as a table. */
  const KEY_ACTIONS: map<string, ClickAction> := map[
    "s" := OpenStartModal,
    "e" := CallEndSelect,
    "k" := CallAddCageKey,
    "r" := CallAddCageReward,
    "d" := CallAddDamageNode,
    "a" := OpenEnemyModal,
    "n" := CallIndexA,
    "m" := CallIndexB,
    "p" := CallAddNewPath
  ]

  /** In trap mode only 't' and 'o' do anything (they open the trigger and
      the object modal); every other key, 'x' included, gets the alert. */
  lemma TrapModeDispatch(key: string, level: Level, index: int)
    ensures HandleClick(true, key, level, index) == OpenTriggerModal <==> key == "t"
    ensures HandleClick(true, key, level, index) == OpenTrapObjectModal <==> key == "o"
    ensures HandleClick(true, key, level, index) == TrapModeRejected <==> key != "t" && key != "o"
  {
  }

  /** Outside trap mode 'x' adds a path on any cell, on the path or not. */
  lemma AddPathOnAnyCell(level: Level, index: int)
    ensures HandleClick(false, "x", level, index) == CallAddPath
  {
  }

  /** Outside trap mode, every key but 'x' acts only on cells already in
      SubNodes, and then as the key legend says (a normal click for a key
      the legend does not list). */
  lemma KeysActOnPathCells(key: string, level: Level, index: int)
    requires key != "x"
    ensures HandleClick(false, key, level, index) == InactiveCell <==> !HasNode(level.SubNodes, index)
    ensures HasNode(level.SubNodes, index) ==>
      HandleClick(false, key, level, index) == (if key in KEY_ACTIONS then KEY_ACTIONS[key] else CallNormalClick)
  {
  }

  /** A handler that edits a placement or the new path is only reached
      from a cell of the main path, outside trap mode. */
  lemma PlacementsNeedPathCell(isAddingTrap: bool, key: string, level: Level, index: int)
    ensures var a := HandleClick(isAddingTrap, key, level, index);
      a in KEY_ACTIONS.Values || a == CallNormalClick ==> !isAddingTrap && HasNode(level.SubNodes, index)
    ensures HandleClick(isAddingTrap, key, level, index) == CallAddNewPath ==>
      key == "p" && !isAddingTrap && HasNode(level.SubNodes, index)
  {
  }

  /** isDisabled: start and end cells ignore clicks. */
  predicate IsDisabled(b: BlockType) {
    b == Start || b == End
  }

  /** A click on the button: nothing at all on a disabled cell. */
  function Click(blockType: BlockType, isAddingTrap: bool, key: string, level: Level, index: int): (a: Option<ClickAction>)
    ensures a.None? <==> IsDisabled(blockType)
  {
    if IsDisabled(blockType) then None else Some(HandleClick(isAddingTrap, key, level, index))
  }

  // ---------------------------------------------------------------------------
  // The held key.

  /** ASCII lower case, one character. */
  function LowerChar(c: char): char {
    if 'A' <= c <= 'Z' then (c as int - 'A' as int + 'a' as int) as char else c
  }

  /** toLowerCase of the key name, on ASCII letters. */
  function LowerKey(s: string): (r: string)
    ensures |r| == |s|
    ensures forall i | 0 <= i < |s| :: r[i] == LowerChar(s[i])
  {
    if |s| == 0 then [] else [LowerChar(s[0])] + LowerKey(s[1..])
  }

  /** Lower-casing twice is lower-casing once: the stored key is already in
      the form the dispatch compares against. */
  lemma {:induction false} LowerKeyIdempotent(s: string)
    ensures LowerKey(LowerKey(s)) == LowerKey(s)
  {
    if |s| > 0 {
      LowerKeyIdempotent(s[1..]);
      assert LowerKey(s)[1..] == LowerKey(s[1..]);
    }
  }

  // ---------------------------------------------------------------------------
  // Cell classification.

  /** `find` of the first "Player" spawn. */
  function FirstPlayer(spawns: seq<SpawnObject>): (p: Option<nat>)
    ensures p.Some? ==> p.value < |spawns| && spawns[p.value].Tag == "Player"
    ensures p.Some? ==> forall j | 0 <= j < p.value :: spawns[j].Tag != "Player"
    ensures p.None? ==> forall j | 0 <= j < |spawns| :: spawns[j].Tag != "Player"
  {
    if |spawns| == 0 then None
    else if spawns[0].Tag == "Player" then Some(0)
    else match FirstPlayer(spawns[1..])
      case None => None
      case Some(k) => Some(k + 1)
  }

  /** The start cell: where the first "Player" spawn stands. */
  predicate IsStartCell(level: Level, index: int) {
    var p := FirstPlayer(level.SpawnObjects);
    p.Some? && level.SpawnObjects[p.value].NodeIndex == index
  }

  /** The trap slot a test looks at: the object, or the trigger. */
  function SlotOf(t: Trap, trigger: bool): ObjectSlot {
    if trigger then t.TrapTrigger else t.TrapObject
  }

  /** The test reads past the first k slots: each is set and elsewhere. */
  predicate SlotsPassed(traps: seq<Trap>, index: int, trigger: bool, k: int)
    requires 0 <= k <= |traps|
  {
    forall j | 0 <= j < k :: !SlotOf(traps[j], trigger).Missing? && !SlotAt(SlotOf(traps[j], trigger), index)
  }

  /** `Traps.find(trap => trap.<slot>.NodeIndex === index)`: reading
      NodeIndex of a null slot throws; the `{}` placeholder has no NodeIndex
      and so never matches. */
  function TrapSlotFind(traps: seq<Trap>, index: int, trigger: bool): (o: Outcome<bool>)
    ensures !o.Alerted?
    ensures o == Done(true) ==> exists k | 0 <= k < |traps| ::
      SlotAt(SlotOf(traps[k], trigger), index) && SlotsPassed(traps, index, trigger, k)
    ensures o == Done(false) ==> SlotsPassed(traps, index, trigger, |traps|)
    ensures o.Thrown? ==> exists k | 0 <= k < |traps| ::
      SlotOf(traps[k], trigger).Missing? && SlotsPassed(traps, index, trigger, k)
  {
    if |traps| == 0 then Done(false)
    else
      var slot := SlotOf(traps[0], trigger);
      if slot.Missing? then Thrown
      else if SlotAt(slot, index) then Done(true)
      else
        var rest := TrapSlotFind(traps[1..], index, trigger);
        assert forall k | 0 <= k < |traps| - 1 :: traps[1..][k] == traps[k + 1];
        rest
  }

  /** The test stops at the first slot that is null or on the cell: what
      follows it is never read. Past a run of slots that are set and
      elsewhere, the outcome is that of the traps after the run. */
  lemma {:induction false} TrapSlotFindAppend(a: seq<Trap>, b: seq<Trap>, index: int, trigger: bool)
    ensures TrapSlotFind(a, index, trigger) != Done(false) ==>
      TrapSlotFind(a + b, index, trigger) == TrapSlotFind(a, index, trigger)
    ensures TrapSlotFind(a, index, trigger) == Done(false) ==>
      TrapSlotFind(a + b, index, trigger) == TrapSlotFind(b, index, trigger)
  {
    if |a| > 0 {
      assert (a + b)[0] == a[0] && (a + b)[1..] == a[1..] + b;
      TrapSlotFindAppend(a[1..], b, index, trigger);
    } else {
      assert a + b == b;
    }
  }

  /** The enemy switch: the four declared types have a category each; any
      other Type string matches no case and leaves the category as it was. */
  function EnemyCategory(enemyType: string, previous: BlockType): BlockType {
    if enemyType == "Static" then EnemyStatic
    else if enemyType == "Rotating" then EnemyRotating
    else if enemyType == "Moving" then EnemyMoving
    else if enemyType == "StrongMoving" then EnemyStrongMoving
    else previous
  }

  /** The classification effect, from the category the cell had before. */
  function Classify(level: Level, index: int, previous: BlockType): Outcome<BlockType> {
    if IsStartCell(level, index) then Done(Start)
    else if level.EndNode == index then Done(End)
    else
      var k := EnemyAt(level.Enemies, index);
      if k >= 0 then Done(EnemyCategory(level.Enemies[k].Type, previous))
      else match TrapSlotFind(level.Traps, index, false)
        case Thrown => Thrown
        case Alerted(_) => Thrown
        case Done(isTrap) =>
          if isTrap then Done(TrapCell)
          else match TrapSlotFind(level.Traps, index, true)
            case Thrown => Thrown
            case Alerted(_) => Thrown
            case Done(isTrigger) =>
              if isTrigger then Done(Trigger)
              else if HasNode(level.SubNodes, index) then Done(Selected)
              else Done(NoType)
  }

  /** The rank of a category in the chain: start, end, enemy, trap,
      trigger, path cell, nothing; the categories Block never computes
      (key, reward cage, damage node, the new-path ones) come last. */
  function Rank(c: BlockType): nat {
    match c
    case Start => 0
    case End => 1
    case EnemyStatic => 2
    case EnemyRotating => 2
    case EnemyMoving => 2
    case EnemyStrongMoving => 2
    case TrapCell => 3
    case Trigger => 4
    case Selected => 5
    case NoType => 6
    case _ => 7
  }

  /** What each rank of the chain looks for on the cell. */
  predicate RankHolds(level: Level, index: int, r: nat) {
    if r == 0 then IsStartCell(level, index)
    else if r == 1 then level.EndNode == index
    else if r == 2 then EnemyAt(level.Enemies, index) >= 0
    else if r == 3 then exists k | 0 <= k < |level.Traps| :: SlotAt(level.Traps[k].TrapObject, index)
    else if r == 4 then exists k | 0 <= k < |level.Traps| :: SlotAt(level.Traps[k].TrapTrigger, index)
    else if r == 5 then HasNode(level.SubNodes, index)
    else false
  }

  /** The enemy Type each enemy category stands for. */
  function EnemyTypeName(c: BlockType): string {
    match c
    case EnemyStatic => "Static"
    case EnemyRotating => "Rotating"
    case EnemyMoving => "Moving"
    case EnemyStrongMoving => "StrongMoving"
    case _ => ""
  }

  /** The cell shows c: what c's rank looks for is there (for an enemy, of
      c's Type), and for NoType, nothing is. */
  predicate Shows(level: Level, index: int, c: BlockType) {
    && Rank(c) <= 6
    && (Rank(c) <= 5 ==> RankHolds(level, index, Rank(c)))
    && (Rank(c) == 2 ==> level.Enemies[EnemyAt(level.Enemies, index)].Type == EnemyTypeName(c))
  }

  /** The case the enemy switch falls through: an enemy of an undeclared
      Type is the highest-ranked thing on the cell. */
  predicate UndeclaredEnemyOnCell(level: Level, index: int) {
    && !IsStartCell(level, index) && level.EndNode != index
    && EnemyAt(level.Enemies, index) >= 0
    && !IsDeclaredEnemyType(level.Enemies[EnemyAt(level.Enemies, index)].Type)
  }

  /** Unless the switch falls through, the category is what the cell
      shows, and nothing of a higher rank is on the cell: start before end,
      end before an enemy, an enemy before a trap, a trap before a trigger, a
      trigger before a path cell, and "none" only for an empty cell. */
  lemma ClassifyMeaning(level: Level, index: int, previous: BlockType, c: BlockType)
    requires Classify(level, index, previous) == Done(c)
    requires !UndeclaredEnemyOnCell(level, index)
    ensures Shows(level, index, c)
    ensures forall r: nat | r < Rank(c) :: !RankHolds(level, index, r)
  {
    var k := EnemyAt(level.Enemies, index);
    assert k >= 0 ==> level.Enemies[k].Object.NodeIndex == index;
  }

  /** An enemy whose Type is none of the four declared names (the enemy
      modal lets "Laser" through) leaves the cell's category as it was. */
  lemma UndeclaredEnemyKeepsCategory(level: Level, index: int, previous: BlockType)
    requires !IsStartCell(level, index) && level.EndNode != index
    requires EnemyAt(level.Enemies, index) >= 0
    requires !IsDeclaredEnemyType(level.Enemies[EnemyAt(level.Enemies, index)].Type)
    ensures Classify(level, index, previous) == Done(previous)
  {
  }

  /** The classification throws only on a trap with a null slot. */
  lemma ClassifyThrowsOnlyOnMissingSlot(level: Level, index: int, previous: BlockType)
    requires forall k | 0 <= k < |level.Traps| :: IsPresent(level.Traps[k].TrapObject) && IsPresent(level.Traps[k].TrapTrigger)
    ensures Classify(level, index, previous).Done?
  {
  }

  /** On a freshly reset level every grid cell is shown as empty: EndNode 0
      is no cell, and there is nothing else to find. */
  lemma ResetCellsAreEmpty(tag: string, index: int, previous: BlockType)
    requires OnGrid(index)
    ensures Classify(ResetLevelData(tag), index, previous) == Done(NoType)
  {
    OnGridNotZero(index);
  }

  // ---------------------------------------------------------------------------
  // The enemy modal's submit.

  /** handleAddEnemy of the cell: `!clickedIndex` drops the submit when the
      cell was never clicked (or the falsy index 0 was stored). */
  function EnemySubmit(clickedIndex: Option<int>, e: EnemyData): Option<(int, EnemyData)> {
    if clickedIndex.None? || clickedIndex.value == 0 then None else Some((clickedIndex.value, e))
  }

  /** For a clicked grid cell the modal's data reaches the page unchanged,
      with the cell's index; an unclicked cell sends nothing. */
  lemma EnemySubmitForwards(clickedIndex: Option<int>, e: EnemyData)
    requires clickedIndex.Some? ==> OnGrid(clickedIndex.value)
    ensures EnemySubmit(clickedIndex, e).None? <==> clickedIndex.None?
    ensures clickedIndex.Some? ==> EnemySubmit(clickedIndex, e) == Some((clickedIndex.value, e))
  {
    if clickedIndex.Some? {
      OnGridNotZero(clickedIndex.value);
    }
  }

  // ---------------------------------------------------------------------------
  // The cell's component state.

  class BlockComponent {
    const blockIndex: int
    var pressedKey: string
    var clickedIndex: Option<int>
    var blockType: BlockType

    constructor(blockIndex: int)
      ensures this.blockIndex == blockIndex
      ensures pressedKey == "" && clickedIndex == None && blockType == NoType
    {
      this.blockIndex := blockIndex;
      pressedKey := "";
      clickedIndex := None;
      blockType := NoType;
    }

    /** The keydown listener: the key name in lower case. */
    method KeyDown(key: string)
      modifies this
      ensures pressedKey == LowerKey(key)
      ensures clickedIndex == old(clickedIndex) && blockType == old(blockType)
    {
      pressedKey := LowerKey(key);
    }

    /** The keyup listener. */
    method KeyUp()
      modifies this
      ensures pressedKey == ""
      ensures clickedIndex == old(clickedIndex) && blockType == old(blockType)
    {
      pressedKey := "";
    }

    /** A click: ignored by a disabled cell; otherwise the cell is recorded as
        clicked and the held key decides the action. */
    method OnClick(isAddingTrap: bool, level: Level) returns (action: Option<ClickAction>)
      modifies this
      ensures action == Click(old(blockType), isAddingTrap, pressedKey, level, blockIndex)
      ensures clickedIndex == (if IsDisabled(blockType) then old(clickedIndex) else Some(blockIndex))
      ensures pressedKey == old(pressedKey) && blockType == old(blockType)
    {
      if IsDisabled(blockType) {
        return None;
      }
      clickedIndex := Some(blockIndex);
      action := Some(HandleClick(isAddingTrap, pressedKey, level, blockIndex));
    }

    /** The classification effect, re-run when the level changes; a throw
        leaves the category as it was. */
    method Reclassify(level: Level) returns (thrown: bool)
      modifies this
      ensures thrown <==> Classify(level, blockIndex, old(blockType)).Thrown?
      ensures !thrown ==> blockType == Classify(level, blockIndex, old(blockType)).value
      ensures thrown ==> blockType == old(blockType)
      ensures pressedKey == old(pressedKey) && clickedIndex == old(clickedIndex)
    {
      var c := Classify(level, blockIndex, blockType);
      thrown := !c.Done?;
      if c.Done? {
        blockType := c.value;
      }
    }

    /** The enemy modal's submit, forwarded to the page or dropped. */
    method SubmitEnemy(e: EnemyData) returns (call: Option<(int, EnemyData)>)
      ensures call == EnemySubmit(clickedIndex, e)
    {
      call := EnemySubmit(clickedIndex, e);
    }
  }
}
