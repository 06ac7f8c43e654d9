/**
 * The editor's other constants: the empty-level factory, the four facing
 * angles offered by the enemy modal, and the cell abbreviations.
 */
module Constants {
  import opened EditorTypes

  /** resetLevelData: a Level with the given tag, every collection empty,
      EndNode 0, no restriction applied, and the default bounds. */
  function ResetLevelData(levelTag: string): (l: Level)
    ensures l.LevelTag == levelTag
    ensures l.SubNodes == [] && l.NewPaths == [] && l.Traps == [] && l.Enemies == []
    ensures l.SpawnObjects == [] && l.Props == [] && l.TriggerTraps == [] && l.Portals == []
    ensures l.Objectives == []
    ensures l.EndNode == 0
    ensures NotApplied(l.Restrictons.Time) && NotApplied(l.Restrictons.Moves)
    ensures NotApplied(l.Restrictons.EnemyKills)
  {
    Level(
      LevelTag := levelTag,
      NodesPosition := ZERO,
      EndGateTransform := Transform(ZERO, ZERO),
      Props := [],
      SubNodes := [],
      EndNode := 0,
      SpawnObjects := [],
      Traps := [],
      TriggerTraps := [],
      Enemies := [],
      Portals := [],
      NewPaths := [],
      Objectives := [],
      Restrictons := Restrictions(-1, -1, -1),
      Bounds := Bounds(Vec2(-10.0, 10.0), Vec2(10.0, 14.5)))
  }

  /** Two reset levels differ only in their tag. */
  lemma ResetDependsOnlyOnTag(a: string, b: string)
    ensures ResetLevelData(a) == ResetLevelData(b).(LevelTag := a)
  {
  }

  // ---------------------------------------------------------------------------

  datatype Facing = FacingRight | FacingLeft | FacingTop | FacingBottom

  /** EULER_ANGLES_Y. */
  function EulerAngleY(f: Facing): int {
    match f
    case FacingRight => 180
    case FacingLeft => 0
    case FacingTop => 90
    case FacingBottom => -90
  }

  /** The four facings get four distinct angles, so an angle names one facing. */
  lemma EulerAnglesDistinct(f: Facing, g: Facing)
    ensures EulerAngleY(f) == EulerAngleY(g) <==> f == g
  {
  }

  // ---------------------------------------------------------------------------

  /** The categories a grid cell can be shown as (Block's blockType). */
  datatype BlockType =
    | Start | End | EnemyStatic | EnemyRotating | EnemyMoving | EnemyStrongMoving
    | Key | RewardCage | DamageNode | NewPathCell | NewPathIndexA | NewPathIndexB
    | TrapCell | Trigger | Selected | NoType

  /** The blockType string Block stores. */
  function BlockTypeName(b: BlockType): string {
    match b
    case Start => "start"
    case End => "end"
    case EnemyStatic => "enemyStatic"
    case EnemyRotating => "enemyRotating"
    case EnemyMoving => "enemyMoving"
    case EnemyStrongMoving => "enemyStrongMoving"
    case Key => "key"
    case RewardCage => "rewardCage"
    case DamageNode => "damageNode"
    case NewPathCell => "newPath"
    case NewPathIndexA => "newPathIndexA"
    case NewPathIndexB => "newPathIndexB"
    case TrapCell => "trap"
    case Trigger => "trigger"
    case Selected => "selected"
    case NoType => "none"
  }

  /** aabr: the label shown on a cell of each category. */
  const AABR: map<string, string> := map[
    "start" := "S",
    "end" := "E",
    "enemyStatic" := "ES",
    "enemyRotating" := "ER",
    "enemyMoving" := "EM",
    "enemyStrongMoving" := "EMS",
    "trap" := "T",
    "trigger" := "TR",
    "laser" := "L",
    "none" := "",
    "selected" := "X",
    "key" := "K",
    "rewardCage" := "RC",
    "damageNode" := "DN",
    "newPath" := "NP",
    "newPathIndexA" := "NPA",
    "newPathIndexB" := "NPB"
  ]

  /** Every category Block can produce has a label, so `aabr[blockType]` is
      never undefined; only "none" has the empty label. */
  lemma AabrCoversBlockTypes(b: BlockType)
    ensures BlockTypeName(b) in AABR
    ensures AABR[BlockTypeName(b)] == "" <==> b == NoType
  {
  }
}
