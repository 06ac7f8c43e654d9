/**
 * The records of the level editor's JSON document: a Region holds Nodes, a
 * Node holds Levels, and a Level owns the path graphs and the placed objects.
 * Every record is a value; the editor replaces a whole Level on each edit.
 *
 * JavaScript numbers that are node indices, directions or angles are `int`;
 * transform coordinates and bounds are `real` and are only passed through.
 */
module EditorTypes {

  datatype Option<+T> = None | Some(value: T)

  /** What a handler does to the current Level: return the new (or the same)
      Level, refuse with an alert (the Level stays as it was), or throw a
      TypeError. */
  datatype Outcome<+T> = Done(value: T) | Alerted(message: string) | Thrown

  // ---------------------------------------------------------------------------
  // Directions: 0..3 clockwise from Up.

  const UP := 0
  const RIGHT := 1
  const DOWN := 2
  const LEFT := 3

  predicate IsDirection(d: int) { 0 <= d < 4 }

  /** The direction pointing back: (d + 2) mod 4. */
  function Opposite(d: int): (o: int)
    requires IsDirection(d)
    ensures IsDirection(o) && o != d
    ensures (o + 2) % 4 == d
  {
    (d + 2) % 4
  }

  // ---------------------------------------------------------------------------
  // Transforms (passed through unchanged, except eulerAngles.y).

  datatype Vec3 = Vec3(x: real, y: real, z: real)
  datatype Vec2 = Vec2(x: real, y: real)
  datatype TransformWithScale = TransformWithScale(position: Vec3, eulerAngles: Vec3, localScale: Vec3)
  datatype Transform = Transform(position: Vec3, eulerAngles: Vec3)

  const ZERO := Vec3(0.0, 0.0, 0.0)

  /** The transform every placement writes: all zero except eulerAngles.y. */
  function PlacementTransform(angleY: int): (t: TransformWithScale)
    ensures t.eulerAngles.y == angleY as real
    ensures t.position == ZERO && t.localScale == ZERO
    ensures t.eulerAngles.x == 0.0 && t.eulerAngles.z == 0.0
  {
    TransformWithScale(ZERO, Vec3(0.0, angleY as real, 0.0), ZERO)
  }

  // ---------------------------------------------------------------------------
  // Placed objects.

  /** SpawnObject; TrapObject and TrapTrigger have the same three fields. */
  datatype SpawnObject = SpawnObject(Tag: string, NodeIndex: int, CustomTransform: TransformWithScale)

  /** Enemy.Type is declared as four names, but at run time it is whatever
      string the enemy modal passed on, so it is kept as a string. */
  datatype Enemy = Enemy(Object: SpawnObject, Type: string, Spawnable: bool, RotateAntiClockwise: bool)

  predicate IsDeclaredEnemyType(t: string) {
    t == "Static" || t == "Rotating" || t == "Moving" || t == "StrongMoving"
  }

  /** A trap's object or trigger: absent (null in loaded JSON), the `{}`
      placeholder written before the trigger is placed, or a real object. */
  datatype ObjectSlot = Missing | EmptyObject | Placed(obj: SpawnObject)

  /** JavaScript truthiness of the slot: `{}` is truthy. */
  predicate IsPresent(s: ObjectSlot) { !s.Missing? }

  /** The slot's NodeIndex as `===` sees it: `{}` has none. */
  predicate SlotAt(s: ObjectSlot, index: int) { s.Placed? && s.obj.NodeIndex == index }

  datatype TrapType = Wall | Turret

  datatype Trap = Trap(TrapObject: ObjectSlot, TrapTrigger: ObjectSlot, TrapType: TrapType, CamPan: bool)

  /** The EnemyData the enemy modal submits. */
  datatype EnemyData = EnemyData(enemyType: string, spawnable: bool, rotateAntiClockwise: bool, direction: int)

  // ---------------------------------------------------------------------------
  // Path graphs.

  /** One active grid cell. Paths: directions with an open connection.
      NeighbourNodes[d]: an active neighbour in d that is not connected.
      JumpNodes[d]: the neighbour in d is connected (recomputed on save). */
  datatype SubNode = SubNode(Index: int, Paths: seq<int>, NeighbourNodes: seq<bool>, JumpNodes: seq<bool>)

  const NO_FLAGS: seq<bool> := [false, false, false, false]

  /** The secondary graph, unlocked by the two trigger indices. */
  datatype NewPath = NewPath(IndexA: int, IndexB: int, JointA: int, JointB: int, NodesToUnlock: seq<SubNode>)

  // ---------------------------------------------------------------------------
  // Level, Node, Region.

  /** Each limit is -1 when it is not applied. */
  datatype Restrictions = Restrictions(Time: int, Moves: int, EnemyKills: int)

  predicate NotApplied(limit: int) { limit == -1 }

  datatype Bounds = Bounds(BoundsX: Vec2, BoundsY: Vec2)
  datatype Prop = Prop(propTag: string, activeProps: seq<int>)
  datatype Objective = Objective(Type: string, Objective: string, TargetAmount: int)

  /** An entry of an untyped array (TriggerTraps, Portals), kept as its JSON text. */
  datatype Unmodelled = Unmodelled(json: string)

  datatype Level = Level(
    LevelTag: string,
    NodesPosition: Vec3,
    EndGateTransform: Transform,
    Props: seq<Prop>,
    SubNodes: seq<SubNode>,
    EndNode: int,
    SpawnObjects: seq<SpawnObject>,
    Traps: seq<Trap>,
    TriggerTraps: seq<Unmodelled>,
    Enemies: seq<Enemy>,
    Portals: seq<Unmodelled>,
    NewPaths: seq<NewPath>,
    Objectives: seq<Objective>,
    Restrictons: Restrictions,
    Bounds: Bounds)

  /** A Node. NodeId is written by the node-adding page and may be absent. */
  datatype Node = Node(NodeTag: string, NodeId: Option<int>, Levels: seq<Level>)

  datatype RegionName = GrassLand | LavaLand | IceLand | StormyLand

  /** The JSON string of a region name. */
  function RegionNameText(n: RegionName): (s: string)
    ensures s != ""
  {
    match n
    case GrassLand => "GrassLand"
    case LavaLand => "LavaLand"
    case IceLand => "IceLand"
    case StormyLand => "StormyLand"
  }

  /** The JSON field "Region" is `Name` here. */
  datatype Region = Region(Name: RegionName, Nodes: seq<Node>)

  /** The four region names are distinct strings, so a name selects one region kind. */
  lemma RegionNamesDistinct(a: RegionName, b: RegionName)
    ensures RegionNameText(a) == RegionNameText(b) <==> a == b
  {
  }
}
