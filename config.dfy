/**
 * The engine's enumerations, the opaque Unity values it passes around,
 * the placement action, and the two configuration assets
 * (RoomDecorSettings and DecorItemDefinition) as immutable records.
 */
module Config {
  import opened Wrappers

  datatype SocketType = Floor | Wall | Corner | Ceiling

  datatype DecorCategory = Prop | Plant | Light | Furniture

  /** PlaceOp, whose integer values are Place = 0, Skip = 1, End = 2. */
  datatype PlaceOp = Place | Skip | End

  /** The cast (PlaceOp)o for an o already clamped into [0, 2]. */
  function OpOfInt(o: int): (op: PlaceOp)
    requires 0 <= o <= 2
    ensures op == Place <==> o == 0
    ensures op == Skip <==> o == 1
    ensures op == End <==> o == 2
  {
    if o == 0 then Place else if o == 1 then Skip else End
  }

  /** A parsed action: socket, item and rotation indices and the operation. */
  datatype PlaceAction = PlaceAction(socketIndex: int, itemIndex: int, rotationIndex: int, op: PlaceOp)

  /** The world pose of a socket's transform; its geometry is opaque here. */
  datatype Pose = Pose(key: nat)

  /** A GameObject instance returned by the spawner. */
  datatype Handle = Handle(key: nat)

  /** The local center and size found on a prefab, when the lookup succeeds. */
  datatype Bounds = Bounds(key: nat)

  /**
   * A prefab asset. `bounds` is the outcome of the bounds lookup: None when
   * the prefab has neither a PlacementBounds nor a BoxCollider, or when the
   * size found is degenerate.
   */
  datatype Prefab = Prefab(asset: nat, bounds: Option<Bounds>)

  /**
   * The rotation about the up axis that an item is placed with: the
   * identity, or a turn by a non-zero number of degrees.
   */
  datatype LocalRotation = Identity | AboutY(degrees: real)

  /**
   * The world box handed to the overlap query: it is computed from the
   * socket pose, the socket rotation composed with the local rotation, and
   * the prefab's local bounds and scale.
   */
  datatype Box = Box(pose: Pose, rotation: LocalRotation, bounds: Bounds)

  /** A catalog entry (a ScriptableObject asset, read-only at run time). */
  datatype DecorItemDefinition = DecorItemDefinition(
    itemId: string,
    category: DecorCategory,
    prefab: Option<Prefab>,
    allowedSocketTypes: Option<seq<SocketType>>,
    allowRotateY: bool)

  /** The settings asset; float fields are reals. */
  datatype RoomDecorSettings = RoomDecorSettings(
    maxPlacements: int,
    failStreakLimit: int,
    rotationCount: int,
    opCount: int,
    maxSocketsForObs: int,
    maxDoorDistance: real,
    stepPenalty: real,
    successReward: real,
    failPenalty: real,
    rulePenaltyMultiplier: real,
    repeatItemPenaltyBase: real,
    finalDiversityBonusMax: real,
    heuristicRandom: bool)

  /** The values a freshly created settings asset carries. */
  const DefaultSettings: RoomDecorSettings :=
    RoomDecorSettings(10, 20, 4, 3, 32, 12.0, -0.001, 0.10, -0.20, 1.0, -0.02, 0.50, true)

  /** The values a freshly created item asset carries (no prefab yet). */
  const DefaultItem: DecorItemDefinition :=
    DecorItemDefinition("item", Prop, None, Some([Floor]), true)
}
