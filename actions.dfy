/** The action parser: raw discrete actions clamped into a PlaceAction. */
module Actions {
  import opened Config
  import Mathf

  /** ActionParser's own clamp: an empty range collapses onto `min`. */
  function Clamp(v: int, min: int, max: int): (r: int)
    ensures max < min ==> r == min
    ensures min <= max ==> min <= r <= max
    ensures min <= v <= max ==> r == v
    ensures min <= max && v < min ==> r == min
    ensures min <= max && v > max ==> r == max
  {
    if max < min then min
    else if v < min then min
    else if v > max then max
    else v
  }

  /** Entry k of the raw actions, or `default` when the vector is shorter. */
  function Entry(raw: seq<int>, k: nat, default: int): int
  {
    if |raw| > k then raw[k] else default
  }

  /** `r` is `v` clamped into [0, hi]. */
  predicate ClampedInto(v: int, hi: int, r: int)
  {
    0 <= r <= hi
    && (v < 0 ==> r == 0)
    && (v > hi ==> r == hi)
    && (0 <= v <= hi ==> r == v)
  }

  /**
   * Clamps socket, item and rotation into [0, max(0, count - 1)] and the
   * op into [0, 2]; missing trailing entries read as socket 0, item 0,
   * rotation 0 and op Skip.
   */
  function Parse(raw: seq<int>, socketCount: int, itemCount: int, rotationCount: int): (a: PlaceAction)
    ensures ClampedInto(Entry(raw, 0, 0), Mathf.Max(0, socketCount - 1), a.socketIndex)
    ensures ClampedInto(Entry(raw, 1, 0), Mathf.Max(0, itemCount - 1), a.itemIndex)
    ensures ClampedInto(Entry(raw, 2, 0), Mathf.Max(0, rotationCount - 1), a.rotationIndex)
    ensures |raw| <= 3 ==> a.op == Skip
    ensures |raw| > 3 ==> (a.op == Place <==> raw[3] <= 0) && (a.op == Skip <==> raw[3] == 1)
                          && (a.op == End <==> raw[3] >= 2)
    ensures |raw| == 0 ==> a == PlaceAction(0, 0, 0, Skip)
  {
    var s := Entry(raw, 0, 0);
    var i := Entry(raw, 1, 0);
    var r := Entry(raw, 2, 0);
    var o := Entry(raw, 3, 1);
    PlaceAction(Clamp(s, 0, Mathf.Max(0, socketCount - 1)),
                Clamp(i, 0, Mathf.Max(0, itemCount - 1)),
                Clamp(r, 0, Mathf.Max(0, rotationCount - 1)),
                OpOfInt(Clamp(o, 0, 2)))
  }

  function OpToInt(op: PlaceOp): int
  {
    match op
    case Place => 0
    case Skip => 1
    case End => 2
  }

  /** A parsed action indexes a real socket and item whenever there is one. */
  lemma ParsedIndicesInRange(raw: seq<int>, socketCount: int, itemCount: int, rotationCount: int)
    ensures var a := Parse(raw, socketCount, itemCount, rotationCount);
            && (socketCount > 0 ==> 0 <= a.socketIndex < socketCount)
            && (itemCount > 0 ==> 0 <= a.itemIndex < itemCount)
            && (rotationCount > 0 ==> 0 <= a.rotationIndex < rotationCount)
  {
  }

  /** Parsing is idempotent: re-parsing a parsed action gives it back. */
  lemma ParseIdempotent(raw: seq<int>, socketCount: int, itemCount: int, rotationCount: int)
    ensures var a := Parse(raw, socketCount, itemCount, rotationCount);
            Parse([a.socketIndex, a.itemIndex, a.rotationIndex, OpToInt(a.op)], socketCount, itemCount, rotationCount) == a
  {
  }
}
