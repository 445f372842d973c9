/**
 * The placement service: the transactional step that resolves a socket and
 * an item, runs the validator, and changes the room only on success.
 */
module Placement {
  import opened Wrappers
  import opened Config
  import opened Room
  import opened Catalog
  import opened State
  import opened Rules
  import Mathf

  /** The angle of rotation step `k` out of `rotCount`. */
  function StepAngle(k: int, rotCount: int): real
    requires rotCount > 0
  {
    (k as real) * (360.0 / (rotCount as real))
  }

  lemma StepAngleInTurn(k: int, rotCount: int)
    requires 0 <= k < rotCount
    ensures 0.0 <= StepAngle(k, rotCount) < 360.0
    ensures 0 < k ==> 0.0 < StepAngle(k, rotCount)
  {
    var n := rotCount as real;
    var step := 360.0 / n;
    assert step > 0.0;
    assert n * step == 360.0;
    ScaleMonotone(k as real, n - 1.0, step);
    assert (n - 1.0) * step == n * step - step;
  }

  lemma ScaleMonotone(a: real, b: real, c: real)
    requires 0.0 <= a <= b && c > 0.0
    ensures 0.0 <= a * c <= b * c
    ensures 0.0 < a ==> 0.0 < a * c
  {
  }

  /**
   * The local rotation: identity when the item may not turn or there is at
   * most one rotation; otherwise the clamped index times 360/rotCount. A
   * step of 0 degrees is the identity itself, so each rotation has one value.
   */
  function GetLocalRotation(item: Option<DecorItemDefinition>, rotIndex: int, rotCount: int): (q: LocalRotation)
    ensures q == Identity <==> (item.Some? && !item.value.allowRotateY) || rotCount <= 1 || rotIndex <= 0
    ensures q.AboutY? ==> 0.0 < q.degrees < 360.0
    ensures q.AboutY? && rotIndex < rotCount ==> q.degrees == StepAngle(rotIndex, rotCount)
    ensures q.AboutY? && rotIndex >= rotCount ==> q.degrees == StepAngle(rotCount - 1, rotCount)
  {
    if item.Some? && !item.value.allowRotateY then Identity
    else if rotCount <= 1 then Identity
    else
      var k := Mathf.Clamp(rotIndex, 0, rotCount - 1);
      if k == 0 then Identity
      else
        StepAngleInTurn(k, rotCount);
        AboutY(StepAngle(k, rotCount))
  }

  /** Index 5 with four rotations is clamped to the last step, 270 degrees, not wrapped to 90. */
  lemma RotationIsClampedNotWrapped(item: DecorItemDefinition)
    requires item.allowRotateY
    ensures GetLocalRotation(Some(item), 5, 4) == AboutY(270.0)
    ensures GetLocalRotation(Some(item), 5, 4) != AboutY(StepAngle(5 % 4, 4))
  {
    assert StepAngle(3, 4) == 270.0;
    assert StepAngle(1, 4) == 90.0;
  }

  /** The outcome of one placement try. `socketIndex` names the resolved socket. */
  datatype PlacementAttempt = PlacementAttempt(
    success: bool,
    reason: Reason,
    immediatePenalty: real,
    spawned: Option<Handle>,
    item: Option<DecorItemDefinition>,
    socketIndex: Option<int>)

  /** The room after an attempt: unchanged on failure, the placement applied on success. */
  function Committed(s: RoomSnapshot, a: PlacementAttempt): RoomSnapshot
  {
    if a.success && a.item.Some? && a.socketIndex.Some? && 0 <= a.socketIndex.value < |s.sockets|
       && s.sockets[a.socketIndex.value].Some?
    then
      var k := a.socketIndex.value;
      Registered(s.(sockets := s.sockets[k := Some(WithInstance(s.sockets[k].value, a.spawned))],
                    remainingPlacements := Consumed(s.remainingPlacements)),
                 a.item.value)
    else s
  }

  class PlacementService {
    const state: RoomState?
    const catalog: Option<DecorCatalog>
    const validator: Option<CompositePlacementValidator>
    const settings: Option<RoomDecorSettings>

    constructor (state: RoomState?, catalog: Option<DecorCatalog>,
                 validator: Option<CompositePlacementValidator>, settings: Option<RoomDecorSettings>)
      ensures this.state == state && this.catalog == catalog
      ensures this.validator == validator && this.settings == settings
    {
      this.state := state;
      this.catalog := catalog;
      this.validator := validator;
      this.settings := settings;
    }

    /**
     * What TryPlace reports for a room in state `s` (None for a null state)
     * when the spawner would return `spawned`.
     */
    function Outcome(s: Option<RoomSnapshot>, action: PlaceAction, spawned: Option<Handle>): (a: PlacementAttempt)
      ensures a.success ==> a.reason == NoReason && a.immediatePenalty == 0.0 && a.spawned == spawned
      ensures a.success ==> a.item.Some? && a.socketIndex.Some?
      ensures a.success ==> catalog.Some? && a.item == Get(catalog.value, action.itemIndex)
      ensures !a.success ==> a.reason != NoReason && a.spawned.None?
      ensures !a.success ==> a.immediatePenalty == (if a.reason == NoBudget then 0.0 else RulePenalty)
      ensures a.socketIndex.Some? ==> s.Some? && 0 <= a.socketIndex.value < |s.value.sockets|
      ensures a.success ==> s.value.sockets[a.socketIndex.value].Some? && s.value.remainingPlacements > 0
    {
      if s.None? || settings.None? then
        PlacementAttempt(false, MissingDependencies, RulePenalty, None, None, None)
      else if s.value.remainingPlacements <= 0 then
        PlacementAttempt(false, NoBudget, 0.0, None, None, None)
      else if |s.value.sockets| == 0 then
        PlacementAttempt(false, NoSockets, RulePenalty, None, None, None)
      else if catalog.None? || Count(catalog.value) == 0 then
        PlacementAttempt(false, NoItems, RulePenalty, None, None, None)
      else
        var sIdx := Mathf.Clamp(action.socketIndex, 0, |s.value.sockets| - 1);
        var socket := s.value.sockets[sIdx];
        var item := Get(catalog.value, action.itemIndex);
        if socket.None? || item.None? || item.value.prefab.None? then
          PlacementAttempt(false, NullRef, RulePenalty, None, item, Some(sIdx))
        else
          var rot := GetLocalRotation(item, action.rotationIndex, settings.value.rotationCount);
          var prefab := item.value.prefab.value;
          if prefab.bounds.None? then
            PlacementAttempt(false, MissingBounds, RulePenalty, None, item, Some(sIdx))
          else
            var box := Box(socket.value.pose, rot, prefab.bounds.value);
            var rr := if validator.Some? then FirstFailure(validator.value.rules, socket, item, box) else Ok;
            if !rr.ok then
              PlacementAttempt(false, rr.reason, rr.penalty, None, item, Some(sIdx))
            else
              PlacementAttempt(true, NoReason, 0.0, spawned, item, Some(sIdx))
    }

    /**
     * Tries one placement. The result is Outcome of the state before the
     * call, and the state afterwards is Committed of it: nothing changes on
     * a failure.
     */
    method TryPlace(action: PlaceAction, spawned: Option<Handle>) returns (a: PlacementAttempt)
      requires state != null ==> state.Valid()
      modifies if state == null then {} else state.Footprint()
      ensures state != null ==> state.Valid()
      ensures a == Outcome(if state == null then None else Some(old(state.Snap())), action, spawned)
      ensures state != null ==> state.Snap() == Committed(old(state.Snap()), a)
    {
      if state == null || settings.None? {
        return PlacementAttempt(false, MissingDependencies, RulePenalty, None, None, None);
      }
      if state.remainingPlacements <= 0 {
        return PlacementAttempt(false, NoBudget, 0.0, None, None, None);
      }
      if |state.sockets| == 0 {
        return PlacementAttempt(false, NoSockets, RulePenalty, None, None, None);
      }
      if catalog.None? || Count(catalog.value) == 0 {
        return PlacementAttempt(false, NoItems, RulePenalty, None, None, None);
      }
      var sIdx := Mathf.Clamp(action.socketIndex, 0, |state.sockets| - 1);
      var socket := state.sockets[sIdx];
      var item := Get(catalog.value, action.itemIndex);
      if socket == null || item.None? || item.value.prefab.None? {
        return PlacementAttempt(false, NullRef, RulePenalty, None, item, Some(sIdx));
      }
      var localRot := GetLocalRotation(item, action.rotationIndex, settings.value.rotationCount);
      var prefab := item.value.prefab.value;
      if prefab.bounds.None? {
        return PlacementAttempt(false, MissingBounds, RulePenalty, None, item, Some(sIdx));
      }
      var box := Box(socket.pose, localRot, prefab.bounds.value);
      var rr := Ok;
      if validator.Some? {
        rr := validator.value.Validate(Some(socket.View()), item, box);
      }
      if !rr.ok {
        return PlacementAttempt(false, rr.reason, rr.penalty, None, item, Some(sIdx));
      }
      Apply(state, sIdx, item.value, spawned);
      a := PlacementAttempt(true, NoReason, 0.0, spawned, item, Some(sIdx));
    }
  }

  /**
   * The success branch of TryPlace: the socket takes the spawned handle, the
   * budget is consumed and the placement is registered.
   */
  method Apply(state: RoomState, sIdx: int, item: DecorItemDefinition, spawned: Option<Handle>)
    requires state.Valid() && 0 <= sIdx < |state.sockets| && state.sockets[sIdx] != null
    modifies state.Footprint()
    ensures state.Valid()
    ensures state.Snap() == Committed(old(state.Snap()), PlacementAttempt(true, NoReason, 0.0, spawned, Some(item), Some(sIdx)))
  {
    var socket := state.sockets[sIdx];
    ghost var before := state.Snap();
    socket.SetOccupied(spawned);
    assert Views(state.sockets) == before.sockets[sIdx := Some(WithInstance(before.sockets[sIdx].value, spawned))] by {
      forall j | 0 <= j < |state.sockets| && j != sIdx
        ensures state.sockets[j] != socket
      {
        if j < sIdx { assert state.sockets[j] != null ==> state.sockets[j] != state.sockets[sIdx]; }
      }
    }
    state.ConsumePlacement();
    state.RegisterPlacement(Some(item));
  }

  /** A room changes exactly when the attempt succeeds. */
  lemma {:induction false} ChangesIffSuccess(p: PlacementService, s: RoomSnapshot, action: PlaceAction,
                                             spawned: Option<Handle>)
    ensures var a := p.Outcome(Some(s), action, spawned);
            Committed(s, a) == s <==> !a.success
  {
    var a := p.Outcome(Some(s), action, spawned);
    if a.success {
      assert Committed(s, a).remainingPlacements == s.remainingPlacements - 1;
    }
  }

  /**
   * On success exactly these change: the resolved socket takes the spawned
   * handle, the budget drops by one (staying non-negative), and the item's
   * and its category's counts each rise by one.
   */
  lemma SuccessEffects(p: PlacementService, s: RoomSnapshot, action: PlaceAction, spawned: Option<Handle>)
    requires p.Outcome(Some(s), action, spawned).success
    ensures var a := p.Outcome(Some(s), action, spawned);
            var t := Committed(s, a);
            var k := a.socketIndex.value;
            var item := a.item.value;
            && k == Mathf.Clamp(action.socketIndex, 0, |s.sockets| - 1)
            && p.catalog.Some? && a.item == Get(p.catalog.value, action.itemIndex)
            && |t.sockets| == |s.sockets|
            && t.sockets[k] == Some(WithInstance(s.sockets[k].value, spawned))
            && (forall j :: 0 <= j < |s.sockets| && j != k ==> t.sockets[j] == s.sockets[j])
            && t.remainingPlacements == s.remainingPlacements - 1 >= 0
            && CountOf(t.itemCounts, item.itemId) == CountOf(s.itemCounts, item.itemId) + 1
            && (forall id :: id in s.itemCounts && id != item.itemId ==> t.itemCounts[id] == s.itemCounts[id])
            && CountOf(t.categoryCounts, item.category) == CountOf(s.categoryCounts, item.category) + 1
            && (forall c :: c in s.categoryCounts && c != item.category ==> t.categoryCounts[c] == s.categoryCounts[c])
            && t.maxPlacements == s.maxPlacements && t.failStreak == s.failStreak
  {
  }

  /**
   * The preconditions are checked in order: missing dependencies, then the
   * budget (with no penalty), then the socket list, then the catalog.
   */
  lemma PreconditionOrder(p: PlacementService, s: Option<RoomSnapshot>, action: PlaceAction, spawned: Option<Handle>)
    ensures var a := p.Outcome(s, action, spawned);
      && (s.None? || p.settings.None? ==> a.reason == MissingDependencies && a.immediatePenalty == RulePenalty)
      && (s.Some? && p.settings.Some? && s.value.remainingPlacements <= 0 ==>
            a.reason == NoBudget && a.immediatePenalty == 0.0)
      && (s.Some? && p.settings.Some? && s.value.remainingPlacements > 0 && |s.value.sockets| == 0 ==>
            a.reason == NoSockets)
      && ((s.Some? && p.settings.Some? && s.value.remainingPlacements > 0 && |s.value.sockets| > 0
           && (p.catalog.None? || Count(p.catalog.value) == 0)) ==> a.reason == NoItems)
  {
  }

  /**
   * A committed attempt keeps the room's invariants, and the budget pays for
   * every new id and category. Outcome only succeeds with budget left.
   */
  lemma CommittedKeepsInvariants(s: RoomSnapshot, a: PlacementAttempt)
    requires SnapshotValid(s) && Accounted(s)
    requires a.success ==> s.remainingPlacements > 0
    ensures SnapshotValid(Committed(s, a)) && Accounted(Committed(s, a))
    ensures Committed(s, a).maxPlacements == s.maxPlacements
  {
    var t := Committed(s, a);
    if t != s {
      BumpSize(s.itemCounts, a.item.value.itemId);
      BumpSize(s.categoryCounts, a.item.value.category);
      assert t.remainingPlacements == s.remainingPlacements - 1;
    }
  }

  lemma BumpSize<K>(m: map<K, int>, k: K)
    ensures |Bump(m, k)| <= |m| + 1
  {
    var r := Bump(m, k);
    if k in m {
      assert r.Keys == m.Keys;
    } else {
      assert r.Keys == m.Keys + {k};
      assert |r.Keys| == |m.Keys| + 1;
    }
  }
}
