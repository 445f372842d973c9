/** The episode reset: every socket is cleared and the room state restarted. */
module Reset {
  import opened Wrappers
  import opened Config
  import opened Room
  import opened State

  function ClearedView(v: Option<SocketView>): Option<SocketView>
  {
    if v.None? then None else Some(Cleared(v.value))
  }

  /** The room as a reset leaves it. */
  function ResetSnapshot(s: RoomSnapshot): RoomSnapshot
  {
    RoomSnapshot(seq(|s.sockets|, i requires 0 <= i < |s.sockets| => ClearedView(s.sockets[i])),
                 map[], map[], s.maxPlacements, s.maxPlacements, 0)
  }

  /**
   * After a reset every socket present is unoccupied and holds no instance,
   * keeping its type, corridor flag and pose; the budget is full, the streak
   * zero and both count maps empty; the invariants hold.
   */
  lemma ResetEmptiesRoom(s: RoomSnapshot)
    ensures var t := ResetSnapshot(s);
      && |t.sockets| == |s.sockets|
      && (forall i :: 0 <= i < |s.sockets| ==> (t.sockets[i].Some? <==> s.sockets[i].Some?))
      && (forall i :: 0 <= i < |s.sockets| && s.sockets[i].Some? ==>
            !t.sockets[i].value.occupied && t.sockets[i].value.currentInstance.None?
            && t.sockets[i].value.socketType == s.sockets[i].value.socketType
            && t.sockets[i].value.isCorridorCritical == s.sockets[i].value.isCorridorCritical
            && t.sockets[i].value.pose == s.sockets[i].value.pose)
      && t.remainingPlacements == t.maxPlacements == s.maxPlacements && t.failStreak == 0
      && t.itemCounts == map[] && t.categoryCounts == map[]
      && SnapshotValid(t) && Accounted(t)
  {
  }

  /** Resetting twice gives the state that resetting once gives. */
  lemma {:induction false} ResetIdempotent(s: RoomSnapshot)
    ensures ResetSnapshot(ResetSnapshot(s)) == ResetSnapshot(s)
  {
    var t := ResetSnapshot(s);
    var u := ResetSnapshot(t);
    assert u.sockets == t.sockets by {
      forall i | 0 <= i < |t.sockets| ensures u.sockets[i] == t.sockets[i] {
        if s.sockets[i].Some? { ClearedIdempotent(s.sockets[i].value); }
      }
    }
  }

  class RoomResetService {
    const state: RoomState?

    constructor (state: RoomState?)
      ensures this.state == state
    {
      this.state := state;
    }

    /** Clears every non-null socket, then resets the room state's counters. */
    method ResetEpisode()
      requires state != null ==> state.Valid()
      modifies if state == null then {} else state.Footprint()
      ensures state != null ==> state.Valid() && state.Snap() == ResetSnapshot(old(state.Snap()))
    {
      if state == null {
        return;
      }
      var sockets := state.sockets;
      var i := 0;
      while i < |sockets|
        invariant 0 <= i <= |sockets|
        invariant state.Valid() && unchanged(state)
        invariant forall j :: 0 <= j < i ==> ViewOf(sockets[j]) == ClearedView(old(ViewOf(sockets[j])))
        invariant forall j :: i <= j < |sockets| ==> ViewOf(sockets[j]) == old(ViewOf(sockets[j]))
      {
        if sockets[i] != null {
          sockets[i].Clear();
          assert forall j :: 0 <= j < |sockets| && j != i ==> sockets[j] != sockets[i];
        }
        i := i + 1;
      }
      state.ResetEpisode();
    }
  }

  /** A room that was just reset is unchanged by a second reset. */
  method ResetTwice(service: RoomResetService)
    requires service.state != null && service.state.Valid()
    modifies service.state.Footprint()
    ensures service.state.Valid()
    ensures service.state.Snap() == ResetSnapshot(old(service.state.Snap()))
  {
    service.ResetEpisode();
    ghost var once := service.state.Snap();
    service.ResetEpisode();
    ResetIdempotent(old(service.state.Snap()));
    assert service.state.Snap() == once;
  }
}
