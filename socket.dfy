/**
 * A decoration socket: a fixed placement slot with a type, a
 * corridor-critical flag and an occupancy state that owns at most one
 * spawned instance.
 */
module Room {
  import opened Wrappers
  import opened Config

  /** The value of a socket's fields at one moment. */
  datatype SocketView = SocketView(
    socketType: SocketType,
    isCorridorCritical: bool,
    occupied: bool,
    currentInstance: Option<Handle>,
    pose: Pose)

  /** The socket after it takes `instance` (which may be null). */
  function WithInstance(v: SocketView, instance: Option<Handle>): SocketView
  {
    v.(occupied := instance.Some?, currentInstance := instance)
  }

  /** The socket after its instance is released. */
  function Cleared(v: SocketView): SocketView
  {
    v.(occupied := false, currentInstance := None)
  }

  /** Clearing twice is clearing once. */
  lemma ClearedIdempotent(v: SocketView)
    ensures Cleared(Cleared(v)) == Cleared(v)
  {
  }

  /** Clearing forgets whatever instance the socket took before. */
  lemma ClearedForgetsInstance(v: SocketView, instance: Option<Handle>)
    ensures Cleared(WithInstance(v, instance)) == Cleared(v)
    ensures !Cleared(v).occupied && Cleared(v).currentInstance.None?
  {
  }

  class DecorationSocket {
    var socketType: SocketType
    var isCorridorCritical: bool
    var occupied: bool
    var currentInstance: Option<Handle>
    const pose: Pose

    constructor (socketType: SocketType, isCorridorCritical: bool, pose: Pose)
      ensures View() == SocketView(socketType, isCorridorCritical, false, None, pose)
    {
      this.socketType := socketType;
      this.isCorridorCritical := isCorridorCritical;
      this.pose := pose;
      occupied := false;
      currentInstance := None;
    }

    function View(): SocketView
      reads this
    {
      SocketView(socketType, isCorridorCritical, occupied, currentInstance, pose)
    }

    /** Takes `instance`; the socket counts as occupied only if it is non-null. */
    method SetOccupied(instance: Option<Handle>)
      modifies this
      ensures occupied <==> instance.Some?
      ensures currentInstance == instance
      ensures socketType == old(socketType) && isCorridorCritical == old(isCorridorCritical)
      ensures View() == WithInstance(old(View()), instance)
    {
      occupied := instance.Some?;
      currentInstance := instance;
    }

    /** Releases the instance (destroying the GameObject is not modelled). */
    method Clear()
      modifies this
      ensures !occupied && currentInstance == None
      ensures socketType == old(socketType) && isCorridorCritical == old(isCorridorCritical)
      ensures View() == Cleared(old(View()))
    {
      if currentInstance.Some? {
        currentInstance := None;
      }
      occupied := false;
    }
  }

  /** Clear called twice leaves the socket as one call does. */
  method ClearTwice(s: DecorationSocket)
    modifies s
    ensures s.View() == Cleared(old(s.View()))
  {
    s.Clear();
    ghost var once := s.View();
    s.Clear();
    assert s.View() == once by { ClearedIdempotent(old(s.View())); }
  }
}
