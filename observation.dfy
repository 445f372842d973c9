/**
 * The observation encoder: six header values, then seven values per socket
 * slot for max(1, maxSocketsForObs) slots, unused or null slots zero-padded;
 * and the vector size the setup tool reports for it.
 */
module Observation {
  import opened Wrappers
  import opened Config
  import opened Room
  import opened Catalog
  import opened State
  import Mathf

  newtype int32 = x: int | -0x8000_0000 <= x < 0x8000_0000

  /** Two's-complement wrap-around of an unchecked C# int operation. */
  function Wrap32(x: int): (r: int32)
    ensures -0x8000_0000 <= x < 0x8000_0000 ==> r as int == x
    ensures (r as int - x) % 0x1_0000_0000 == 0
  {
    var m := x % 0x1_0000_0000;
    if m >= 0x8000_0000 then (m - 0x1_0000_0000) as int32 else m as int32
  }

  const HeaderSize: nat := 6
  const SlotSize: nat := 7

  /** CalcVectorObsSize as the C# code computes it, on 32-bit ints. */
  function CalcVectorObsSizeAsWritten(maxSocketsForObs: int32): (r: int32)
    ensures (r as int - (HeaderSize + Mathf.Max(1, maxSocketsForObs as int) * SlotSize)) % 0x1_0000_0000 == 0
  {
    Wrap32(HeaderSize as int + Wrap32(Mathf.Max(1, maxSocketsForObs as int) * SlotSize as int) as int)
  }

  /** The intended size: the number of values Collect emits. */
  function CalcVectorObsSize(maxSocketsForObs: int): (r: int)
    ensures r >= HeaderSize + SlotSize
    ensures maxSocketsForObs <= 1 ==> r == HeaderSize + SlotSize
    ensures (r - HeaderSize) % SlotSize == 0
  {
    HeaderSize + Mathf.Max(1, maxSocketsForObs) * SlotSize
  }

  /** The intended size never shrinks when more sockets are observed. */
  lemma CalcVectorObsSizeMonotone(n: int, m: int)
    requires n <= m
    ensures CalcVectorObsSize(n) <= CalcVectorObsSize(m)
  {
  }

  /** Up to 306783377 slots the 32-bit computation agrees with the intended size. */
  lemma AsWrittenAgreesBelowOverflow(n: int32)
    requires n <= 306783377
    ensures CalcVectorObsSizeAsWritten(n) as int == CalcVectorObsSize(n as int)
  {
  }

  /** One slot more wraps the 32-bit sum round to a negative size, below the size for one slot. */
  lemma AsWrittenOverflows()
    ensures CalcVectorObsSizeAsWritten(306783378) as int == -2147483644
    ensures CalcVectorObsSizeAsWritten(306783378) < CalcVectorObsSizeAsWritten(1)
    ensures CalcVectorObsSize(306783378) == 2147483652
  {
  }

  function Flag(b: bool): real
  {
    if b then 1.0 else 0.0
  }

  function Zeros(k: nat): (z: seq<real>)
    ensures |z| == k && forall i :: 0 <= i < k ==> z[i] == 0.0
  {
    seq(k, _ => 0.0)
  }

  /** A count as a share of the placement budget: v / max(1, maxPlacements). */
  function BudgetShare(v: int, maxPlacements: int): real
  {
    (v as real) / Mathf.MaxReal(1.0, maxPlacements as real)
  }

  function Header(s: RoomSnapshot, catalog: Option<DecorCatalog>): (h: seq<real>)
    ensures |h| == HeaderSize
  {
    [ BudgetShare(s.remainingPlacements, s.maxPlacements),
      if catalog.Some? then Mathf.Clamp01((Count(catalog.value) as real) / 50.0) else 0.0,
      Mathf.Clamp01(BudgetShare(CountOf(s.categoryCounts, Prop), s.maxPlacements)),
      Mathf.Clamp01(BudgetShare(CountOf(s.categoryCounts, Plant), s.maxPlacements)),
      Mathf.Clamp01(BudgetShare(CountOf(s.categoryCounts, Light), s.maxPlacements)),
      Mathf.Clamp01(BudgetShare(CountOf(s.categoryCounts, Furniture), s.maxPlacements)) ]
  }

  /**
   * The door distance feature before clamping: the distance from the socket
   * to the door over maxDoorDistance, or 0 without a door or a usable maximum.
   */
  function DoorShare(pose: Pose, doorDistance: Option<Pose -> real>, settings: RoomDecorSettings): real
  {
    if doorDistance.Some? && settings.maxDoorDistance > 0.001
    then doorDistance.value(pose) / settings.maxDoorDistance
    else 0.0
  }

  function SocketFeatures(v: SocketView, doorDistance: Option<Pose -> real>, settings: RoomDecorSettings): seq<real>
  {
    [ Flag(v.occupied),
      Flag(v.socketType == Floor), Flag(v.socketType == Wall),
      Flag(v.socketType == Corner), Flag(v.socketType == Ceiling),
      Mathf.Clamp01(DoorShare(v.pose, doorDistance, settings)),
      Flag(v.isCorridorCritical) ]
  }

  /** The seven values of slot i: the socket's features, or zeros if there is none. */
  function SlotFeatures(s: RoomSnapshot, doorDistance: Option<Pose -> real>, settings: RoomDecorSettings, i: nat): (f: seq<real>)
    ensures |f| == SlotSize
  {
    if i < |s.sockets| && s.sockets[i].Some? then SocketFeatures(s.sockets[i].value, doorDistance, settings)
    else Zeros(SlotSize)
  }

  function Slots(s: RoomSnapshot, doorDistance: Option<Pose -> real>, settings: RoomDecorSettings, k: nat): seq<real>
  {
    if k == 0 then [] else Slots(s, doorDistance, settings, k - 1) + SlotFeatures(s, doorDistance, settings, k - 1)
  }

  /** The whole vector, empty when the state or the settings are missing. */
  function ObservationOf(s: Option<RoomSnapshot>, catalog: Option<DecorCatalog>,
                         doorDistance: Option<Pose -> real>, settings: Option<RoomDecorSettings>): seq<real>
  {
    if s.None? || settings.None? then []
    else Header(s.value, catalog)
         + Slots(s.value, doorDistance, settings.value, Mathf.Max(1, settings.value.maxSocketsForObs))
  }

  lemma {:induction false} SlotsLayout(s: RoomSnapshot, doorDistance: Option<Pose -> real>,
                                       settings: RoomDecorSettings, k: nat)
    ensures |Slots(s, doorDistance, settings, k)| == SlotSize * k
    ensures forall i :: 0 <= i < k ==>
      Slots(s, doorDistance, settings, k)[SlotSize * i .. SlotSize * i + SlotSize] == SlotFeatures(s, doorDistance, settings, i)
  {
    if k > 0 {
      SlotsLayout(s, doorDistance, settings, k - 1);
      var prev := Slots(s, doorDistance, settings, k - 1);
      var all := Slots(s, doorDistance, settings, k);
      assert all == prev + SlotFeatures(s, doorDistance, settings, k - 1);
      forall i | 0 <= i < k
        ensures all[SlotSize * i .. SlotSize * i + SlotSize] == SlotFeatures(s, doorDistance, settings, i)
      {
        if i < k - 1 {
          assert all[SlotSize * i .. SlotSize * i + SlotSize] == prev[SlotSize * i .. SlotSize * i + SlotSize];
        } else {
          assert all[SlotSize * i .. SlotSize * i + SlotSize] == all[|prev|..];
        }
      }
    }
  }

  /**
   * The vector has exactly CalcVectorObsSize(maxSocketsForObs) values, and
   * slot i occupies positions 6 + 7i to 6 + 7i + 6.
   */
  lemma ObservationLayout(s: RoomSnapshot, catalog: Option<DecorCatalog>,
                          doorDistance: Option<Pose -> real>, settings: RoomDecorSettings)
    ensures var obs := ObservationOf(Some(s), catalog, doorDistance, Some(settings));
      && |obs| == CalcVectorObsSize(settings.maxSocketsForObs)
      && obs[..HeaderSize] == Header(s, catalog)
      && forall i :: 0 <= i < Mathf.Max(1, settings.maxSocketsForObs) ==>
           obs[HeaderSize + SlotSize * i .. HeaderSize + SlotSize * i + SlotSize] == SlotFeatures(s, doorDistance, settings, i)
  {
    var k := Mathf.Max(1, settings.maxSocketsForObs);
    SlotsLayout(s, doorDistance, settings, k);
    var h := Header(s, catalog);
    var slots := Slots(s, doorDistance, settings, k);
    assert ObservationOf(Some(s), catalog, doorDistance, Some(settings)) == h + slots;
    forall i | 0 <= i < k
      ensures (h + slots)[HeaderSize + SlotSize * i .. HeaderSize + SlotSize * i + SlotSize] == SlotFeatures(s, doorDistance, settings, i)
    {
      SliceAfterHeader(h, slots, SlotSize * i);
    }
    assert (h + slots)[..HeaderSize] == h;
  }

  /** A slice of the slots, read past a header of HeaderSize values. */
  lemma SliceAfterHeader(h: seq<real>, slots: seq<real>, j: nat)
    requires |h| == HeaderSize && j + SlotSize <= |slots|
    ensures (h + slots)[HeaderSize + j .. HeaderSize + j + SlotSize] == slots[j .. j + SlotSize]
  {
  }

  /**
   * A socket slot holds its occupancy flag, a one-hot encoding of its type,
   * a door distance in [0, 1] and its corridor flag; a slot past the end of
   * the list or holding a null socket is all zeros.
   */
  lemma SlotEncoding(s: RoomSnapshot, doorDistance: Option<Pose -> real>, settings: RoomDecorSettings, i: nat)
    ensures var f := SlotFeatures(s, doorDistance, settings, i);
      if i < |s.sockets| && s.sockets[i].Some? then
        var v := s.sockets[i].value;
        && (f[0] == 1.0 <==> v.occupied) && (f[0] == 0.0 <==> !v.occupied)
        && (forall t :: 1 <= t < 5 ==> f[t] == 0.0 || f[t] == 1.0)
        && f[1] + f[2] + f[3] + f[4] == 1.0
        && (f[1] == 1.0 <==> v.socketType == Floor) && (f[2] == 1.0 <==> v.socketType == Wall)
        && (f[3] == 1.0 <==> v.socketType == Corner) && (f[4] == 1.0 <==> v.socketType == Ceiling)
        && 0.0 <= f[5] <= 1.0
        && (f[6] == 1.0 <==> v.isCorridorCritical)
      else f == Zeros(SlotSize)
  {
  }

  class SocketObservationProvider {
    const state: RoomState?
    const catalog: Option<DecorCatalog>
    /** The distance from a socket pose to the door; None when there is no door. */
    const doorDistance: Option<Pose -> real>
    const settings: Option<RoomDecorSettings>

    constructor (state: RoomState?, catalog: Option<DecorCatalog>,
                 doorDistance: Option<Pose -> real>, settings: Option<RoomDecorSettings>)
      ensures this.state == state && this.catalog == catalog
      ensures this.doorDistance == doorDistance && this.settings == settings
    {
      this.state := state;
      this.catalog := catalog;
      this.doorDistance := doorDistance;
      this.settings := settings;
    }

    /** The seven values of slot i, where n is the number of sockets observed. */
    method EmitSlot(i: nat, n: nat) returns (f: seq<real>)
      requires state != null && settings.Some?
      requires n == if |state.sockets| < Mathf.Max(1, settings.value.maxSocketsForObs) then |state.sockets|
                    else Mathf.Max(1, settings.value.maxSocketsForObs)
      requires i < Mathf.Max(1, settings.value.maxSocketsForObs)
      ensures f == SlotFeatures(state.Snap(), doorDistance, settings.value, i)
    {
      var cfg := settings.value;
      if i < n && state.sockets[i] != null {
        var sock := state.sockets[i];
        assert state.Snap().sockets[i] == Some(sock.View());
        var d := 0.0;
        if doorDistance.Some? && cfg.maxDoorDistance > 0.001 {
          d := doorDistance.value(sock.pose) / cfg.maxDoorDistance;
        }
        f := [ if sock.occupied then 1.0 else 0.0,
               if sock.socketType == Floor then 1.0 else 0.0,
               if sock.socketType == Wall then 1.0 else 0.0,
               if sock.socketType == Corner then 1.0 else 0.0,
               if sock.socketType == Ceiling then 1.0 else 0.0,
               Mathf.Clamp01(d),
               if sock.isCorridorCritical then 1.0 else 0.0 ];
        assert f == SocketFeatures(sock.View(), doorDistance, cfg);
      } else {
        f := [];
        var k := 0;
        while k < SlotSize
          invariant 0 <= k <= SlotSize
          invariant f == Zeros(k)
        {
          f := f + [0.0];
          k := k + 1;
        }
      }
    }

    /** The six header values: budget share, catalog share and the four category shares. */
    method EmitHeader() returns (h: seq<real>)
      requires state != null
      ensures h == Header(state.Snap(), catalog)
    {
      h := [ BudgetShare(state.remainingPlacements, state.maxPlacements),
             if catalog.Some? then Mathf.Clamp01((Count(catalog.value) as real) / 50.0) else 0.0,
             Mathf.Clamp01(BudgetShare(state.GetCategoryCount(Prop), state.maxPlacements)),
             Mathf.Clamp01(BudgetShare(state.GetCategoryCount(Plant), state.maxPlacements)),
             Mathf.Clamp01(BudgetShare(state.GetCategoryCount(Light), state.maxPlacements)),
             Mathf.Clamp01(BudgetShare(state.GetCategoryCount(Furniture), state.maxPlacements)) ];
    }

    /** The slot values for max(1, maxSocketsForObs) slots, one socket per slot. */
    method EmitSlots() returns (slots: seq<real>)
      requires state != null && settings.Some?
      ensures slots == Slots(state.Snap(), doorDistance, settings.value, Mathf.Max(1, settings.value.maxSocketsForObs))
    {
      ghost var s := state.Snap();
      var cfg := settings.value;
      var maxSockets := Mathf.Max(1, cfg.maxSocketsForObs);
      var n := if |state.sockets| < maxSockets then |state.sockets| else maxSockets;
      slots := [];
      var i := 0;
      while i < maxSockets
        invariant 0 <= i <= maxSockets
        invariant slots == Slots(s, doorDistance, cfg, i)
      {
        var slot := EmitSlot(i, n);
        assert Slots(s, doorDistance, cfg, i + 1) == slots + slot;
        slots := slots + slot;
        i := i + 1;
      }
    }

    /** Emits the observation vector; nothing when the state or the settings are missing. */
    method Collect() returns (obs: seq<real>)
      ensures obs == ObservationOf(if state == null then None else Some(state.Snap()), catalog, doorDistance, settings)
      ensures state != null && settings.Some? ==> |obs| == CalcVectorObsSize(settings.value.maxSocketsForObs)
    {
      if state == null || settings.None? {
        return [];
      }
      ghost var s := state.Snap();
      var cfg := settings.value;
      obs := EmitHeader();
      var slots := EmitSlots();
      obs := obs + slots;
      ObservationLayout(s, catalog, doorDistance, cfg);
    }
  }
}
