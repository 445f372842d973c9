/**
 * The mutable episode state: the socket list (borrowed, fixed), per-item
 * and per-category placement counts, the placement budget and the
 * consecutive-failure counter.
 */
module State {
  import opened Wrappers
  import opened Config
  import opened Room

  /** The value of the whole room state at one moment. */
  datatype RoomSnapshot = RoomSnapshot(
    sockets: seq<Option<SocketView>>,
    itemCounts: map<string, int>,
    categoryCounts: map<DecorCategory, int>,
    maxPlacements: int,
    remainingPlacements: int,
    failStreak: int)

  /** Dictionary lookup with 0 for a missing key (GetItemCount, GetCategoryCount). */
  function CountOf<K>(m: map<K, int>, k: K): int
  {
    if k in m then m[k] else 0
  }

  /** A count map after registering key k: a missing key starts from zero, then its count rises by one. */
  function Bump<K>(m: map<K, int>, k: K): (r: map<K, int>)
    ensures r.Keys == m.Keys + {k}
    ensures CountOf(r, k) == CountOf(m, k) + 1
    ensures forall j :: j in m && j != k ==> r[j] == m[j]
  {
    m[k := CountOf(m, k) + 1]
  }

  /** The budget after ConsumePlacement: it drops by one, never below zero. */
  function Consumed(remaining: int): (r: int)
    ensures remaining > 0 ==> r == remaining - 1 && r >= 0
    ensures remaining <= 0 ==> r == remaining
  {
    if remaining > 0 then remaining - 1 else remaining
  }

  /** The room after RegisterPlacement of a non-null item. */
  function Registered(s: RoomSnapshot, item: DecorItemDefinition): RoomSnapshot
  {
    s.(itemCounts := Bump(s.itemCounts, item.itemId),
       categoryCounts := Bump(s.categoryCounts, item.category))
  }

  /** Every key present in a count map has been counted at least once. */
  ghost predicate CountsPositive<K>(m: map<K, int>)
  {
    forall k :: k in m ==> m[k] >= 1
  }

  /**
   * The budget starts at maxPlacements and only ConsumePlacement lowers it,
   * never below zero; a negative maxPlacements is never lowered.
   */
  ghost predicate BudgetInRange(maxPlacements: int, remaining: int)
  {
    remaining <= maxPlacements
    && (maxPlacements >= 0 ==> remaining >= 0)
    && (maxPlacements < 0 ==> remaining == maxPlacements)
  }

  ghost predicate SnapshotValid(s: RoomSnapshot)
  {
    CountsPositive(s.itemCounts) && CountsPositive(s.categoryCounts)
    && BudgetInRange(s.maxPlacements, s.remainingPlacements)
  }

  /**
   * Distinct ids and distinct categories never outnumber the placements the
   * budget has paid for since the last reset.
   */
  ghost predicate Accounted(s: RoomSnapshot)
  {
    |s.itemCounts| <= s.maxPlacements - s.remainingPlacements
    && |s.categoryCounts| <= s.maxPlacements - s.remainingPlacements
  }

  /** A non-null socket appears at most once in the list. */
  ghost predicate SocketsDistinct(sockets: seq<DecorationSocket?>)
  {
    forall i, j :: 0 <= i < j < |sockets| && sockets[i] != null ==> sockets[i] != sockets[j]
  }

  function ViewOf(s: DecorationSocket?): Option<SocketView>
    reads s
  {
    if s == null then None else Some(s.View())
  }

  function Views(sockets: seq<DecorationSocket?>): (vs: seq<Option<SocketView>>)
    reads sockets
    ensures |vs| == |sockets|
    ensures forall i :: 0 <= i < |sockets| ==> vs[i] == ViewOf(sockets[i])
  {
    seq(|sockets|, i requires 0 <= i < |sockets| reads sockets => ViewOf(sockets[i]))
  }

  function SocketSet(sockets: seq<DecorationSocket?>): (r: set<object>)
    ensures forall i :: 0 <= i < |sockets| && sockets[i] != null ==> sockets[i] in r
  {
    set s: DecorationSocket | s in sockets
  }

  class RoomState {
    const sockets: seq<DecorationSocket?>
    var itemCounts: map<string, int>
    var categoryCounts: map<DecorCategory, int>
    const maxPlacements: int
    var remainingPlacements: int
    var failStreak: int

    ghost predicate Valid()
      reads this
    {
      SocketsDistinct(sockets)
      && CountsPositive(itemCounts) && CountsPositive(categoryCounts)
      && BudgetInRange(maxPlacements, remainingPlacements)
    }

    /** The objects a step may change: this state and its sockets. */
    function Footprint(): set<object>
    {
      {this} + SocketSet(sockets)
    }

    function Snap(): (s: RoomSnapshot)
      reads this, sockets
      ensures Valid() ==> SnapshotValid(s)
    {
      RoomSnapshot(Views(sockets), itemCounts, categoryCounts,
                   maxPlacements, remainingPlacements, failStreak)
    }

    constructor (sockets: seq<DecorationSocket?>, maxPlacements: int)
      requires SocketsDistinct(sockets)
      ensures Valid()
      ensures this.sockets == sockets && this.maxPlacements == maxPlacements
      ensures remainingPlacements == maxPlacements && failStreak == 0
      ensures itemCounts == map[] && categoryCounts == map[]
    {
      this.sockets := sockets;
      this.maxPlacements := maxPlacements;
      remainingPlacements := maxPlacements;
      failStreak := 0;
      itemCounts := map[];
      categoryCounts := map[];
    }

    /** Restores the budget and empties the streak and both count maps. */
    method ResetEpisode()
      requires Valid()
      modifies this
      ensures Valid()
      ensures remainingPlacements == maxPlacements && failStreak == 0
      ensures itemCounts == map[] && categoryCounts == map[]
    {
      remainingPlacements := maxPlacements;
      failStreak := 0;
      itemCounts := map[];
      categoryCounts := map[];
    }

    method ConsumePlacement()
      requires Valid()
      modifies this
      ensures Valid()
      ensures remainingPlacements == Consumed(old(remainingPlacements))
      ensures itemCounts == old(itemCounts) && categoryCounts == old(categoryCounts)
      ensures failStreak == old(failStreak)
    {
      if remainingPlacements > 0 {
        remainingPlacements := remainingPlacements - 1;
      }
    }

    /** Counts one more placement of the item's id and of its category. */
    method RegisterPlacement(item: Option<DecorItemDefinition>)
      requires Valid()
      modifies this
      ensures Valid()
      ensures item.None? ==> itemCounts == old(itemCounts) && categoryCounts == old(categoryCounts)
      ensures item.Some? ==> itemCounts == Bump(old(itemCounts), item.value.itemId)
      ensures item.Some? ==> categoryCounts == Bump(old(categoryCounts), item.value.category)
      ensures remainingPlacements == old(remainingPlacements) && failStreak == old(failStreak)
    {
      if item.None? {
        return;
      }
      var id := item.value.itemId;
      if id !in itemCounts {
        itemCounts := itemCounts[id := 0];
      }
      itemCounts := itemCounts[id := itemCounts[id] + 1];
      var cat := item.value.category;
      if cat !in categoryCounts {
        categoryCounts := categoryCounts[cat := 0];
      }
      categoryCounts := categoryCounts[cat := categoryCounts[cat] + 1];
    }

    function GetItemCount(id: string): (c: int)
      reads this
      ensures c == CountOf(itemCounts, id)
      ensures Valid() ==> c >= 0 && (c == 0 <==> id !in itemCounts)
    {
      if id in itemCounts then itemCounts[id] else 0
    }

    function GetCategoryCount(cat: DecorCategory): (c: int)
      reads this
      ensures c == CountOf(categoryCounts, cat)
      ensures Valid() ==> c >= 0 && (c == 0 <==> cat !in categoryCounts)
    {
      if cat in categoryCounts then categoryCounts[cat] else 0
    }
  }
}
