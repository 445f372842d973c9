/** The item catalog: a possibly null list of possibly null item definitions. */
module Catalog {
  import opened Wrappers
  import opened Config
  import Mathf

  datatype DecorCatalog = DecorCatalog(items: Option<seq<Option<DecorItemDefinition>>>)

  /** The number of entries; a null list counts as empty. */
  function Count(c: DecorCatalog): (n: nat)
    ensures c.items.None? ==> n == 0
    ensures c.items.Some? ==> n == |c.items.value|
  {
    if c.items.None? then 0 else |c.items.value|
  }

  /**
   * The entry at `idx` clamped into [0, Count - 1]; null for a null or empty
   * list. Never reads outside the list.
   */
  function Get(c: DecorCatalog, idx: int): (r: Option<DecorItemDefinition>)
    ensures Count(c) == 0 ==> r.None?
    ensures 0 <= idx < Count(c) ==> r == c.items.value[idx]
    ensures Count(c) > 0 && idx < 0 ==> r == c.items.value[0]
    ensures Count(c) > 0 && idx >= Count(c) ==> r == c.items.value[Count(c) - 1]
  {
    if c.items.None? || |c.items.value| == 0 then None
    else c.items.value[Mathf.Clamp(idx, 0, |c.items.value| - 1)]
  }

  /** Every result of Get is an entry of the list, or null when there is none. */
  lemma GetReturnsAnEntry(c: DecorCatalog, idx: int)
    ensures Count(c) > 0 ==> Get(c, idx) in c.items.value
    ensures Count(c) == 0 ==> Get(c, idx) == None
  {
    if Count(c) > 0 {
      var k := Mathf.Clamp(idx, 0, Count(c) - 1);
      assert Get(c, idx) == c.items.value[k];
    }
  }
}
