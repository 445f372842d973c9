/** The reward-shaping policy: step cost, repeat-item penalty and the end-of-episode diversity bonus. */
module Scoring {
  import opened Wrappers
  import opened Config
  import opened State
  import Mathf

  /** The number of distinct ids at which the diversity bonus saturates. */
  const DiversityScale: real := 10.0

  datatype SimpleScoringPolicy = SimpleScoringPolicy(settings: Option<RoomDecorSettings>)
  {
    /** The cost of every non-end step. */
    function OnStep(): (r: real)
      ensures settings.Some? ==> r == settings.value.stepPenalty
      ensures settings.None? ==> r == 0.0
    {
      if settings.Some? then settings.value.stepPenalty else 0.0
    }

    /**
     * The repeat-item term, read once the placement is registered: the base
     * times the number of earlier placements of the same id.
     */
    function OnPlaced(item: Option<DecorItemDefinition>, state: Option<RoomSnapshot>): (r: real)
      ensures settings.None? || item.None? || state.None? ==> r == 0.0
      ensures settings.Some? && item.Some? && state.Some? ==>
                var prev := CountOf(state.value.itemCounts, item.value.itemId) - 1;
                (prev <= 0 ==> r == 0.0) && (prev > 0 ==> r == settings.value.repeatItemPenaltyBase * (prev as real))
    {
      if settings.None? || item.None? || state.None? then 0.0
      else
        var prev := CountOf(state.value.itemCounts, item.value.itemId) - 1;
        if prev <= 0 then 0.0 else settings.value.repeatItemPenaltyBase * (prev as real)
    }

    /** The diversity bonus: the share of ten distinct ids reached, capped at one, times the maximum. */
    function OnEpisodeEnd(state: Option<RoomSnapshot>): (r: real)
      ensures settings.None? || state.None? ==> r == 0.0
      ensures settings.Some? && state.Some? && |state.value.itemCounts| >= 10 ==>
                r == settings.value.finalDiversityBonusMax
      ensures settings.Some? && state.Some? && |state.value.itemCounts| <= 10 ==>
                r == (|state.value.itemCounts| as real) / DiversityScale * settings.value.finalDiversityBonusMax
      ensures settings.Some? && settings.value.finalDiversityBonusMax >= 0.0 ==>
                0.0 <= r <= settings.value.finalDiversityBonusMax
    {
      if settings.None? || state.None? then 0.0
      else
        var diversity := (|state.value.itemCounts| as real) / DiversityScale;
        var share := Mathf.Clamp01(diversity);
        assert settings.value.finalDiversityBonusMax >= 0.0 ==>
          share * settings.value.finalDiversityBonusMax <= settings.value.finalDiversityBonusMax;
        share * settings.value.finalDiversityBonusMax
    }
  }

  /**
   * Read after RegisterPlacement, the repeat term is the base times the
   * placements of that id made before this one: zero for the first.
   */
  lemma RepeatTermCountsEarlierPlacements(policy: SimpleScoringPolicy, s: RoomSnapshot, item: DecorItemDefinition)
    requires policy.settings.Some? && CountOf(s.itemCounts, item.itemId) >= 0
    ensures policy.OnPlaced(Some(item), Some(Registered(s, item)))
            == policy.settings.value.repeatItemPenaltyBase * (CountOf(s.itemCounts, item.itemId) as real)
    ensures CountOf(s.itemCounts, item.itemId) == 0 ==> policy.OnPlaced(Some(item), Some(Registered(s, item))) == 0.0
  {
    assert CountOf(Registered(s, item).itemCounts, item.itemId) == CountOf(s.itemCounts, item.itemId) + 1;
  }

  /**
   * Three placements of one id in a row are charged 0, base and 2 * base:
   * the penalty grows linearly.
   */
  lemma RepeatTermGrowsLinearly(policy: SimpleScoringPolicy, s: RoomSnapshot, item: DecorItemDefinition)
    requires policy.settings.Some? && item.itemId !in s.itemCounts
    ensures var base := policy.settings.value.repeatItemPenaltyBase;
            var s1 := Registered(s, item);
            var s2 := Registered(s1, item);
            var s3 := Registered(s2, item);
            && policy.OnPlaced(Some(item), Some(s1)) == 0.0
            && policy.OnPlaced(Some(item), Some(s2)) == base
            && policy.OnPlaced(Some(item), Some(s3)) == 2.0 * base
  {
    var s1 := Registered(s, item);
    var s2 := Registered(s1, item);
    RepeatTermCountsEarlierPlacements(policy, s, item);
    RepeatTermCountsEarlierPlacements(policy, s1, item);
    RepeatTermCountsEarlierPlacements(policy, s2, item);
  }

  /**
   * With a non-positive base (a penalty), the more often an id was placed
   * before, the lower the reward its next placement earns.
   */
  lemma RepeatTermMonotone(policy: SimpleScoringPolicy, s: RoomSnapshot, t: RoomSnapshot, item: DecorItemDefinition)
    requires policy.settings.Some? && policy.settings.value.repeatItemPenaltyBase <= 0.0
    requires 0 <= CountOf(s.itemCounts, item.itemId) <= CountOf(t.itemCounts, item.itemId)
    ensures policy.OnPlaced(Some(item), Some(Registered(t, item)))
            <= policy.OnPlaced(Some(item), Some(Registered(s, item))) <= 0.0
  {
    var base := policy.settings.value.repeatItemPenaltyBase;
    var a := CountOf(s.itemCounts, item.itemId) as real;
    var b := CountOf(t.itemCounts, item.itemId) as real;
    RepeatTermCountsEarlierPlacements(policy, s, item);
    RepeatTermCountsEarlierPlacements(policy, t, item);
    assert base * b - base * a == base * (b - a);
    NonPositiveScaling(base, b - a);
    NonPositiveScaling(base, a);
  }

  lemma NonPositiveScaling(x: real, y: real)
    requires x <= 0.0 && y >= 0.0
    ensures x * y <= 0.0
  {
  }
}
