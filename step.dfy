/**
 * The episode controller: one call per agent step turns an action into a
 * reward, a success flag, an end-of-episode flag and a reason.
 */
module Step {
  import opened Wrappers
  import opened Config
  import opened Catalog
  import opened State
  import opened Rules
  import opened Placement
  import opened Scoring

  datatype StepResult = StepResult(success: bool, rewardDelta: real, endEpisode: bool, reason: Reason)

  class RoomDecorStepUseCase {
    const state: RoomState
    const placement: PlacementService
    const scoring: Option<SimpleScoringPolicy>
    const settings: Option<RoomDecorSettings>

    /** As the installer wires it, the use case and its placement service share one room state. */
    constructor (state: RoomState, placement: PlacementService,
                 scoring: Option<SimpleScoringPolicy>, settings: Option<RoomDecorSettings>)
      requires placement.state == state
      ensures Wired()
      ensures this.state == state && this.placement == placement
      ensures this.scoring == scoring && this.settings == settings
    {
      this.state := state;
      this.placement := placement;
      this.scoring := scoring;
      this.settings := settings;
    }

    ghost predicate Wired()
    {
      placement.state == state
    }

    /** The cost charged on every Skip and Place step. */
    function StepCost(): real
    {
      if scoring.Some? then scoring.value.OnStep() else 0.0
    }

    /** The end-of-episode bonus for a room in state `s`. */
    function EndBonus(s: RoomSnapshot): real
    {
      if scoring.Some? then scoring.value.OnEpisodeEnd(Some(s)) else 0.0
    }

    /** The reward for a failed attempt: the base failure reward less the scaled rule penalty. */
    function FailTerm(a: PlacementAttempt): real
    {
      var baseFail := if settings.Some? then settings.value.failPenalty else -0.2;
      var multiplier := if settings.Some? then settings.value.rulePenaltyMultiplier else 1.0;
      baseFail - multiplier * a.immediatePenalty
    }

    /** The reward for a successful attempt, read from the room after the placement. */
    function SuccessTerm(a: PlacementAttempt, t: RoomSnapshot): real
    {
      (if settings.Some? then settings.value.successReward else 0.1)
      + (if scoring.Some? then scoring.value.OnPlaced(a.item, Some(t)) else 0.0)
    }

    /** The step result and the room after one step from room `s`. */
    function Transition(s: RoomSnapshot, action: PlaceAction, spawned: Option<Handle>): (StepResult, RoomSnapshot)
    {
      if action.op == End then
        (StepResult(true, EndBonus(s), true, NoReason), s)
      else if action.op == Skip then
        (StepResult(true, StepCost(), false, NoReason), s)
      else
        var a := placement.Outcome(Some(s), action, spawned);
        Settle(Committed(s, a), a)
    }

    /** The step result and the room once a Place has produced attempt `a` and left the room as `placed`. */
    function Settle(placed: RoomSnapshot, a: PlacementAttempt): (StepResult, RoomSnapshot)
    {
      if !a.success then
        var t := placed.(failStreak := placed.failStreak + 1);
        var end := settings.Some? && t.failStreak >= settings.value.failStreakLimit;
        (StepResult(false, StepCost() + FailTerm(a), end, a.reason), t)
      else
        var t := placed.(failStreak := 0);
        var end := t.remainingPlacements <= 0;
        (StepResult(true, StepCost() + SuccessTerm(a, t) + (if end then EndBonus(t) else 0.0), end, NoReason), t)
    }

    /** Ends the episode on request: only the diversity bonus, and nothing changes. */
    method EndEpisode() returns (r: StepResult)
      ensures r == StepResult(true, EndBonus(state.Snap()), true, NoReason)
    {
      var reward := if scoring.Some? then scoring.value.OnEpisodeEnd(Some(state.Snap())) else 0.0;
      r := StepResult(true, reward, true, NoReason);
    }

    /** One agent step; `spawned` is what the spawner returns if the placement goes ahead. */
    method Step(action: PlaceAction, spawned: Option<Handle>) returns (r: StepResult)
      requires Wired() && state.Valid()
      modifies state.Footprint()
      ensures state.Valid()
      ensures (r, state.Snap()) == Transition(old(state.Snap()), action, spawned)
    {
      if action.op == End {
        r := EndEpisode();
        return;
      }
      var reward := if scoring.Some? then scoring.value.OnStep() else 0.0;
      if action.op == Skip {
        return StepResult(true, reward, false, NoReason);
      }
      r := StepPlace(action, spawned, reward);
    }

    /** The Place branch of Step: attempt the placement, then settle the outcome. */
    method StepPlace(action: PlaceAction, spawned: Option<Handle>, cost: real) returns (r: StepResult)
      requires Wired() && state.Valid() && cost == StepCost()
      modifies state.Footprint()
      ensures state.Valid()
      ensures var a := placement.Outcome(Some(old(state.Snap())), action, spawned);
              (r, state.Snap()) == Settle(Committed(old(state.Snap()), a), a)
    {
      var attempt := placement.TryPlace(action, spawned);
      r := SettleAttempt(attempt, cost);
    }

    /** Settles a finished attempt: the failure or the success branch of Step. */
    method SettleAttempt(attempt: PlacementAttempt, cost: real) returns (r: StepResult)
      requires state.Valid() && cost == StepCost()
      modifies state
      ensures state.Valid()
      ensures (r, state.Snap()) == Settle(old(state.Snap()), attempt)
    {
      if !attempt.success {
        r := StepFailed(attempt, cost);
      } else {
        r := StepSucceeded(attempt, cost);
      }
    }

    /** The failure branch of Step: count the failure and price it. */
    method StepFailed(attempt: PlacementAttempt, cost: real) returns (r: StepResult)
      requires state.Valid()
      modifies state
      ensures state.Valid()
      ensures state.Snap() == old(state.Snap()).(failStreak := old(state.failStreak) + 1)
      ensures r == StepResult(false, cost + FailTerm(attempt),
                              settings.Some? && state.failStreak >= settings.value.failStreakLimit, attempt.reason)
    {
      state.failStreak := state.failStreak + 1;
      var baseFail := if settings.Some? then settings.value.failPenalty else -0.2;
      var rulePenalty := (if settings.Some? then settings.value.rulePenaltyMultiplier else 1.0) * attempt.immediatePenalty;
      var reward := cost + (baseFail - rulePenalty);
      var end := settings.Some? && state.failStreak >= settings.value.failStreakLimit;
      return StepResult(false, reward, end, attempt.reason);
    }

    /** The success branch of Step: reset the streak, price the placement, and end on an empty budget. */
    method StepSucceeded(attempt: PlacementAttempt, cost: real) returns (r: StepResult)
      requires state.Valid()
      modifies state
      ensures state.Valid()
      ensures state.Snap() == old(state.Snap()).(failStreak := 0)
      ensures var end := state.remainingPlacements <= 0;
              r == StepResult(true, cost + SuccessTerm(attempt, state.Snap())
                                    + (if end then EndBonus(state.Snap()) else 0.0), end, NoReason)
    {
      state.failStreak := 0;
      var reward := cost + (if settings.Some? then settings.value.successReward else 0.1);
      if scoring.Some? {
        reward := reward + scoring.value.OnPlaced(attempt.item, Some(state.Snap()));
      }
      var shouldEnd := state.remainingPlacements <= 0;
      if shouldEnd {
        reward := reward + (if scoring.Some? then scoring.value.OnEpisodeEnd(Some(state.Snap())) else 0.0);
      }
      return StepResult(true, reward, shouldEnd, NoReason);
    }
  }

  /** End yields the end bonus alone, ends the episode and changes nothing. */
  lemma EndStepPaysOnlyBonus(u: RoomDecorStepUseCase, s: RoomSnapshot, action: PlaceAction, spawned: Option<Handle>)
    requires action.op == End
    ensures u.Transition(s, action, spawned) == (StepResult(true, u.EndBonus(s), true, NoReason), s)
  {
  }

  /** Skip yields the step cost alone, never ends the episode and changes nothing. */
  lemma SkipStepPaysOnlyCost(u: RoomDecorStepUseCase, s: RoomSnapshot, action: PlaceAction, spawned: Option<Handle>)
    requires action.op == Skip
    ensures u.Transition(s, action, spawned) == (StepResult(true, u.StepCost(), false, NoReason), s)
  {
  }

  /**
   * A failed Place raises the streak by one and changes nothing else, pays
   * the step cost plus the failure term, and ends the episode exactly when
   * the streak reaches the limit.
   */
  lemma FailedPlaceStep(u: RoomDecorStepUseCase, s: RoomSnapshot, action: PlaceAction, spawned: Option<Handle>)
    requires action.op == Place && !u.placement.Outcome(Some(s), action, spawned).success
    ensures var (r, t) := u.Transition(s, action, spawned);
            var a := u.placement.Outcome(Some(s), action, spawned);
            && t == s.(failStreak := s.failStreak + 1)
            && !r.success && r.reason == a.reason && r.reason != NoReason
            && r.rewardDelta == u.StepCost() + u.FailTerm(a)
            && (r.endEpisode <==> u.settings.Some? && s.failStreak + 1 >= u.settings.value.failStreakLimit)
  {
  }

  /**
   * A successful Place resets the streak, spends one unit of budget, and ends
   * the episode exactly when that was the last unit; the diversity bonus is
   * paid only then.
   */
  lemma SuccessfulPlaceStep(u: RoomDecorStepUseCase, s: RoomSnapshot, action: PlaceAction, spawned: Option<Handle>)
    requires SnapshotValid(s)
    requires action.op == Place && u.placement.Outcome(Some(s), action, spawned).success
    ensures var (r, t) := u.Transition(s, action, spawned);
            var a := u.placement.Outcome(Some(s), action, spawned);
            && t.failStreak == 0 && t.remainingPlacements == s.remainingPlacements - 1 >= 0
            && r.success && r.reason == NoReason
            && (r.endEpisode <==> s.remainingPlacements == 1)
            && r.rewardDelta == u.StepCost() + u.SuccessTerm(a, t) + (if r.endEpisode then u.EndBonus(t) else 0.0)
  {
    var a := u.placement.Outcome(Some(s), action, spawned);
    assert Committed(s, a).remainingPlacements == s.remainingPlacements - 1;
  }

  /**
   * The episode ends exactly on End, on a failure that brings the streak to
   * the limit, or on a success that brings the budget to zero.
   */
  lemma EpisodeEndsExactlyWhen(u: RoomDecorStepUseCase, s: RoomSnapshot, action: PlaceAction, spawned: Option<Handle>)
    requires SnapshotValid(s)
    ensures var (r, t) := u.Transition(s, action, spawned);
            var a := u.placement.Outcome(Some(s), action, spawned);
            r.endEpisode <==>
              || action.op == End
              || (action.op == Place && !a.success && u.settings.Some?
                  && t.failStreak >= u.settings.value.failStreakLimit)
              || (action.op == Place && a.success && t.remainingPlacements == 0)
  {
    if action.op == Place && u.placement.Outcome(Some(s), action, spawned).success {
      SuccessfulPlaceStep(u, s, action, spawned);
    }
  }

  /** Every step keeps the room's invariants and the budget accounting. */
  lemma TransitionKeepsInvariants(u: RoomDecorStepUseCase, s: RoomSnapshot, action: PlaceAction, spawned: Option<Handle>)
    requires SnapshotValid(s) && Accounted(s)
    ensures SnapshotValid(u.Transition(s, action, spawned).1) && Accounted(u.Transition(s, action, spawned).1)
  {
    if action.op == Place {
      var a := u.placement.Outcome(Some(s), action, spawned);
      CommittedKeepsInvariants(s, a);
    }
  }

  /**
   * With an empty catalog a Place fails with no_items; its 0.2 penalty is
   * scaled and subtracted like a rule's, and only the streak changes.
   */
  lemma EmptyCatalogPlace(u: RoomDecorStepUseCase, cfg: RoomDecorSettings, s: RoomSnapshot, action: PlaceAction,
                          spawned: Option<Handle>)
    requires u.settings == Some(cfg) && u.placement.settings == Some(cfg)
    requires u.placement.catalog.None? || Count(u.placement.catalog.value) == 0
    requires s.remainingPlacements > 0 && |s.sockets| > 0 && action.op == Place
    ensures var (r, t) := u.Transition(s, action, spawned);
            && r == StepResult(false, u.StepCost() + (cfg.failPenalty - cfg.rulePenaltyMultiplier * RulePenalty),
                               s.failStreak + 1 >= cfg.failStreakLimit, NoItems)
            && t == s.(failStreak := s.failStreak + 1)
  {
  }

  /**
   * With one unit of budget left and nothing placed yet, a successful Place
   * ends the episode and pays step cost, success reward, no repeat penalty
   * and a tenth of the diversity bonus.
   */
  lemma LastBudgetPlace(u: RoomDecorStepUseCase, cfg: RoomDecorSettings, s: RoomSnapshot, action: PlaceAction,
                        spawned: Option<Handle>)
    requires u.settings == Some(cfg) && u.scoring == Some(SimpleScoringPolicy(Some(cfg)))
    requires SnapshotValid(s) && s.remainingPlacements == 1 && s.itemCounts == map[]
    requires action.op == Place && u.placement.Outcome(Some(s), action, spawned).success
    ensures var (r, t) := u.Transition(s, action, spawned);
            && r.endEpisode && r.success && t.remainingPlacements == 0
            && r.rewardDelta == cfg.stepPenalty + cfg.successReward + 0.1 * cfg.finalDiversityBonusMax
  {
    var a := u.placement.Outcome(Some(s), action, spawned);
    var placed := Committed(s, a);
    assert u.Transition(s, action, spawned) == u.Settle(placed, a);
    assert placed.remainingPlacements == 0;
    assert placed.itemCounts == map[a.item.value.itemId := 1];
    SettleFirstItemOnLastUnit(u, cfg, placed, a);
  }

  /** Settling a success that spent the last unit on the room's first item. */
  lemma SettleFirstItemOnLastUnit(u: RoomDecorStepUseCase, cfg: RoomDecorSettings, placed: RoomSnapshot,
                                  a: PlacementAttempt)
    requires u.settings == Some(cfg) && u.scoring == Some(SimpleScoringPolicy(Some(cfg)))
    requires a.success && a.item.Some?
    requires placed.remainingPlacements == 0 && placed.itemCounts == map[a.item.value.itemId := 1]
    ensures var (r, t) := u.Settle(placed, a);
            && r.endEpisode && r.success && t.remainingPlacements == 0
            && r.rewardDelta == cfg.stepPenalty + cfg.successReward + 0.1 * cfg.finalDiversityBonusMax
  {
    var t := placed.(failStreak := 0);
    assert |t.itemCounts| == 1;
    assert u.scoring.value.OnPlaced(a.item, Some(t)) == 0.0;
    assert u.EndBonus(t) == (|t.itemCounts| as real) / DiversityScale * cfg.finalDiversityBonusMax;
    assert (1 as real) / DiversityScale == 0.1;
  }
}
