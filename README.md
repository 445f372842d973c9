# Room decoration engine — a Dafny model

This project models the core of a room-decoration environment for
reinforcement learning. An agent places decor items from a catalog onto
sockets (floor, wall, corner, ceiling) in a room. Each episode has a budget
of placements. An agent step is one of:

- **Place**: try to put item `i`, rotated by step `r`, on socket `s`;
- **Skip**;
- **End**.

What the model covers:

- **Action parser** (`Actions`): clamps the raw discrete actions into a `PlaceAction`.
- **Room state** (`State.RoomState`, a class): the remaining budget, the
  failure streak, and the per-item and per-category count maps.
- **Sockets** (`Room.DecorationSocket`, a class): each socket's occupancy and
  its spawned instance.
- **Reset service** (`Reset`): clears every socket and resets the state.
- **Placement** (`Rules`, `Placement`): three placement rules, combined by a
  first-failure-wins validator. The transactional `TryPlace` changes the
  room only on success.
- **Scoring** (`Scoring`): the step cost, the repeat-item penalty and the
  end-of-episode diversity bonus.
- **Step use case** (`Step`): turns one action into a reward, a success
  flag, an end flag and a reason.
- **Observation vector** (`Observation`): the fixed-length layout, and
  `CalcVectorObsSize`.

Every imperative operation is a method on the class whose fields it
updates. It is proved against a pure function over value snapshots:

- `RoomState.Snap()` is a `RoomSnapshot`;
- `DecorationSocket.View()` is a `SocketView`.

For example, `TryPlace` ensures `state.Snap() == Committed(old(state.Snap()), a)`,
where `a == Outcome(old(state.Snap()), …)`. The lemmas then prove the
promised properties about `Outcome`, `Committed`, `Transition`,
`ResetSnapshot` and `ObservationOf`.

Unity supplies part of the inputs. These become parameters or fields:

- **The spawner's result**: the `spawned` argument, a `Handle` or `None`.
- **The overlap query**: a predicate `Box -> bool` behind the layer-mask condition.
- **The prefab bounds lookup**: an optional `Bounds` on the prefab.
- **The distance from a socket to the door**: an optional function
  `Pose -> real`.

Reward and feature values are `real`. Reason strings become the enum `Rules.Reason`.

Two behaviours of the code a reader might not expect:

- A Place that fails a configuration check (`missing_dependencies`,
  `no_sockets`, `no_items`) carries penalty 0.2. It is charged the full
  failure reward (`failPenalty − rulePenaltyMultiplier·0.2`) on top of the
  step cost, and it raises the fail streak (`Step.EmptyCatalogPlace`).
- A successful placement sets `occupied` only when the spawner returned an
  instance, yet the budget and the counts change either way
  (`Room.WithInstance`, `Placement.SuccessEffects`).

## Model

In the source column, paths are relative to the repository root.

| member | source | states |
|---|---|---|
| Room.DecorationSocket.constructor | Assets/Scripts/RoomDecor/Room/DecorationSocket.cs:5-11 | a new socket is unoccupied, holds no instance, and keeps the given type, corridor flag and pose |
| Room.DecorationSocket.SetOccupied | Assets/Scripts/RoomDecor/Room/DecorationSocket.cs:13-17 | `currentInstance` becomes the argument; `occupied` holds iff the argument is non-null; type and corridor flag are unchanged |
| Room.DecorationSocket.Clear | Assets/Scripts/RoomDecor/Room/DecorationSocket.cs:19-27 | afterwards the socket is unoccupied and holds no instance; type and corridor flag are unchanged |
| Room.ClearedIdempotent | Assets/Scripts/RoomDecor/Room/DecorationSocket.cs:19-27 | clearing a cleared socket changes nothing |
| Room.ClearedForgetsInstance | Assets/Scripts/RoomDecor/Room/DecorationSocket.cs:13-27 | clearing after any SetOccupied gives the same socket as clearing directly, and it is unoccupied with no instance |
| Room.ClearTwice | Assets/Scripts/RoomDecor/Room/DecorationSocket.cs:19-27 | two Clear calls in a row leave the socket exactly as one call does |
| Catalog.Count | Assets/Scripts/RoomDecor/Room/DecorCatalog.cs:7 | 0 for a null item list, otherwise the list's length |
| Catalog.Get | Assets/Scripts/RoomDecor/Room/DecorCatalog.cs:9-14 | null for a null or empty list; `items[idx]` for an index in range; the first entry for a negative index; the last entry for an index at or past the end |
| Catalog.GetReturnsAnEntry | Assets/Scripts/RoomDecor/Room/DecorCatalog.cs:9-14 | for a non-empty list, Get always returns one of its entries, for any index |
| State.Consumed | Assets/Scripts/RoomDecor/Core/RoomDecorCore.cs:54 | a positive budget drops by exactly one and stays non-negative; a budget of zero or less is unchanged |
| State.Bump | Assets/Scripts/RoomDecor/Core/RoomDecorCore.cs:60-64 | the key is added if missing, its count rises by exactly one, and every other key's count is unchanged |
| State.RoomState.constructor | Assets/Scripts/RoomDecor/Core/RoomDecorCore.cs:39-44 | a new state has the full budget, a zero streak and empty count maps |
| State.RoomState.Snap | Assets/Scripts/RoomDecor/Core/RoomDecorCore.cs:29-37 | the snapshot of a valid state has positive counts and a budget within `[0, max]` |
| State.RoomState.ResetEpisode | Assets/Scripts/RoomDecor/Core/RoomDecorCore.cs:46-52 | remaining is restored to max, the streak is 0, and both count maps are empty |
| State.RoomState.ConsumePlacement | Assets/Scripts/RoomDecor/Core/RoomDecorCore.cs:54 | remaining becomes `Consumed(old remaining)`, so it never goes below 0; counts and streak are unchanged |
| State.RoomState.RegisterPlacement | Assets/Scripts/RoomDecor/Core/RoomDecorCore.cs:56-65 | a null item changes nothing; otherwise the item id's count and the category's count each rise by one, and budget and streak are unchanged |
| State.RoomState.GetItemCount | Assets/Scripts/RoomDecor/Core/RoomDecorCore.cs:67 | the stored count, or 0 for an absent id; in a valid state it is 0 exactly when the id is absent |
| State.RoomState.GetCategoryCount | Assets/Scripts/RoomDecor/Core/RoomDecorCore.cs:68 | the stored count, or 0 for an absent category; in a valid state it is 0 exactly when the category is absent |
| Rules.Evaluate | Assets/Scripts/RoomDecor/Core/RoomDecorCore.cs:153-188 | occupancy rule: fails `socket_null` / `socket_occupied`; type rule: fails `null_ref` on a missing socket or item, passes iff the allowed list is null, empty or contains the socket's type, else `socket_type_not_allowed`; overlap rule: passes without an overlap query, else fails `overlap_blocking` iff the query reports an overlap; every failure carries penalty 0.2 |
| Rules.OverlapChecker.HasOverlap | Assets/Scripts/RoomDecor/Core/RoomDecorCore.cs:129-134 | a zero layer mask never reports an overlap; otherwise the answer is the physics box query's |
| Rules.FirstFailure | Assets/Scripts/RoomDecor/Core/RoomDecorCore.cs:142-150 | the combined result is Ok when it passes, and otherwise a rule failure with penalty 0.2 |
| Rules.FirstFailureIsFirst | Assets/Scripts/RoomDecor/Core/RoomDecorCore.cs:142-150 | the result is Ok iff every rule passes; otherwise it is the result of the first failing rule, and all rules before it pass |
| Rules.FirstFailureSkipsPassed | Assets/Scripts/RoomDecor/Core/RoomDecorCore.cs:144-148 | rules that passed can be dropped from the front without changing the result |
| Rules.CompositePlacementValidator.Validate | Assets/Scripts/RoomDecor/Core/RoomDecorCore.cs:142-150 | the loop returns FirstFailure of the rule list: Ok iff all rules pass, otherwise the result of some rule in the list |
| Rules.InstallerReportsOccupancyFirst | Assets/Scripts/RoomDecor/Composition/RoomDecorInstaller.cs:50-55 | with the installer's order, an occupied socket reports `socket_occupied` whatever its type or overlap; a null socket reports `socket_null` |
| Rules.InstallerPassesIff | Assets/Scripts/RoomDecor/Composition/RoomDecorInstaller.cs:50-55 | with the installer's order, validation passes iff the socket exists and is free, the type is allowed, and there is no overlap |
| Placement.StepAngleInTurn | Assets/Scripts/RoomDecor/Core/RoomDecorCore.cs:242-243 | a clamped rotation step gives an angle in `[0, 360)`, and a non-zero step a positive angle |
| Placement.GetLocalRotation | Assets/Scripts/RoomDecor/Core/RoomDecorCore.cs:237-244 | the identity iff the item forbids rotation, `rotCount <= 1`, or the index clamps to step 0 (a 0° Euler turn is the identity); otherwise a Y rotation of `clamp(rotIndex, 0, rotCount-1) * 360/rotCount` degrees, in `(0, 360)` |
| Placement.RotationIsClampedNotWrapped | Assets/Scripts/RoomDecor/Core/RoomDecorCore.cs:241-243 | index 5 with count 4 gives 270 degrees (index 3), not the 90 degrees that wrapping would give |
| Placement.PlacementService.constructor | Assets/Scripts/RoomDecor/Core/RoomDecorCore.cs:198-201 | stores the wiring it is given |
| Placement.PlacementService.Outcome | Assets/Scripts/RoomDecor/Core/RoomDecorCore.cs:203-235 | success means no reason, penalty 0, the given spawn, the catalog entry at the clamped item index (`Get(catalog, itemIndex)`), a resolved socket index, and budget left; failure means a reason, no spawn, and penalty 0 for `no_budget` or 0.2 for every other reason; a resolved index is always within the socket list |
| Placement.PlacementService.TryPlace | Assets/Scripts/RoomDecor/Core/RoomDecorCore.cs:203-235 | returns `Outcome` of the old room, and leaves the room as `Committed(old room, attempt)`; the state's invariant is kept |
| Placement.Apply | Assets/Scripts/RoomDecor/Core/RoomDecorCore.cs:230-234 | occupying the socket, consuming the budget and registering the item produce exactly the committed room of a successful attempt |
| Placement.ChangesIffSuccess | Assets/Scripts/RoomDecor/Core/RoomDecorCore.cs:205-234 | the room changes iff the attempt succeeds; every failure return, rule failures included, leaves sockets, budget and counts unchanged |
| Placement.SuccessEffects | Assets/Scripts/RoomDecor/Core/RoomDecorCore.cs:229-234 | on success only these change: the socket at the clamped index takes the spawned handle, remaining drops by one and stays non-negative, and the counts of the catalog entry `Get(catalog, itemIndex)` — its id's and its category's — each rise by one |
| Placement.PreconditionOrder | Assets/Scripts/RoomDecor/Core/RoomDecorCore.cs:205-208 | the preconditions are checked in order: `missing_dependencies` (0.2), then `no_budget` (0), then `no_sockets`, then `no_items` |
| Placement.CommittedKeepsInvariants | Assets/Scripts/RoomDecor/Core/RoomDecorCore.cs:54-65 | a committed attempt keeps counts positive and the budget in `[0, max]`, and each count map has at most as many keys as placements spent |
| Placement.BumpSize | Assets/Scripts/RoomDecor/Core/RoomDecorCore.cs:60-64 | registering an item adds at most one key to a count map |
| Scoring.SimpleScoringPolicy.OnStep | Assets/Scripts/RoomDecor/Core/RoomDecorCore.cs:273 | `stepPenalty`, or 0 without settings |
| Scoring.SimpleScoringPolicy.OnEpisodeEnd | Assets/Scripts/RoomDecor/Core/RoomDecorCore.cs:283-288 | 0 without settings or state; `finalDiversityBonusMax` from 10 distinct ids upward; `distinct/10 * finalDiversityBonusMax` below that; bounded by the maximum when the maximum is non-negative |
| Scoring.SimpleScoringPolicy.OnPlaced | Assets/Scripts/RoomDecor/Core/RoomDecorCore.cs:275-281 | 0 without settings, item or state; with `prev` = the item's count − 1, 0 when `prev <= 0` and `repeatItemPenaltyBase * prev` otherwise |
| Scoring.RepeatTermCountsEarlierPlacements | Assets/Scripts/RoomDecor/Core/RoomDecorCore.cs:275-281 | the repeat term after registering an item is `repeatItemPenaltyBase` times the item's earlier placements, and 0 on its first placement |
| Scoring.RepeatTermGrowsLinearly | Assets/Scripts/RoomDecor/Core/RoomDecorCore.cs:275-281 | the first, second and third placements of an item cost 0, `base` and `2*base` |
| Scoring.RepeatTermMonotone | Assets/Scripts/RoomDecor/Core/RoomDecorCore.cs:275-281 | with a non-positive base, more earlier placements never make the repeat term larger |
| Reset.ResetEmptiesRoom | Assets/Scripts/RoomDecor/Core/RoomDecorCore.cs:297-303 | after reset every present socket is unoccupied with no instance, null sockets stay null, remaining is max, the streak is 0, and both maps are empty |
| Reset.ResetIdempotent | Assets/Scripts/RoomDecor/Core/RoomDecorCore.cs:297-303 | resetting a reset room changes nothing |
| Reset.RoomResetService.constructor | Assets/Scripts/RoomDecor/Core/RoomDecorCore.cs:295 | stores the state it is given |
| Reset.RoomResetService.ResetEpisode | Assets/Scripts/RoomDecor/Core/RoomDecorCore.cs:297-303 | the loop over the sockets and the state reset leave the room as `ResetSnapshot(old room)`; with no state nothing happens |
| Reset.ResetTwice | Assets/Scripts/RoomDecor/Core/RoomDecorCore.cs:297-303 | two resets in a row leave the room exactly as one reset does |
| Observation.CalcVectorObsSize | Assets/Scripts/RoomDecor/Tools/RoomDecorSetupInfo.cs:10-13 | at least 13; exactly 13 for any n ≤ 1; 6 more than a multiple of 7 |
| Observation.CalcVectorObsSizeAsWritten | Assets/Scripts/RoomDecor/Tools/RoomDecorSetupInfo.cs:10-13 | the 32-bit result is congruent to `6 + max(1, n) * 7` modulo 2^32, which is all that unchecked `int` arithmetic keeps |
| Observation.CalcVectorObsSizeMonotone | Assets/Scripts/RoomDecor/Tools/RoomDecorSetupInfo.cs:10-13 | the size never decreases as n grows |
| Observation.AsWrittenAgreesBelowOverflow | Assets/Scripts/RoomDecor/Tools/RoomDecorSetupInfo.cs:10-13 | the 32-bit computation equals `6 + max(1, n) * 7` for every n up to 306783377 |
| Observation.AsWrittenOverflows | Assets/Scripts/RoomDecor/Tools/RoomDecorSetupInfo.cs:10-13 | at n = 306783378 the 32-bit computation wraps to −2147483644, below its value at n = 1, although the true size is 2147483652 |
| Observation.Header | Assets/Scripts/RoomDecor/Core/RoomDecorCore.cs:322-328 | the header has exactly 6 values: budget share, catalog share, and the four category shares |
| Observation.SlotFeatures | Assets/Scripts/RoomDecor/Core/RoomDecorCore.cs:335-355 | every slot has exactly 7 values |
| Observation.SlotsLayout | Assets/Scripts/RoomDecor/Core/RoomDecorCore.cs:333-356 | k slots give `7*k` values, and slot i is found at positions `7i ... 7i+6` |
| Observation.ObservationLayout | Assets/Scripts/RoomDecor/Core/RoomDecorCore.cs:320-356 | the vector has exactly `CalcVectorObsSize(maxSocketsForObs)` values: the 6-value header first, then slot i at `6+7i ... 6+7i+6`, for `max(1, maxSocketsForObs)` slots |
| Observation.SlotEncoding | Assets/Scripts/RoomDecor/Core/RoomDecorCore.cs:335-355 | a present socket's slot has an occupancy flag, a one-hot socket type, a door distance in `[0, 1]` and a corridor flag; a slot past the list, or holding a null socket, is seven zeros |
| Observation.SocketObservationProvider.constructor | Assets/Scripts/RoomDecor/Core/RoomDecorCore.cs:313-316 | stores the wiring it is given |
| Observation.SocketObservationProvider.EmitHeader | Assets/Scripts/RoomDecor/Core/RoomDecorCore.cs:322-328 | the first six values emitted are exactly `Header` of the room |
| Observation.SocketObservationProvider.EmitSlots | Assets/Scripts/RoomDecor/Core/RoomDecorCore.cs:330-356 | the loop over `max(1, maxSocketsForObs)` slots emits exactly `Slots` of the room |
| Observation.SocketObservationProvider.EmitSlot | Assets/Scripts/RoomDecor/Core/RoomDecorCore.cs:335-355 | the values emitted for slot i are `SlotFeatures` of the room at slot i, the zero-padding loop included |
| Observation.SocketObservationProvider.Collect | Assets/Scripts/RoomDecor/Core/RoomDecorCore.cs:318-357 | emits `ObservationOf(room)`, nothing without state or settings, and otherwise exactly `CalcVectorObsSize(maxSocketsForObs)` values |
| Step.RoomDecorStepUseCase.constructor | Assets/Scripts/RoomDecor/Core/RoomDecorCore.cs:373-376 | stores the wiring it is given; requires that the placement service works on the same state |
| Step.RoomDecorStepUseCase.EndEpisode | Assets/Scripts/RoomDecor/Core/RoomDecorCore.cs:410-414 | succeeds, ends the episode, and pays only the diversity bonus of the current room |
| Step.RoomDecorStepUseCase.Step | Assets/Scripts/RoomDecor/Core/RoomDecorCore.cs:378-408 | the result and the new room are `Transition(old room, action, spawn)`; the state's invariant is kept |
| Step.RoomDecorStepUseCase.StepPlace | Assets/Scripts/RoomDecor/Core/RoomDecorCore.cs:387-407 | a Place attempt followed by the failure or success branch gives `Settle(Committed(old room, attempt), attempt)` |
| Step.RoomDecorStepUseCase.SettleAttempt | Assets/Scripts/RoomDecor/Core/RoomDecorCore.cs:389-407 | once the attempt has been applied, the failure or success branch leaves result and room as `Settle(room, attempt)` |
| Step.RoomDecorStepUseCase.StepFailed | Assets/Scripts/RoomDecor/Core/RoomDecorCore.cs:389-398 | the streak rises by one; the reward is the cost plus `baseFail − multiplier·penalty` (defaults −0.2 and 1.0); the episode ends iff settings exist and the streak has reached the limit |
| Step.RoomDecorStepUseCase.StepSucceeded | Assets/Scripts/RoomDecor/Core/RoomDecorCore.cs:400-407 | the streak becomes 0; the reward is the cost plus the success reward (default 0.1) plus the repeat term; the diversity bonus is added and the episode ends iff no budget is left |
| Step.EndStepPaysOnlyBonus | Assets/Scripts/RoomDecor/Core/RoomDecorCore.cs:410-414 | End succeeds, ends the episode, pays only the end bonus, and leaves the room unchanged |
| Step.SkipStepPaysOnlyCost | Assets/Scripts/RoomDecor/Core/RoomDecorCore.cs:382-385 | Skip succeeds, pays only the step cost, never ends the episode, and leaves the room unchanged |
| Step.FailedPlaceStep | Assets/Scripts/RoomDecor/Core/RoomDecorCore.cs:389-398 | a failed Place changes only the streak (+1), reports the attempt's reason, pays `cost + failPenalty − mult·penalty`, and ends iff the new streak reaches `failStreakLimit` |
| Step.SuccessfulPlaceStep | Assets/Scripts/RoomDecor/Core/RoomDecorCore.cs:400-407 | a successful Place resets the streak, spends one unit of budget, ends iff that was the last unit, and adds the diversity bonus only then |
| Step.EpisodeEndsExactlyWhen | Assets/Scripts/RoomDecor/Core/RoomDecorCore.cs:378-408 | the episode ends iff the op is End, or a failure brings the streak to the limit, or a success brings the budget to 0 |
| Step.TransitionKeepsInvariants | Assets/Scripts/RoomDecor/Core/RoomDecorCore.cs:378-408 | every step keeps counts positive, the budget in `[0, max]`, and the key counts within the placements spent |
| Step.EmptyCatalogPlace | Assets/Scripts/RoomDecor/Core/RoomDecorCore.cs:389-398 | with an empty catalog a Place fails with `no_items`, pays `cost + failPenalty − mult·0.2`, and raises only the streak |
| Step.LastBudgetPlace | Assets/Scripts/RoomDecor/Core/RoomDecorCore.cs:400-407 | the first placement made with the last unit of budget ends the episode and pays `stepPenalty + successReward + 0.1·finalDiversityBonusMax` |
| Step.SettleFirstItemOnLastUnit | Assets/Scripts/RoomDecor/Core/RoomDecorCore.cs:400-407 | a success that spent the last unit on the room's only item ends the episode and pays `stepPenalty + successReward + 0.1·finalDiversityBonusMax` |
| Actions.Clamp | Assets/Scripts/RoomDecor/Core/RoomDecorCore.cs:434-440 | an empty range gives `min`; otherwise the result lies in `[min, max]`, equals `v` inside the range, and is the nearer bound outside it |
| Actions.Parse | Assets/Scripts/RoomDecor/Core/RoomDecorCore.cs:419-432 | socket, item and rotation are each their entry clamped into `[0, max(0, count-1)]`, for any input; missing entries read as socket 0, item 0, rotation 0 and op Skip; the op is Place for raw ≤ 0, Skip for 1, End for ≥ 2 |
| Actions.ParsedIndicesInRange | Assets/Scripts/RoomDecor/Core/RoomDecorCore.cs:426-428 | whenever a count is positive, the parsed index is a valid index for it |
| Actions.ParseIdempotent | Assets/Scripts/RoomDecor/Core/RoomDecorCore.cs:419-432 | parsing an already-parsed action gives it back unchanged |

## Left out

- Unity geometry is not modelled: the world pose and rotation of the socket, the world centre and half extents of the prefab, and the 0.98 shrink factor. `Box` is an opaque value handed to the overlap predicate.
- `TryGetPrefabBounds` is not modelled: the `PlacementBounds`/`BoxCollider` lookup and its size threshold. Whether bounds exist is a field of the prefab record.
- `PrefabSpawner` (Unity's `Instantiate`/`Destroy`) and `UnityOverlapChecker`'s `Physics.OverlapBox` are foreign calls. The spawn result is the `spawned` argument, and the physics query is a predicate behind the layer-mask condition.
- `RoomResetService.ResetEpisode` calls `spawner.ClearAll()` and destroys each socket's instance. Both only destroy Unity objects, which are not modelled.
- The vector sensor is the returned sequence. Observations are not collected when the sensor is null, and that branch is not modelled.
- `Vector3.Distance` to the door is an opaque function of the socket's pose.
- Floating-point rounding is not modelled: rewards and features are exact reals.
- Counters and `rotationCount - 1` are unbounded integers. The 32-bit wrap-around is modelled only for `CalcVectorObsSize`, where it is a finding.
- `RoomState` with a null socket list is not modelled; an empty list stands for it. The installer always passes a list.
- State.RoomState.constructor: requires the non-null sockets to be pairwise distinct, because a socket listed twice would alias one socket under two indices. Sockets the installer finds itself (`autoFindSockets`) are distinct scene components; a hand-filled socket list that repeats a socket is not modelled.
- State.RoomState.ResetEpisode: requires the state's invariant. It only re-establishes the budget, streak and maps.
- Step.RoomDecorStepUseCase.Step: requires the placement service to work on the use case's own state, as the installer wires them. It also requires a non-null state; the source would throw on a failed Place without one.
- Scoring.SimpleScoringPolicy.OnStep: the action and state parameters are unused in the source, so they are dropped. The placement rules' unused action parameter is dropped the same way.
- The agent callbacks, the `Heuristic` random actions, the installer's scene search and dependency injection, and the logging in `RoomDecorSetupInfo.Print` are not part of this model.

## Findings

| source | as written | input that shows it | evidently intended | confidence | as-written member | corrected member |
|---|---|---|---|---|---|---|
| Assets/Scripts/RoomDecor/Tools/RoomDecorSetupInfo.cs:10-13 | `6 + Mathf.Max(1, n) * 7` in 32-bit `int` wraps around for large `maxSocketsForObs` | n = 306783378 gives −2147483644, smaller than the size for n = 1 | the observation size `6 + 7·max(1, n)`: never below 13, and non-decreasing in n | not executed | Observation.AsWrittenOverflows | Observation.CalcVectorObsSize |
