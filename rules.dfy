/**
 * The placement rules (occupancy, socket type, overlap), their results and
 * the validator that runs them in order and reports the first failure.
 */
module Rules {
  import opened Wrappers
  import opened Config
  import opened Room

  /** The reason strings of the engine; NoReason is the empty string. */
  datatype Reason =
    | NoReason
    | SocketNull
    | SocketOccupied
    | NullRef
    | SocketTypeNotAllowed
    | OverlapBlocking
    | MissingDependencies
    | NoBudget
    | NoSockets
    | NoItems
    | MissingBounds

  datatype RuleResult = RuleResult(ok: bool, penalty: real, reason: Reason)

  const Ok: RuleResult := RuleResult(true, 0.0, NoReason)

  /** The reasons a rule can fail with. */
  const RuleReasons: set<Reason> := {SocketNull, SocketOccupied, NullRef, SocketTypeNotAllowed, OverlapBlocking}

  /** The penalty every rule failure carries. */
  const RulePenalty: real := 0.2

  /**
   * The overlap query. A zero layer mask reports no overlap; otherwise the
   * answer is the physics box query's, which is left uninterpreted.
   */
  datatype OverlapChecker = UnityOverlapChecker(layerMask: int, overlapBox: Box -> bool)
  {
    function HasOverlap(box: Box): (hit: bool)
      ensures layerMask == 0 ==> !hit
      ensures layerMask != 0 ==> (hit <==> overlapBox(box))
    {
      layerMask != 0 && overlapBox(box)
    }
  }

  datatype PlacementRule =
    | SocketNotOccupiedRule
    | SocketTypeRule
    | OverlapRule(overlap: Option<OverlapChecker>)

  /** Whether `t` is accepted by an item's allowed list (null or empty accepts all). */
  predicate TypeAllowed(allowed: Option<seq<SocketType>>, t: SocketType)
  {
    allowed.None? || |allowed.value| == 0 || t in allowed.value
  }

  /** One rule's verdict on a socket, an item and the item's world box. */
  function Evaluate(rule: PlacementRule, socket: Option<SocketView>,
                    item: Option<DecorItemDefinition>, box: Box): (rr: RuleResult)
    ensures rr.ok ==> rr == Ok
    ensures !rr.ok ==> rr.penalty == RulePenalty && rr.reason in RuleReasons
    ensures rule.SocketNotOccupiedRule? ==>
      (rr.ok <==> socket.Some? && !socket.value.occupied)
      && (rr.reason == SocketNull <==> socket.None?)
      && (rr.reason == SocketOccupied <==> socket.Some? && socket.value.occupied)
    ensures rule.SocketTypeRule? ==>
      (rr.ok <==> socket.Some? && item.Some?
                  && TypeAllowed(item.value.allowedSocketTypes, socket.value.socketType))
      && (rr.reason == NullRef <==> socket.None? || item.None?)
      && (!rr.ok && rr.reason != NullRef ==> rr.reason == SocketTypeNotAllowed)
    ensures rule.OverlapRule? ==>
      (rr.ok <==> rule.overlap.None? || !rule.overlap.value.HasOverlap(box))
      && (!rr.ok ==> rr.reason == OverlapBlocking)
  {
    match rule
    case SocketNotOccupiedRule =>
      if socket.None? then RuleResult(false, RulePenalty, SocketNull)
      else if socket.value.occupied then RuleResult(false, RulePenalty, SocketOccupied)
      else Ok
    case SocketTypeRule =>
      if socket.None? || item.None? then RuleResult(false, RulePenalty, NullRef)
      else if item.value.allowedSocketTypes.None? || |item.value.allowedSocketTypes.value| == 0 then Ok
      else if socket.value.socketType in item.value.allowedSocketTypes.value then Ok
      else RuleResult(false, RulePenalty, SocketTypeNotAllowed)
    case OverlapRule(overlap) =>
      if overlap.None? then Ok
      else if overlap.value.HasOverlap(box) then RuleResult(false, RulePenalty, OverlapBlocking)
      else Ok
  }

  /** The result of running `rules` in order and stopping at the first failure. */
  function FirstFailure(rules: seq<PlacementRule>, socket: Option<SocketView>,
                        item: Option<DecorItemDefinition>, box: Box): (rr: RuleResult)
    ensures rr.ok ==> rr == Ok
    ensures !rr.ok ==> rr.penalty == RulePenalty && rr.reason in RuleReasons
  {
    if |rules| == 0 then Ok
    else
      var rr := Evaluate(rules[0], socket, item, box);
      if !rr.ok then rr else FirstFailure(rules[1..], socket, item, box)
  }

  /**
   * FirstFailure passes exactly when every rule passes, and otherwise is the
   * result of the first rule that fails, all rules before it passing.
   */
  lemma {:induction false} FirstFailureIsFirst(rules: seq<PlacementRule>, socket: Option<SocketView>,
                                               item: Option<DecorItemDefinition>, box: Box)
    ensures FirstFailure(rules, socket, item, box).ok
            <==> forall i :: 0 <= i < |rules| ==> Evaluate(rules[i], socket, item, box).ok
    ensures FirstFailure(rules, socket, item, box).ok ==> FirstFailure(rules, socket, item, box) == Ok
    ensures !FirstFailure(rules, socket, item, box).ok ==>
      exists i :: 0 <= i < |rules| && FirstFailure(rules, socket, item, box) == Evaluate(rules[i], socket, item, box)
                  && forall j :: 0 <= j < i ==> Evaluate(rules[j], socket, item, box).ok
  {
    if |rules| > 0 {
      var rr := Evaluate(rules[0], socket, item, box);
      if rr.ok {
        FirstFailureIsFirst(rules[1..], socket, item, box);
        assert forall i :: 1 <= i < |rules| ==> rules[i] == rules[1..][i - 1];
        if !FirstFailure(rules, socket, item, box).ok {
          var k :| 0 <= k < |rules[1..]|
                   && FirstFailure(rules[1..], socket, item, box) == Evaluate(rules[1..][k], socket, item, box)
                   && forall j :: 0 <= j < k ==> Evaluate(rules[1..][j], socket, item, box).ok;
          assert forall j :: 0 <= j < k + 1 ==> Evaluate(rules[j], socket, item, box).ok by {
            forall j | 0 <= j < k + 1 ensures Evaluate(rules[j], socket, item, box).ok {
              if j > 0 { assert rules[j] == rules[1..][j - 1]; }
            }
          }
        }
      }
    }
  }

  /** Once a prefix of rules has passed, the verdict is that of the rest. */
  lemma {:induction false} FirstFailureSkipsPassed(rules: seq<PlacementRule>, i: nat, socket: Option<SocketView>,
                                                   item: Option<DecorItemDefinition>, box: Box)
    requires i <= |rules|
    requires forall j :: 0 <= j < i ==> Evaluate(rules[j], socket, item, box).ok
    ensures FirstFailure(rules, socket, item, box) == FirstFailure(rules[i..], socket, item, box)
  {
    if i > 0 {
      assert rules[1..][i - 1..] == rules[i..];
      FirstFailureSkipsPassed(rules[1..], i - 1, socket, item, box);
    }
  }

  datatype CompositePlacementValidator = CompositePlacementValidator(rules: seq<PlacementRule>)
  {
    /** Runs the rules in list order and returns the first failure, or Ok. */
    method Validate(socket: Option<SocketView>, item: Option<DecorItemDefinition>, box: Box)
      returns (rr: RuleResult)
      ensures rr == FirstFailure(rules, socket, item, box)
      ensures rr.ok <==> forall i :: 0 <= i < |rules| ==> Evaluate(rules[i], socket, item, box).ok
      ensures !rr.ok ==> exists i :: 0 <= i < |rules| && rr == Evaluate(rules[i], socket, item, box)
                                     && forall j :: 0 <= j < i ==> Evaluate(rules[j], socket, item, box).ok
    {
      var i := 0;
      while i < |rules|
        invariant 0 <= i <= |rules|
        invariant forall j :: 0 <= j < i ==> Evaluate(rules[j], socket, item, box).ok
      {
        var r := Evaluate(rules[i], socket, item, box);
        if !r.ok {
          FirstFailureSkipsPassed(rules, i, socket, item, box);
          return r;
        }
        i := i + 1;
      }
      FirstFailureSkipsPassed(rules, i, socket, item, box);
      return Ok;
    }
  }

  /** The rule list as the installer builds it: occupied, then type, then overlap. */
  function InstallerRules(overlap: OverlapChecker): seq<PlacementRule>
  {
    [SocketNotOccupiedRule, SocketTypeRule, OverlapRule(Some(overlap))]
  }

  /**
   * With the installer's order, an occupied socket is reported as occupied
   * whatever the item's type list and the overlap query say, and a missing
   * socket as socket_null.
   */
  lemma InstallerReportsOccupancyFirst(overlap: OverlapChecker, socket: Option<SocketView>,
                                       item: Option<DecorItemDefinition>, box: Box)
    ensures socket.Some? && socket.value.occupied ==>
      FirstFailure(InstallerRules(overlap), socket, item, box) == RuleResult(false, RulePenalty, SocketOccupied)
    ensures socket.None? ==>
      FirstFailure(InstallerRules(overlap), socket, item, box) == RuleResult(false, RulePenalty, SocketNull)
  {
  }

  /** The installer's validator passes exactly when all three conditions hold. */
  lemma InstallerPassesIff(overlap: OverlapChecker, socket: Option<SocketView>,
                           item: Option<DecorItemDefinition>, box: Box)
    ensures FirstFailure(InstallerRules(overlap), socket, item, box).ok <==>
      socket.Some? && !socket.value.occupied && item.Some?
      && TypeAllowed(item.value.allowedSocketTypes, socket.value.socketType)
      && !overlap.HasOverlap(box)
  {
    var rules := InstallerRules(overlap);
    FirstFailureIsFirst(rules, socket, item, box);
    assert Evaluate(rules[2], socket, item, box).ok <==> !overlap.HasOverlap(box);
  }
}
