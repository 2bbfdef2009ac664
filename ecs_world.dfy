/**
 * The entity-component world of the ECS iteration (components.go): every
 * unit is one entity carrying identity, medal, parts, status, action and
 * render components plus tags; the game state and the player's
 * action-selection state are singleton components.
 *
 * Entities are records in `World.units`; the unit at index i has the
 * entity handle i + 1, and handle 0 is donburi's null entity. Tags are
 * boolean fields.
 */
module EcsWorld {
  import opened Optional
  import opened Models

  type EntityId = nat

  /** donburi.Entity(0): no entity. */
  const NO_ENTITY: EntityId := 0

  datatype Identity = Identity(id: string, name: string, team: TeamId, isLeader: bool)

  datatype Status = Status(state: MedarotState, gauge: real, isEvasionDisabled: bool, isDefenseDisabled: bool)

  /**
   * The texts the ECS systems put in a unit's action log and in the game
   * message, by kind rather than by wording.
   */
  datatype Message =
    | NoMessage
      /** The selected part is gone: "<unit>: part broken, failed". */
    | PartFailed(actor: string)
      /** The announcement before an action: unit, part, (in systems.go) the category, and the target's name. */
    | Announce(actor: string, partName: string, category: Option<ActionCategory>, targetName: Option<string>)
      /** An action without a valid target: "<part> failed". */
    | ActionFailed(partName: string)
      /** An attack without a target: the part's (or, in systems.go, the unit's) name. */
    | TargetMissing(name: string)
      /** systems.go: a shot without a valid target. */
    | ShootFailed(actor: string)
    | Evaded(target: string)
      /** systems.go: a miss, naming the target and the attacker. */
    | EvadedBy(target: string, attacker: string)
    | NoPartToHit(target: string)
    | DamageDealt(target: string, partName: string, damage: int, before: int, after: int, critical: bool, destroyed: bool)
      /** A non-attack action: "<unit> used <part>". */
    | Used(actor: string, partName: string)
    | Victory(team: TeamId)

  datatype Action = Action(selectedPartKey: Option<Slot>, targetedMedarot: EntityId, lastActionLog: Message)

  datatype Tags = Tags(broken: bool, charging: bool, cooldown: bool, readyToExecute: bool)

  /** Which of the two control tags the entity carries. */
  datatype Control = PlayerControlled | AiControlled | NoControl

  /** A unit entity and its components. */
  datatype Unit = Unit(
    identity: Identity, medal: Medal, parts: PartMap, status: Status, action: Action,
    drawIndex: int, tags: Tags, control: Control)

  /**
   * The continuation run when a message is dismissed: the deferred action of
   * the execution system, or the return to play of a failure or a cooldown.
   */
  datatype Callback =
    | NoCallback
      /** action_execution_system.go: executeAction for the attacker, with the target decided at announcement and the balance read then. */
    | ExecuteActionCallback(attacker: EntityId, target: EntityId, targetIsValid: bool, balance: BalanceConfig)
      /** systems.go: the deferred action, which decides its target when it runs. */
    | ActualActionCallback(attacker: EntityId)
      /** handleActionFailure's continuation: back to play. */
    | ReturnToPlaying
      /** transitionToCooldown's continuation: back to play unless the state moved on. */
    | ReturnToPlayingIfMessage

  datatype GameStateRec = GameStateRec(currentState: GameState, message: Message, callback: Callback, winner: TeamId)

  datatype ActionSelect = ActionSelect(currentTarget: EntityId, availableActions: seq<Slot>, actionQueue: seq<EntityId>)

  /** The world: the unit entities and the singleton components, each of which may be missing. */
  class World {
    var units: seq<Unit>
    var gameState: Option<GameStateRec>
    var actionSelect: Option<ActionSelect>
    var config: Option<BalanceConfig>

    /** An empty world. */
    constructor ()
      ensures units == [] && gameState == None && actionSelect == None && config == None
    {
      units := [];
      gameState := None;
      actionSelect := None;
      config := None;
    }
  }

  /** World.Valid: the handle names an entity of the world. */
  predicate ValidEntity(units: seq<Unit>, e: EntityId) {
    1 <= e <= |units|
  }

  function UnitAt(units: seq<Unit>, e: EntityId): Unit
    requires ValidEntity(units, e)
  {
    units[e - 1]
  }

  /** StatusComponent.IsBroken (and systems.go's State_is_broken_internal). */
  predicate IsBroken(s: Status) {
    s.state == Broken
  }

  /** The opposing team as the AI system computes it: Team2 for Team1, Team1 for every other team. */
  function AiOpponent(t: TeamId): TeamId {
    if t == TEAM1 then TEAM2 else TEAM1
  }

  /** The opposing team as the execution and input systems compute it: Team1 for Team2, Team2 for every other team. */
  function ExecOpponent(t: TeamId): TeamId {
    if t == TEAM2 then TEAM1 else TEAM2
  }

  /** The two computations agree on the two real teams and disagree on any other. */
  lemma OpponentRules(t: TeamId)
    ensures t == TEAM1 || t == TEAM2 ==> AiOpponent(t) == ExecOpponent(t) && AiOpponent(t) != t
    ensures t != TEAM1 && t != TEAM2 ==> AiOpponent(t) == TEAM1 && ExecOpponent(t) == TEAM2
  {
  }

  /** A target the systems accept: no Broken tag, on `team`, and not in the Broken state. */
  predicate IsTargetable(u: Unit, team: TeamId) {
    !u.tags.broken && u.identity.team == team && !IsBroken(u.status)
  }

  /** The handles of the targetable units of `team`, in world order. */
  function Targets(units: seq<Unit>, team: TeamId): (r: seq<EntityId>)
    ensures forall i :: 0 <= i < |r| ==> ValidEntity(units, r[i])
  {
    if units == [] then []
    else
      var prefix := units[..|units| - 1];
      Targets(prefix, team) + (if IsTargetable(units[|units| - 1], team) then [|units|] else [])
  }

  /** A handle is listed exactly when it names a targetable unit of `team`, and the list is in world order without repeats. */
  lemma {:induction false} TargetsExact(units: seq<Unit>, team: TeamId)
    ensures forall e :: e in Targets(units, team) <==> ValidEntity(units, e) && IsTargetable(UnitAt(units, e), team)
    ensures forall i, j :: 0 <= i < j < |Targets(units, team)| ==> Targets(units, team)[i] < Targets(units, team)[j]
  {
    if units != [] {
      var prefix := units[..|units| - 1];
      TargetsExact(prefix, team);
      forall e | ValidEntity(prefix, e) ensures UnitAt(prefix, e) == UnitAt(units, e) { }
    }
  }

  /** Two worlds that agree on everything the targeting reads: tags, identities and the Broken state. */
  predicate SameTargeting(units: seq<Unit>, units': seq<Unit>) {
    && |units| == |units'|
    && forall i :: 0 <= i < |units| ==>
         units[i].tags.broken == units'[i].tags.broken && units[i].identity == units'[i].identity
         && IsBroken(units[i].status) == IsBroken(units'[i].status)
  }

  /** Replacing one unit by one that keeps its tags, identity and Broken state keeps what the targeting reads. */
  lemma SameTargetingUpdate(units: seq<Unit>, units': seq<Unit>, i: nat, v: Unit)
    requires SameTargeting(units, units') && i < |units|
    requires v.tags.broken == units[i].tags.broken && v.identity == units[i].identity
    requires IsBroken(v.status) == IsBroken(units[i].status)
    ensures SameTargeting(units[i := v], units')
  {
  }

  /** Targets depends only on the tags, teams and states of the units. */
  lemma {:induction false} TargetsFrame(units: seq<Unit>, units': seq<Unit>, team: TeamId)
    requires SameTargeting(units, units')
    ensures Targets(units, team) == Targets(units', team)
  {
    if units != [] {
      TargetsFrame(units[..|units| - 1], units'[..|units'| - 1], team);
    }
  }

  /** A trait's effect on committing an action: Aim disables evasion, Strike defense, Berserk both. */
  function WithTraitFlags(s: Status, t: ActionTrait): (r: Status)
    ensures r.state == s.state && r.gauge == s.gauge
  {
    match t
    case Aim => s.(isEvasionDisabled := true)
    case Strike => s.(isDefenseDisabled := true)
    case Berserk => s.(isEvasionDisabled := true, isDefenseDisabled := true)
    case _ => s
  }

  /** Committing never re-enables a flag, and each trait disables exactly what it names. */
  lemma TraitFlagsEffect(s: Status, t: ActionTrait)
    ensures WithTraitFlags(s, t).isEvasionDisabled <==> s.isEvasionDisabled || t == Aim || t == Berserk
    ensures WithTraitFlags(s, t).isDefenseDisabled <==> s.isDefenseDisabled || t == Strike || t == Berserk
  {
  }

  /** Whether a part's action needs a target. */
  predicate IsAttack(c: ActionCategory) {
    c == Shoot || c == Fight
  }

  /** The gauge gained per update: (charge or cooldown time + leg propulsion times the rate) / divisor. */
  function MoveSpeed(stat: int, parts: PartMap, cfg: BalanceConfig): real
    requires ValidBalance(cfg)
  {
    (stat as real + LegPropulsion(parts) as real * cfg.propulsionEffectRate) / cfg.overallTimeDivisor
  }

  /** Go's int() of a float: truncation toward zero. */
  function Trunc(x: real): int {
    if x >= 0.0 then x.Floor else -((-x).Floor)
  }

  /**
   * The tags mirror the state: the Broken tag exactly in the Broken state,
   * and on a unit without it the charging, cooldown and ready-to-execute
   * tags exactly in those states.
   */
  predicate TagsAgree(u: Unit) {
    && (u.tags.broken <==> IsBroken(u.status))
    && (!u.tags.broken ==>
          && (u.tags.charging <==> u.status.state == ActionCharging)
          && (u.tags.cooldown <==> u.status.state == ActionCooldown)
          && (u.tags.readyToExecute <==> u.status.state == ReadyToExecuteAction))
  }

  /** The part behind the unit's selected slot, broken or not, if there is one. */
  function SelectedPart(u: Unit): Option<Part> {
    if u.action.selectedPartKey.Some? && u.action.selectedPartKey.value in u.parts then
      Some(u.parts[u.action.selectedPartKey.value])
    else None
  }

  /** The intact part behind the unit's selected slot, if there is one. */
  function SelectedIntact(u: Unit): Option<Part> {
    if u.action.selectedPartKey.Some? then GetPart(u.parts, u.action.selectedPartKey.value) else None
  }
}
