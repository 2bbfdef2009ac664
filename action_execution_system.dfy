/**
 * The ECS action-execution system (action_execution_system.go): every unit
 * that is ready to execute announces its action in a message whose
 * continuation performs it; a unit whose selected part is gone fails at
 * once. The deferred action resolves the hit, damages a random intact part
 * of the target, can destroy the target through its head, and sends the
 * attacker into cooldown with a closing message.
 *
 * The random target pick, the two hit rolls and the part pick are
 * parameters.
 */
module ActionExecutionSystem {
  import opened Optional
  import opened Models
  import opened EcsWorld
  import opened ActionUtils

  /** The units the execution query visits: ready to execute and without the Broken tag. */
  predicate InExecQuery(u: Unit) {
    u.tags.readyToExecute && !u.tags.broken
  }

  /** findRandomOpponent: one of the targetable units of the opposing team, chosen by `pick`, or none. */
  function FindRandomOpponent(units: seq<Unit>, attacker: Unit, pick: nat): (r: (EntityId, bool))
    ensures r.1 ==> ValidEntity(units, r.0)
    ensures !r.1 ==> r.0 == NO_ENTITY
  {
    var candidates := Targets(units, ExecOpponent(attacker.identity.team));
    if |candidates| > 0 then (candidates[pick % |candidates|], true) else (NO_ENTITY, false)
  }

  /**
   * determineTarget: an attack keeps its intended target while that is an
   * entity not in the Broken state; a fight otherwise turns on a random
   * opponent and a shot fails; an action that is not an attack needs no
   * target.
   */
  function DetermineTarget(units: seq<Unit>, attacker: Unit, intended: EntityId, category: ActionCategory, pick: nat): (r: (EntityId, bool))
    ensures r.0 == NO_ENTITY || ValidEntity(units, r.0)
  {
    if IsAttack(category) then
      if ValidEntity(units, intended) && !IsBroken(UnitAt(units, intended).status) then (intended, true)
      else if category == Fight then FindRandomOpponent(units, attacker, pick)
      else (NO_ENTITY, false)
    else (NO_ENTITY, true)
  }

  /**
   * The target rules: an action that is not an attack is valid without a
   * target; an attack that is valid has a target that is not in the Broken
   * state, and one that changed its target is a fight that turned on a
   * targetable opponent; a shot is valid exactly when its intended target
   * is usable, and a fight fails exactly when neither its intended target
   * nor any opponent is usable. A failed attack has no target.
   */
  lemma DetermineTargetRules(units: seq<Unit>, attacker: Unit, intended: EntityId, category: ActionCategory, pick: nat)
    ensures var (target, valid) := DetermineTarget(units, attacker, intended, category, pick);
      var intendedUsable := ValidEntity(units, intended) && !IsBroken(UnitAt(units, intended).status);
      && (!IsAttack(category) ==> target == NO_ENTITY && valid)
      && (!valid ==> target == NO_ENTITY)
      && (IsAttack(category) && valid ==> ValidEntity(units, target) && !IsBroken(UnitAt(units, target).status))
      && (IsAttack(category) && valid && target != intended ==>
            category == Fight && IsTargetable(UnitAt(units, target), ExecOpponent(attacker.identity.team)))
      && (category == Shoot ==> (valid <==> intendedUsable))
      && (category == Fight ==>
            (!valid <==> !intendedUsable &&
                         forall e :: ValidEntity(units, e) ==> !IsTargetable(UnitAt(units, e), ExecOpponent(attacker.identity.team))))
  {
    var team := ExecOpponent(attacker.identity.team);
    TargetsExact(units, team);
    var candidates := Targets(units, team);
    if |candidates| > 0 {
      assert candidates[pick % |candidates|] in candidates;
      assert ValidEntity(units, candidates[0]) && IsTargetable(UnitAt(units, candidates[0]), team) by {
        assert candidates[0] in candidates;
      }
    }
  }

  /** createInitialMessage: the unit and its part, with the target's name for an attack that has one. */
  function InitialMessage(units: seq<Unit>, attacker: Unit, part: Part, target: EntityId): Message
    requires target == NO_ENTITY || ValidEntity(units, target)
  {
    Announce(attacker.identity.name, part.partName, None,
             if IsAttack(part.category) && target != NO_ENTITY then Some(UnitAt(units, target).identity.name) else None)
  }

  /** handleActionFailure's change to the unit: ready to choose at once with a full gauge, the ready tag removed, the failure logged. */
  function Failed(u: Unit): Unit {
    u.(status := u.status.(state := ReadyToSelectAction, gauge := 100.0),
       tags := u.tags.(readyToExecute := false),
       action := u.action.(lastActionLog := PartFailed(u.identity.name)))
  }

  /**
   * One queried unit's turn in Update: the unit afterwards, the message
   * shown and its continuation. The unit at index i has the handle i + 1.
   */
  function Announcement(units: seq<Unit>, i: nat, pick: nat, cfg: BalanceConfig): (Unit, Message, Callback)
    requires i < |units|
  {
    var u := units[i];
    if SelectedIntact(u).None? then (Failed(u), PartFailed(u.identity.name), ReturnToPlaying)
    else
      var part := SelectedIntact(u).value;
      var (target, valid) := DetermineTarget(units, u, u.action.targetedMedarot, part.category, pick);
      (u, InitialMessage(units, u, part, target), ExecuteActionCallback(i + 1, target, valid, cfg))
  }

  /**
   * A unit whose selected part is missing or broken fails: it is ready to
   * choose again with a full gauge and without the ready tag, and the
   * failure is shown with a return to play. Otherwise the unit is left as
   * it is and its action is announced, to be executed against the decided
   * target with the balance of this tick; the announcement names the
   * target exactly for an attack that has one.
   */
  lemma AnnouncementEffect(units: seq<Unit>, i: nat, pick: nat, cfg: BalanceConfig)
    requires i < |units|
    ensures var (v, msg, cb) := Announcement(units, i, pick, cfg);
      var u := units[i];
      && v.identity == u.identity && v.parts == u.parts && v.medal == u.medal && v.control == u.control
      && (SelectedIntact(u).None? ==>
            && v.status.state == ReadyToSelectAction && v.status.gauge == 100.0 && !v.tags.readyToExecute
            && v.action.lastActionLog == msg == PartFailed(u.identity.name) && cb == ReturnToPlaying)
      && (SelectedIntact(u).Some? ==>
            && v == u && msg.Announce? && cb.ExecuteActionCallback?
            && cb.attacker == i + 1 && cb.balance == cfg
            && (cb.target, cb.targetIsValid)
               == DetermineTarget(units, u, u.action.targetedMedarot, SelectedIntact(u).value.category, pick)
            && (msg.targetName.Some? <==> IsAttack(SelectedIntact(u).value.category) && cb.target != NO_ENTITY)
            && (msg.targetName.Some? ==> msg.targetName.value == UnitAt(units, cb.target).identity.name))
  {
  }

  /** The unit after its turn in Update: its announcement's unit when queried, itself otherwise. */
  function ExecUnit(units: seq<Unit>, i: nat, pick: nat, cfg: BalanceConfig): Unit
    requires i < |units|
  {
    if InExecQuery(units[i]) then Announcement(units, i, pick, cfg).0 else units[i]
  }

  /** The first n turns of Update, unit by unit in world order, each seeing the world the earlier ones left. */
  function Tick(units: seq<Unit>, picks: seq<nat>, cfg: BalanceConfig, gs: GameStateRec, n: nat): (r: (seq<Unit>, GameStateRec))
    requires n <= |units| == |picks|
    ensures |r.0| == |units|
  {
    if n == 0 then (units, gs)
    else
      var (us, g) := Tick(units, picks, cfg, gs, n - 1);
      if InExecQuery(us[n - 1]) then
        var a := Announcement(us, n - 1, picks[n - 1], cfg);
        (us[n - 1 := a.0], g.(message := a.1, callback := a.2, currentState := ShowingMessage))
      else (us, g)
  }

  /** The game state after the first n turns when every turn sees the world as it was before the tick. */
  function Shown(gs: GameStateRec, units: seq<Unit>, picks: seq<nat>, cfg: BalanceConfig, n: nat): (r: GameStateRec)
    requires n <= |units| == |picks|
    ensures r.winner == gs.winner
  {
    if n == 0 then gs
    else
      var g := Shown(gs, units, picks, cfg, n - 1);
      if InExecQuery(units[n - 1]) then
        var a := Announcement(units, n - 1, picks[n - 1], cfg);
        g.(message := a.1, callback := a.2, currentState := ShowingMessage)
      else g
  }

  /** A unit's announcement depends on the rest of the world only through what the targeting reads. */
  lemma AnnouncementFrame(units: seq<Unit>, units': seq<Unit>, i: nat, pick: nat, cfg: BalanceConfig)
    requires SameTargeting(units, units') && i < |units| && units[i] == units'[i]
    ensures Announcement(units, i, pick, cfg) == Announcement(units', i, pick, cfg)
  {
    TargetsFrame(units, units', ExecOpponent(units[i].identity.team));
  }

  /**
   * While no queried unit is in the Broken state, a failure never changes
   * what the targeting reads, so every turn of the tick decides as if it
   * came first: each unit ends as its own announcement makes it and the
   * game state as Shown computes it.
   */
  lemma {:induction false} TickFromStart(units: seq<Unit>, picks: seq<nat>, cfg: BalanceConfig, gs: GameStateRec, n: nat)
    requires n <= |units| == |picks|
    requires forall i :: 0 <= i < |units| && InExecQuery(units[i]) ==> !IsBroken(units[i].status)
    ensures SameTargeting(Tick(units, picks, cfg, gs, n).0, units)
    ensures forall j :: 0 <= j < n ==> Tick(units, picks, cfg, gs, n).0[j] == ExecUnit(units, j, picks[j], cfg)
    ensures forall j :: n <= j < |units| ==> Tick(units, picks, cfg, gs, n).0[j] == units[j]
    ensures Tick(units, picks, cfg, gs, n).1 == Shown(gs, units, picks, cfg, n)
  {
    if n > 0 {
      TickFromStart(units, picks, cfg, gs, n - 1);
      var (us, g) := Tick(units, picks, cfg, gs, n - 1);
      assert us[n - 1] == units[n - 1];
      if InExecQuery(us[n - 1]) {
        AnnouncementFrame(us, units, n - 1, picks[n - 1], cfg);
      }
    }
  }

  /**
   * Only the last announcement of a tick is kept: with no queried unit the
   * game state is untouched, and otherwise it shows the message and
   * continuation of the last queried unit in world order.
   */
  lemma {:induction false} LastAnnouncementShown(gs: GameStateRec, units: seq<Unit>, picks: seq<nat>, cfg: BalanceConfig, n: nat)
    requires n <= |units| == |picks|
    ensures (forall k :: 0 <= k < n ==> !InExecQuery(units[k])) ==> Shown(gs, units, picks, cfg, n) == gs
    ensures forall j :: 0 <= j < n && InExecQuery(units[j]) && (forall k :: j < k < n ==> !InExecQuery(units[k])) ==>
      Shown(gs, units, picks, cfg, n)
      == gs.(message := Announcement(units, j, picks[j], cfg).1, callback := Announcement(units, j, picks[j], cfg).2,
             currentState := ShowingMessage)
  {
    NothingShown(gs, units, picks, cfg, n);
    forall j | 0 <= j < n && InExecQuery(units[j]) && (forall k :: j < k < n ==> !InExecQuery(units[k]))
      ensures Shown(gs, units, picks, cfg, n)
        == gs.(message := Announcement(units, j, picks[j], cfg).1, callback := Announcement(units, j, picks[j], cfg).2,
               currentState := ShowingMessage)
    {
      LastShownAt(gs, units, picks, cfg, n, j);
    }
  }

  lemma {:induction false} NothingShown(gs: GameStateRec, units: seq<Unit>, picks: seq<nat>, cfg: BalanceConfig, n: nat)
    requires n <= |units| == |picks|
    ensures (forall k :: 0 <= k < n ==> !InExecQuery(units[k])) ==> Shown(gs, units, picks, cfg, n) == gs
  {
    if n > 0 {
      NothingShown(gs, units, picks, cfg, n - 1);
    }
  }

  lemma {:induction false} LastShownAt(gs: GameStateRec, units: seq<Unit>, picks: seq<nat>, cfg: BalanceConfig,
                                       n: nat, j: nat)
    requires n <= |units| == |picks| && j < n && InExecQuery(units[j])
    requires forall k :: j < k < n ==> !InExecQuery(units[k])
    ensures Shown(gs, units, picks, cfg, n)
      == gs.(message := Announcement(units, j, picks[j], cfg).1, callback := Announcement(units, j, picks[j], cfg).2,
             currentState := ShowingMessage)
  {
    if j < n - 1 {
      assert !InExecQuery(units[n - 1]);
      LastShownAt(gs, units, picks, cfg, n - 1, j);
    }
  }

  /**
   * ActionExecutionSystem.Update: with the balance present, every queried
   * unit takes its turn in world order. Each announcement overwrites the
   * message and continuation of the one before.
   */
  method Update(w: World, picks: seq<nat>)
    requires |picks| == |w.units|
    requires w.config.Some? && w.gameState.None? ==> forall i :: 0 <= i < |w.units| ==> !InExecQuery(w.units[i])
    modifies w
    ensures w.actionSelect == old(w.actionSelect) && w.config == old(w.config)
    ensures old(w.config).None? || old(w.gameState).None? ==> w.units == old(w.units) && w.gameState == old(w.gameState)
    ensures old(w.config).Some? && old(w.gameState).Some? ==>
      && w.gameState.Some?
      && (w.units, w.gameState.value)
         == Tick(old(w.units), picks, old(w.config).value, old(w.gameState).value, |old(w.units)|)
  {
    if w.config.None? || w.gameState.None? {
      return;
    }
    var cfg := w.config.value;
    ghost var gs0 := w.gameState.value;
    var i := 0;
    while i < |w.units|
      invariant 0 <= i <= |w.units| == |old(w.units)|
      invariant w.actionSelect == old(w.actionSelect) && w.config == old(w.config) && w.gameState.Some?
      invariant (w.units, w.gameState.value) == Tick(old(w.units), picks, cfg, gs0, i)
    {
      ghost var prev := (w.units, w.gameState.value);
      if InExecQuery(w.units[i]) {
        if SelectedIntact(w.units[i]).None? {
          HandleActionFailure(w, i);
        } else {
          var v, msg, cb := AnnounceFor(w.units, i, picks[i], cfg);
          assert w.units[i := v] == w.units;
          var _ := ShowGameMessage(w, msg, cb);
        }
      }
      assert Tick(old(w.units), picks, cfg, gs0, i + 1) == (w.units, w.gameState.value) by {
        assert prev == Tick(old(w.units), picks, cfg, gs0, i);
      }
      i := i + 1;
    }
  }

  /** handleActionFailure for the unit at index i: the failure's change and its message with a return to play. */
  method HandleActionFailure(w: World, i: nat)
    requires i < |w.units| && w.gameState.Some?
    modifies w
    ensures w.units == old(w.units)[i := Failed(old(w.units)[i])]
    ensures w.gameState == Some(old(w.gameState).value.(message := PartFailed(old(w.units)[i].identity.name),
                                                         callback := ReturnToPlaying, currentState := ShowingMessage))
    ensures w.actionSelect == old(w.actionSelect) && w.config == old(w.config)
  {
    var u := w.units[i];
    var logMsg := PartFailed(u.identity.name);
    u := u.(status := u.status.(state := ReadyToSelectAction, gauge := 100.0));
    u := u.(tags := u.tags.(readyToExecute := false));
    u := u.(action := u.action.(lastActionLog := logMsg));
    w.units := w.units[i := u];
    var _ := ShowGameMessage(w, logMsg, ReturnToPlaying);
  }

  /** The body of the query loop for one unit, step by step, before the message is shown. */
  method AnnounceFor(units: seq<Unit>, i: nat, pick: nat, cfg: BalanceConfig) returns (v: Unit, msg: Message, cb: Callback)
    requires i < |units|
    ensures (v, msg, cb) == Announcement(units, i, pick, cfg)
  {
    var u := units[i];
    var selected := SelectedIntact(u);
    if selected.None? {
      return Failed(u), PartFailed(u.identity.name), ReturnToPlaying;
    }
    var target, valid := DetermineTarget(units, u, u.action.targetedMedarot, selected.value.category, pick).0,
                         DetermineTarget(units, u, u.action.targetedMedarot, selected.value.category, pick).1;
    return u, InitialMessage(units, u, selected.value, target), ExecuteActionCallback(i + 1, target, valid, cfg);
  }

  /** handleHeadDestruction: the Broken tag, the Broken state and an empty gauge, unless the unit is already tagged. */
  function HeadDestroyed(u: Unit): Unit {
    if u.tags.broken then u
    else u.(tags := u.tags.(broken := true), status := u.status.(state := Broken, gauge := 0.0))
  }

  /**
   * performAttack on the world: the units afterwards and the log. A miss or
   * a target without intact parts changes nothing; a hit damages one
   * intact part, and a head whose armor runs out destroys the target.
   */
  function AttackOutcome(units: seq<Unit>, attacker: EntityId, target: EntityId, cfg: BalanceConfig,
                         hitRoll: int, critRoll: int, pick: nat): (r: (seq<Unit>, Message))
    requires ValidEntity(units, attacker) && ValidEntity(units, target)
    requires SelectedPart(UnitAt(units, attacker)).Some?
    ensures |r.0| == |units|
  {
    var a := UnitAt(units, attacker);
    var part := SelectedPart(a).value;
    var t := UnitAt(units, target);
    var (isHit, isCritical) := CalculateHit(a.medal, part, t.status, t.parts, cfg, hitRoll, critRoll);
    if !isHit then (units, Evaded(t.identity.name))
    else
      match PartToDamage(t.parts, pick)
      case None => (units, NoPartToHit(t.identity.name))
      case Some(slot) =>
        var hit := t.parts[slot];
        var damage := CalculateDamage(a.parts, a.medal, part, hit, t.parts, isCritical, cfg, t.status.isDefenseDisabled);
        var after := Damaged(hit, damage);
        var damaged := t.(parts := t.parts[slot := after]);
        var t' := if after.isBroken && !hit.isBroken && hit.partType == HeadType then HeadDestroyed(damaged) else damaged;
        (units[target - 1 := t'],
         DamageDealt(t.identity.name, hit.partName, damage, hit.armor, after.armor, isCritical, after.isBroken && hit.armor > 0))
  }

  /**
   * What an attack does: only the target can change, and only in its parts
   * and, through a destroyed head, its tags and status. A miss is logged as
   * evaded and a target without intact parts as having nothing to hit. A
   * hit lands on an intact slot, whose armor drops by the damage to no less
   * than 0 and which breaks exactly when it reaches 0; no other part
   * changes. A head broken this way gives a target that was not yet tagged
   * the Broken tag, the Broken state and an empty gauge.
   */
  lemma AttackOutcomeEffect(units: seq<Unit>, attacker: EntityId, target: EntityId, cfg: BalanceConfig,
                            hitRoll: int, critRoll: int, pick: nat)
    requires ValidEntity(units, attacker) && ValidEntity(units, target)
    requires SelectedPart(UnitAt(units, attacker)).Some?
    ensures var (after, log) := AttackOutcome(units, attacker, target, cfg, hitRoll, critRoll, pick);
      var t := UnitAt(units, target);
      var t' := UnitAt(after, target);
      && (forall i :: 0 <= i < |units| && i != target - 1 ==> after[i] == units[i])
      && t'.identity == t.identity && t'.medal == t.medal && t'.action == t.action && t'.control == t.control
      && t'.parts.Keys == t.parts.Keys
      && (log.Evaded? || log.NoPartToHit? ==> after == units)
      && (log.NoPartToHit? ==> forall k :: k in ALL_SLOTS ==> GetPart(t.parts, k).None?)
      && (log.DamageDealt? ==>
            && PartToDamage(t.parts, pick).Some?
            && var slot := PartToDamage(t.parts, pick).value;
            && slot in t.parts && !t.parts[slot].isBroken
            && log.damage == CalculateDamage(UnitAt(units, attacker).parts, UnitAt(units, attacker).medal,
                                             SelectedPart(UnitAt(units, attacker)).value, t.parts[slot], t.parts,
                                             log.critical, cfg, t.status.isDefenseDisabled)
            && t'.parts == t.parts[slot := t'.parts[slot]]
            && t'.parts[slot].armor == Max(0, t.parts[slot].armor - log.damage) == log.after
            && log.before == t.parts[slot].armor
            && (t'.parts[slot].isBroken <==> t'.parts[slot].armor == 0)
            && (t.parts[slot].partType == HeadType && t'.parts[slot].isBroken && !t.tags.broken ==>
                  t'.tags.broken && t'.status.state == Broken && t'.status.gauge == 0.0)
            && (!(t.parts[slot].partType == HeadType && t'.parts[slot].isBroken) ==>
                  t'.tags == t.tags && t'.status == t.status))
      && (log.Evaded? || log.NoPartToHit? || log.DamageDealt?)
  {
    var a := UnitAt(units, attacker);
    var t := UnitAt(units, target);
    var part := SelectedPart(a).value;
    var (isHit, isCritical) := CalculateHit(a.medal, part, t.status, t.parts, cfg, hitRoll, critRoll);
    if isHit {
      PartToDamageExact(t.parts, pick);
      var choice := PartToDamage(t.parts, pick);
      if choice.Some? {
        var slot := choice.value;
        var damage := CalculateDamage(a.parts, a.medal, part, t.parts[slot], t.parts, isCritical, cfg, t.status.isDefenseDisabled);
        DamagedEffect(t.parts[slot], damage);
      }
    }
  }

  /**
   * performAttack on the world, step by step: the damaged part is written
   * back to the target, then a destroyed head breaks the target.
   */
  method PerformAttack(w: World, attacker: EntityId, target: EntityId, cfg: BalanceConfig,
                       hitRoll: int, critRoll: int, pick: nat) returns (log: Message)
    requires ValidEntity(w.units, attacker) && ValidEntity(w.units, target)
    requires SelectedPart(UnitAt(w.units, attacker)).Some?
    modifies w
    ensures (w.units, log) == AttackOutcome(old(w.units), attacker, target, cfg, hitRoll, critRoll, pick)
    ensures w.gameState == old(w.gameState) && w.actionSelect == old(w.actionSelect) && w.config == old(w.config)
  {
    var a := w.units[attacker - 1];
    var part := SelectedPart(a).value;
    var t := w.units[target - 1];
    var hitResult := CalculateHit(a.medal, part, t.status, t.parts, cfg, hitRoll, critRoll);
    var isHit, isCritical := hitResult.0, hitResult.1;
    if !isHit {
      return Evaded(t.identity.name);
    }
    var choice := SelectRandomPartToDamage(t.parts, pick);
    if choice.None? {
      return NoPartToHit(t.identity.name);
    }
    var slot := choice.value;
    var hit := t.parts[slot];
    var damage := CalculateDamage(a.parts, a.medal, part, hit, t.parts, isCritical, cfg, t.status.isDefenseDisabled);
    var after := hit.(armor := hit.armor - damage);
    var headDestroyed := false;
    if after.armor <= 0 {
      after := after.(armor := 0);
      if !after.isBroken {
        after := after.(isBroken := true);
        headDestroyed := after.partType == HeadType;
      }
    }
    assert after == Damaged(hit, damage);
    w.units := w.units[target - 1 := t.(parts := t.parts[slot := after])];
    if headDestroyed {
      HandleHeadDestruction(w, target);
    }
    log := DamageDealt(t.identity.name, hit.partName, damage, hit.armor, after.armor, isCritical, after.isBroken && hit.armor > 0);
    assert log == AttackOutcome(old(w.units), attacker, target, cfg, hitRoll, critRoll, pick).1;
    assert w.units == AttackOutcome(old(w.units), attacker, target, cfg, hitRoll, critRoll, pick).0;
  }

  /** handleHeadDestruction on the world. */
  method HandleHeadDestruction(w: World, target: EntityId)
    requires ValidEntity(w.units, target)
    modifies w
    ensures w.units == old(w.units)[target - 1 := HeadDestroyed(old(w.units)[target - 1])]
    ensures w.gameState == old(w.gameState) && w.actionSelect == old(w.actionSelect) && w.config == old(w.config)
  {
    var t := w.units[target - 1];
    if !t.tags.broken {
      t := t.(tags := t.tags.(broken := true));
      t := t.(status := t.status.(state := Broken, gauge := 0.0));
      w.units := w.units[target - 1 := t];
    }
  }

  /** transitionToCooldown's change to the unit: cooling down from an empty gauge, the ready tag swapped for the cooldown tag. */
  function Cooldown(u: Unit): Unit {
    u.(status := u.status.(state := ActionCooldown, gauge := 0.0),
       tags := u.tags.(readyToExecute := false, cooldown := true))
  }

  /**
   * executeAction on the world: the units afterwards and the log. An
   * invalid target fails the action, an attack without a target finds
   * none, an attack with one is performed, anything else is simply used;
   * the attacker, as the action left it, then logs the result and cools
   * down.
   */
  function ExecuteOutcome(units: seq<Unit>, attacker: EntityId, target: EntityId, targetIsValid: bool,
                          cfg: BalanceConfig, hitRoll: int, critRoll: int, pick: nat): (r: (seq<Unit>, Message))
    requires ValidEntity(units, attacker) && (target == NO_ENTITY || ValidEntity(units, target))
    requires SelectedPart(UnitAt(units, attacker)).Some?
    ensures |r.0| == |units|
  {
    var u := UnitAt(units, attacker);
    var part := SelectedPart(u).value;
    var (after, log) :=
      if !targetIsValid then (units, ActionFailed(part.partName))
      else if IsAttack(part.category) then
        if target == NO_ENTITY then (units, TargetMissing(part.partName))
        else AttackOutcome(units, attacker, target, cfg, hitRoll, critRoll, pick)
      else (units, Used(u.identity.name, part.partName));
    var a := after[attacker - 1];
    (after[attacker - 1 := Cooldown(a.(action := a.action.(lastActionLog := log)))], log)
  }

  /**
   * What an executed action does: the attacker ends cooling down from an
   * empty gauge with the cooldown tag instead of the ready tag and the
   * result in its log; only an attack on a target can change another
   * unit, and then only that target.
   */
  lemma ExecuteOutcomeEffect(units: seq<Unit>, attacker: EntityId, target: EntityId, targetIsValid: bool,
                             cfg: BalanceConfig, hitRoll: int, critRoll: int, pick: nat)
    requires ValidEntity(units, attacker) && (target == NO_ENTITY || ValidEntity(units, target))
    requires SelectedPart(UnitAt(units, attacker)).Some?
    ensures var (after, log) := ExecuteOutcome(units, attacker, target, targetIsValid, cfg, hitRoll, critRoll, pick);
      var a := UnitAt(after, attacker);
      var part := SelectedPart(UnitAt(units, attacker)).value;
      && a.status.state == ActionCooldown && a.status.gauge == 0.0
      && a.tags.cooldown && !a.tags.readyToExecute && a.action.lastActionLog == log
      && a.identity == UnitAt(units, attacker).identity
      && (!targetIsValid ==> log == ActionFailed(part.partName))
      && (targetIsValid && !IsAttack(part.category) ==> log == Used(UnitAt(units, attacker).identity.name, part.partName))
      && (targetIsValid && IsAttack(part.category) && target == NO_ENTITY ==> log == TargetMissing(part.partName))
      && (forall i :: 0 <= i < |units| && i != attacker - 1 && i != target - 1 ==> after[i] == units[i])
      && (!(targetIsValid && IsAttack(part.category) && target != NO_ENTITY) ==>
            forall i :: 0 <= i < |units| && i != attacker - 1 ==> after[i] == units[i])
  {
    var u := UnitAt(units, attacker);
    var part := SelectedPart(u).value;
    if targetIsValid && IsAttack(part.category) && target != NO_ENTITY {
      AttackOutcomeEffect(units, attacker, target, cfg, hitRoll, critRoll, pick);
    }
  }

  /** The parts of every unit before and after: the same slots, armor never above what it was (or 0), broken parts still broken. */
  predicate NeverMended(units: seq<Unit>, after: seq<Unit>)
    requires |after| == |units|
  {
    forall i, k :: 0 <= i < |units| && k in units[i].parts ==>
      && k in after[i].parts && after[i].parts[k].armor <= Max(0, units[i].parts[k].armor)
      && (units[i].parts[k].isBroken ==> after[i].parts[k].isBroken)
  }

  /** An attack whose critical multiplier is not negative mends no part. */
  lemma AttackNeverMends(units: seq<Unit>, attacker: EntityId, target: EntityId, cfg: BalanceConfig,
                         hitRoll: int, critRoll: int, pick: nat)
    requires ValidEntity(units, attacker) && ValidEntity(units, target)
    requires SelectedPart(UnitAt(units, attacker)).Some?
    requires cfg.criticalMultiplier >= 0.0
    ensures NeverMended(units, AttackOutcome(units, attacker, target, cfg, hitRoll, critRoll, pick).0)
  {
    AttackOutcomeEffect(units, attacker, target, cfg, hitRoll, critRoll, pick);
    var (after, log) := AttackOutcome(units, attacker, target, cfg, hitRoll, critRoll, pick);
    var u := UnitAt(units, attacker);
    var t := UnitAt(units, target);
    if log.DamageDealt? {
      var slot := PartToDamage(t.parts, pick).value;
      DamageNonNegative(u.parts, u.medal, SelectedPart(u).value, t.parts[slot], t.parts, log.critical, cfg,
                        t.status.isDefenseDisabled);
    }
    forall i, k | 0 <= i < |units| && k in units[i].parts
      ensures && k in after[i].parts && after[i].parts[k].armor <= Max(0, units[i].parts[k].armor)
              && (units[i].parts[k].isBroken ==> after[i].parts[k].isBroken)
    {
      if i == target - 1 {
        assert units[i] == t && after[i] == UnitAt(after, target);
      }
    }
  }

  /** No executed action mends a part, when the critical multiplier is not negative. */
  lemma ExecuteNeverMends(units: seq<Unit>, attacker: EntityId, target: EntityId, targetIsValid: bool,
                          cfg: BalanceConfig, hitRoll: int, critRoll: int, pick: nat)
    requires ValidEntity(units, attacker) && (target == NO_ENTITY || ValidEntity(units, target))
    requires SelectedPart(UnitAt(units, attacker)).Some?
    requires cfg.criticalMultiplier >= 0.0
    ensures NeverMended(units, ExecuteOutcome(units, attacker, target, targetIsValid, cfg, hitRoll, critRoll, pick).0)
  {
    var part := SelectedPart(UnitAt(units, attacker)).value;
    var mid := if targetIsValid && IsAttack(part.category) && target != NO_ENTITY
               then AttackOutcome(units, attacker, target, cfg, hitRoll, critRoll, pick).0 else units;
    if targetIsValid && IsAttack(part.category) && target != NO_ENTITY {
      AttackNeverMends(units, attacker, target, cfg, hitRoll, critRoll, pick);
    }
    var after := ExecuteOutcome(units, attacker, target, targetIsValid, cfg, hitRoll, critRoll, pick).0;
    assert forall i :: 0 <= i < |units| ==> after[i].parts == mid[i].parts;
  }

  /**
   * executeAction on the world, step by step: the action, then the log,
   * then the cooldown and the closing message, which returns to play when
   * dismissed unless the state has moved on.
   */
  method ExecuteAction(w: World, attacker: EntityId, target: EntityId, targetIsValid: bool,
                       cfg: BalanceConfig, hitRoll: int, critRoll: int, pick: nat)
    requires w.gameState.Some?
    requires ValidEntity(w.units, attacker) && (target == NO_ENTITY || ValidEntity(w.units, target))
    requires SelectedPart(UnitAt(w.units, attacker)).Some?
    modifies w
    ensures w.gameState.Some?
    ensures (w.units, w.gameState.value.message)
      == ExecuteOutcome(old(w.units), attacker, target, targetIsValid, cfg, hitRoll, critRoll, pick)
    ensures w.gameState.value
      == old(w.gameState).value.(message := w.gameState.value.message, callback := ReturnToPlayingIfMessage,
                                 currentState := ShowingMessage)
    ensures w.actionSelect == old(w.actionSelect) && w.config == old(w.config)
  {
    var u := w.units[attacker - 1];
    var part := SelectedPart(u).value;
    var logMsg: Message;
    if !targetIsValid {
      logMsg := ActionFailed(part.partName);
    } else if IsAttack(part.category) {
      if target == NO_ENTITY {
        logMsg := TargetMissing(part.partName);
      } else {
        logMsg := PerformAttack(w, attacker, target, cfg, hitRoll, critRoll, pick);
      }
    } else {
      logMsg := Used(u.identity.name, part.partName);
    }
    ghost var mid := w.units;
    assert (mid, logMsg) == (if !targetIsValid then (old(w.units), ActionFailed(part.partName))
      else if IsAttack(part.category) then
        if target == NO_ENTITY then (old(w.units), TargetMissing(part.partName))
        else AttackOutcome(old(w.units), attacker, target, cfg, hitRoll, critRoll, pick)
      else (old(w.units), Used(u.identity.name, part.partName)));
    var a := w.units[attacker - 1];
    w.units := w.units[attacker - 1 := a.(action := a.action.(lastActionLog := logMsg))];
    TransitionToCooldown(w, attacker, logMsg);
    assert w.units == mid[attacker - 1 := Cooldown(a.(action := a.action.(lastActionLog := logMsg)))];
  }

  /** transitionToCooldown on the world: the cooldown change and the closing message. */
  method TransitionToCooldown(w: World, attacker: EntityId, logMsg: Message)
    requires w.gameState.Some? && ValidEntity(w.units, attacker)
    modifies w
    ensures w.units == old(w.units)[attacker - 1 := Cooldown(old(w.units)[attacker - 1])]
    ensures w.gameState == Some(old(w.gameState).value.(message := logMsg, callback := ReturnToPlayingIfMessage,
                                                         currentState := ShowingMessage))
    ensures w.actionSelect == old(w.actionSelect) && w.config == old(w.config)
  {
    var u := w.units[attacker - 1];
    u := u.(status := u.status.(state := ActionCooldown, gauge := 0.0));
    u := u.(tags := u.tags.(readyToExecute := false, cooldown := true));
    w.units := w.units[attacker - 1 := u];
    var _ := ShowGameMessage(w, logMsg, ReturnToPlayingIfMessage);
  }

  /**
   * The tags keep mirroring the state through an executed action, when the
   * attacker, ready to execute and untagged, does not target itself.
   */
  lemma ExecuteKeepsTags(units: seq<Unit>, attacker: EntityId, target: EntityId, targetIsValid: bool,
                         cfg: BalanceConfig, hitRoll: int, critRoll: int, pick: nat)
    requires ValidEntity(units, attacker) && (target == NO_ENTITY || ValidEntity(units, target))
    requires SelectedPart(UnitAt(units, attacker)).Some? && target != attacker
    requires forall i :: 0 <= i < |units| ==> TagsAgree(units[i])
    requires InExecQuery(UnitAt(units, attacker))
    ensures var (after, _) := ExecuteOutcome(units, attacker, target, targetIsValid, cfg, hitRoll, critRoll, pick);
      forall i :: 0 <= i < |after| ==> TagsAgree(after[i])
  {
    var u := UnitAt(units, attacker);
    var part := SelectedPart(u).value;
    if targetIsValid && IsAttack(part.category) && target != NO_ENTITY {
      AttackOutcomeEffect(units, attacker, target, cfg, hitRoll, critRoll, pick);
    }
  }

  /** A failure keeps the tags mirroring the state of a unit that was ready to execute. */
  lemma FailedKeepsTags(u: Unit)
    requires TagsAgree(u) && InExecQuery(u)
    ensures TagsAgree(Failed(u))
  {
  }

  /** The failure message's continuation: back to play. */
  function AfterFailureMessage(gs: GameStateRec): GameStateRec {
    gs.(currentState := Playing)
  }

  /** The cooldown message's continuation: back to play only if the message state is still current. */
  function AfterCooldownMessage(gs: GameStateRec): GameStateRec {
    if gs.currentState == ShowingMessage then gs.(currentState := Playing) else gs
  }

  /**
   * Both continuations leave the message state and touch nothing but the
   * state; the cooldown's keeps a game that ended in the meantime over,
   * while the failure's returns to play even from a finished game.
   */
  lemma ContinuationRules(gs: GameStateRec)
    ensures AfterFailureMessage(gs).currentState == Playing
    ensures AfterCooldownMessage(gs).currentState != ShowingMessage
    ensures gs.currentState == GameOver ==> AfterCooldownMessage(gs).currentState == GameOver
    ensures gs.currentState != ShowingMessage ==> AfterCooldownMessage(gs) == gs
    ensures AfterFailureMessage(gs) == gs.(currentState := AfterFailureMessage(gs).currentState)
    ensures AfterCooldownMessage(gs) == gs.(currentState := AfterCooldownMessage(gs).currentState)
  {
  }
}
