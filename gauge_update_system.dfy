/**
 * The ECS gauge system (gauge_update_system.go): on every tick outside a
 * message, each unit without the Broken tag that is charging or cooling
 * down advances its gauge by its selected part's charge or cooldown time
 * and its legs' propulsion; a broken head breaks the unit.
 */
module GaugeUpdateSystem {
  import opened Optional
  import opened Models
  import opened EcsWorld

  /**
   * resetToActionSelect: ready to choose again at once, with both flags,
   * the target and the selection cleared and the charging and cooldown tags
   * removed.
   */
  function ResetToActionSelect(u: Unit): Unit {
    u.(status := u.status.(state := ReadyToSelectAction, gauge := 100.0,
                           isEvasionDisabled := false, isDefenseDisabled := false),
       tags := u.tags.(charging := false, cooldown := false),
       action := u.action.(targetedMedarot := NO_ENTITY, selectedPartKey := None))
  }

  /** Whether the system runs this tick: the game state and the configuration exist and no message is showing. */
  predicate Runs(gs: Option<GameStateRec>, cfg: Option<BalanceConfig>) {
    gs.Some? && cfg.Some? && gs.value.currentState != ShowingMessage
  }

  /** One unit's update. */
  function GaugeStep(u: Unit, cfg: BalanceConfig): Unit
    requires ValidBalance(cfg)
  {
    if u.tags.broken then u
    else if HeadSlot in u.parts && u.parts[HeadSlot].isBroken then
      u.(tags := u.tags.(broken := true), status := u.status.(state := Broken, gauge := 0.0))
    else if u.status.state != ActionCharging && u.status.state != ActionCooldown then u
    else if SelectedIntact(u).None? then ResetToActionSelect(u)
    else
      var part := SelectedIntact(u).value;
      var stat := if u.status.state == ActionCharging then part.charge else part.cooldown;
      var gauge := u.status.gauge + MoveSpeed(stat, u.parts, cfg);
      if gauge < 100.0 then u.(status := u.status.(gauge := gauge))
      else if u.status.state == ActionCharging then
        u.(status := u.status.(gauge := 100.0, state := ReadyToExecuteAction),
           tags := u.tags.(charging := false, readyToExecute := true))
      else ResetToActionSelect(u)
  }

  /**
   * What one update does to a unit: a Broken-tagged unit is skipped; a
   * broken head gives the Broken tag, the Broken state and an empty gauge;
   * only charging and cooldown move; a lost selected part resets to action
   * selection; a full charge becomes ready to execute with the tags
   * swapped, a full cooldown resets to action selection. The gauge never
   * passes 100, and identity, medal and parts never change.
   */
  lemma GaugeStepEffect(u: Unit, cfg: BalanceConfig)
    requires ValidBalance(cfg)
    ensures var v := GaugeStep(u, cfg);
      var headBroken := HeadSlot in u.parts && u.parts[HeadSlot].isBroken;
      && v.identity == u.identity && v.medal == u.medal && v.parts == u.parts
      && (u.tags.broken ==> v == u)
      && (!u.tags.broken && headBroken ==>
            v.tags.broken && v.status.state == Broken && v.status.gauge == 0.0)
      && (!u.tags.broken && !headBroken && u.status.state !in {ActionCharging, ActionCooldown} ==> v == u)
      && ((!u.tags.broken && !headBroken && u.status.state in {ActionCharging, ActionCooldown} &&
           SelectedIntact(u).None?) ==> v == ResetToActionSelect(u))
      && (!u.tags.broken && !headBroken && u.status.state == ActionCharging && SelectedIntact(u).Some? ==>
            var g := u.status.gauge + MoveSpeed(SelectedIntact(u).value.charge, u.parts, cfg);
            if g >= 100.0 then v.status.state == ReadyToExecuteAction && v.status.gauge == 100.0
                               && !v.tags.charging && v.tags.readyToExecute
            else v == u.(status := u.status.(gauge := g)))
      && ((!u.tags.broken && !headBroken && u.status.state == ActionCooldown && SelectedIntact(u).Some? &&
           u.status.gauge + MoveSpeed(SelectedIntact(u).value.cooldown, u.parts, cfg) >= 100.0) ==>
            v == ResetToActionSelect(u))
      && (u.status.gauge <= 100.0 ==> v.status.gauge <= 100.0)
  {
  }

  /** The reset makes the unit ready to choose with a full gauge and nothing selected. */
  lemma ResetEffect(u: Unit)
    ensures var v := ResetToActionSelect(u);
      && v.status.state == ReadyToSelectAction && v.status.gauge == 100.0
      && !v.status.isEvasionDisabled && !v.status.isDefenseDisabled
      && v.action.targetedMedarot == NO_ENTITY && v.action.selectedPartKey.None?
      && !v.tags.charging && !v.tags.cooldown
      && v.tags.broken == u.tags.broken && v.tags.readyToExecute == u.tags.readyToExecute
      && v.parts == u.parts && v.identity == u.identity
  {
  }

  /** An update keeps the tags in agreement with the state. */
  lemma GaugeStepKeepsTags(u: Unit, cfg: BalanceConfig)
    requires ValidBalance(cfg) && TagsAgree(u)
    ensures TagsAgree(GaugeStep(u, cfg))
  {
  }

  /** The body of the query loop for one unit, step by step. */
  method UpdateEntity(u: Unit, cfg: BalanceConfig) returns (v: Unit)
    requires ValidBalance(cfg)
    ensures v == GaugeStep(u, cfg)
  {
    v := u;
    if u.tags.broken {
      return;
    }
    if HeadSlot in u.parts && u.parts[HeadSlot].isBroken {
      v := v.(tags := v.tags.(broken := true));
      v := v.(status := v.status.(state := Broken, gauge := 0.0));
      return;
    }
    var baseStat := 0;
    var selected := SelectedIntact(u);
    match u.status.state {
      case ActionCharging =>
        if selected.None? {
          v := ResetToActionSelect(v);
          return;
        }
        baseStat := selected.value.charge;
      case ActionCooldown =>
        if selected.None? {
          v := ResetToActionSelect(v);
          return;
        }
        baseStat := selected.value.cooldown;
      case _ =>
        return;
    }
    var status := v.status.(gauge := v.status.gauge + MoveSpeed(baseStat, u.parts, cfg));
    if status.gauge >= 100.0 {
      status := status.(gauge := 100.0);
      if status.state == ActionCharging {
        status := status.(state := ReadyToExecuteAction);
        v := v.(tags := v.tags.(charging := false, readyToExecute := true));
      } else if status.state == ActionCooldown {
        v := ResetToActionSelect(v.(status := status));
        return;
      }
    }
    v := v.(status := status);
  }

  /** GaugeUpdateSystem.Update: every unit takes one step, unless a message is showing or a singleton is missing. */
  method Update(w: World)
    requires w.config.Some? ==> ValidBalance(w.config.value)
    modifies w
    ensures w.gameState == old(w.gameState) && w.actionSelect == old(w.actionSelect) && w.config == old(w.config)
    ensures |w.units| == |old(w.units)|
    ensures !Runs(old(w.gameState), old(w.config)) ==> w.units == old(w.units)
    ensures Runs(old(w.gameState), old(w.config)) ==>
      forall i :: 0 <= i < |w.units| ==> w.units[i] == GaugeStep(old(w.units)[i], w.config.value)
  {
    if w.gameState.None? || w.config.None? || w.gameState.value.currentState == ShowingMessage {
      return;
    }
    var cfg := w.config.value;
    var i := 0;
    while i < |w.units|
      invariant 0 <= i <= |w.units| == |old(w.units)|
      invariant w.gameState == old(w.gameState) && w.actionSelect == old(w.actionSelect) && w.config == old(w.config)
      invariant forall j :: 0 <= j < i ==> w.units[j] == GaugeStep(old(w.units)[j], cfg)
      invariant forall j :: i <= j < |w.units| ==> w.units[j] == old(w.units)[j]
    {
      var v := UpdateEntity(w.units[i], cfg);
      w.units := w.units[i := v];
      i := i + 1;
    }
  }
}
