/**
 * The bundled copy of the ECS systems (systems.go). Its gauge, input, AI,
 * execution and rule systems follow the split files with their own
 * differences: the gauge runs even while a message shows and keeps the
 * target when the selected part is lost; the input system ends the update
 * after enqueueing and skips buttons of missing parts; the AI always
 * assigns a target and needs an opponent even for a non-attack part; the
 * execution system decides the target only when the announcement is
 * dismissed, retargets a melee attack at a random opponent, and attacks
 * any valid target whatever the part's category; the rule system counts
 * only Team1 and Team2. Its hit, part and damage helpers are those of
 * ActionUtils, which they equal line for line.
 */
module Systems {
  import opened Optional
  import opened Models
  import opened EcsWorld
  import opened ActionUtils
  import GaugeUpdateSystem
  import PlayerInputSystem
  import AiSystem
  import ActionExecutionSystem
  import GameRuleSystem

  // ---------------------------------------------------------------------
  // GaugeUpdateSystem
  // ---------------------------------------------------------------------

  /**
   * The loss of the selected part while charging or cooling down: ready to
   * choose with a full gauge, no selection, both flags and the charging and
   * cooldown tags cleared; the target stays.
   */
  function LostPartReset(u: Unit): Unit {
    u.(status := u.status.(state := ReadyToSelectAction, gauge := 100.0,
                           isEvasionDisabled := false, isDefenseDisabled := false),
       action := u.action.(selectedPartKey := None),
       tags := u.tags.(charging := false, cooldown := false))
  }

  /**
   * A full cooldown: ready to choose with a full gauge, both flags, the
   * target and the selection cleared, and the cooldown tag removed.
   */
  function CooldownComplete(u: Unit): Unit {
    u.(status := u.status.(state := ReadyToSelectAction, gauge := 100.0,
                           isEvasionDisabled := false, isDefenseDisabled := false),
       action := u.action.(targetedMedarot := NO_ENTITY, selectedPartKey := None),
       tags := u.tags.(cooldown := false))
  }

  /** One unit's gauge update. */
  function GaugeStep(u: Unit, cfg: BalanceConfig): Unit
    requires ValidBalance(cfg)
  {
    if u.tags.broken then u
    else if HeadSlot in u.parts && u.parts[HeadSlot].isBroken then ActionExecutionSystem.HeadDestroyed(u)
    else if u.status.state != ActionCharging && u.status.state != ActionCooldown then u
    else if SelectedIntact(u).None? then LostPartReset(u)
    else
      var part := SelectedIntact(u).value;
      var stat := if u.status.state == ActionCharging then part.charge else part.cooldown;
      var gauge := u.status.gauge + MoveSpeed(stat, u.parts, cfg);
      if gauge < 100.0 then u.(status := u.status.(gauge := gauge))
      else if u.status.state == ActionCharging then
        u.(status := u.status.(gauge := 100.0, state := ReadyToExecuteAction),
           tags := u.tags.(charging := false, readyToExecute := true))
      else CooldownComplete(u)
  }

  /**
   * The bundled gauge update agrees with the split one on the status, the
   * selection, the parts and the broken, ready and cooldown tags; on a unit
   * whose tags mirror its state it agrees on all tags; and the target
   * differs only where a lost part reset the unit, which keeps the target
   * that the split version clears.
   */
  lemma GaugeStepMatchesSplit(u: Unit, cfg: BalanceConfig)
    requires ValidBalance(cfg)
    ensures var v := GaugeStep(u, cfg);
      var s := GaugeUpdateSystem.GaugeStep(u, cfg);
      && v.status == s.status && v.parts == s.parts && v.identity == s.identity && v.medal == s.medal
      && v.action.selectedPartKey == s.action.selectedPartKey
      && v.tags.broken == s.tags.broken && v.tags.readyToExecute == s.tags.readyToExecute
      && v.tags.cooldown == s.tags.cooldown
      && (TagsAgree(u) ==> v.tags == s.tags)
      && (v.action.targetedMedarot != s.action.targetedMedarot ==>
            && !u.tags.broken && u.status.state in {ActionCharging, ActionCooldown} && SelectedIntact(u).None?
            && v.action.targetedMedarot == u.action.targetedMedarot && s.action.targetedMedarot == NO_ENTITY)
  {
  }

  /**
   * A broken head breaks a unit only while it lacks the Broken tag, so the
   * step is idempotent there; a lost part keeps the target; a full cooldown
   * clears target and selection; the gauge never passes 100.
   */
  lemma GaugeStepEffect(u: Unit, cfg: BalanceConfig)
    requires ValidBalance(cfg)
    ensures var v := GaugeStep(u, cfg);
      var headBroken := HeadSlot in u.parts && u.parts[HeadSlot].isBroken;
      && (u.tags.broken ==> v == u)
      && (!u.tags.broken && headBroken ==>
            v.tags.broken && v.status.state == Broken && v.status.gauge == 0.0 && GaugeStep(v, cfg) == v)
      && (!u.tags.broken && !headBroken && u.status.state in {ActionCharging, ActionCooldown} && SelectedIntact(u).None? ==>
            && v.status.state == ReadyToSelectAction && v.status.gauge == 100.0
            && v.action.selectedPartKey.None? && v.action.targetedMedarot == u.action.targetedMedarot
            && !v.status.isEvasionDisabled && !v.status.isDefenseDisabled)
      && ((!u.tags.broken && !headBroken && u.status.state == ActionCooldown && SelectedIntact(u).Some? &&
           u.status.gauge + MoveSpeed(SelectedIntact(u).value.cooldown, u.parts, cfg) >= 100.0) ==>
            && v.status.state == ReadyToSelectAction && v.status.gauge == 100.0
            && v.action.targetedMedarot == NO_ENTITY && v.action.selectedPartKey.None? && !v.tags.cooldown)
      && (u.status.gauge <= 100.0 ==> v.status.gauge <= 100.0)
  {
  }

  /** The body of the gauge query loop for one unit, step by step. */
  method GaugeEntity(u: Unit, cfg: BalanceConfig) returns (v: Unit)
    requires ValidBalance(cfg)
    ensures v == GaugeStep(u, cfg)
  {
    v := u;
    if u.tags.broken {
      return;
    }
    if HeadSlot in u.parts && u.parts[HeadSlot].isBroken {
      if !v.tags.broken {
        v := v.(tags := v.tags.(broken := true));
        v := v.(status := v.status.(state := Broken, gauge := 0.0));
      }
      return;
    }
    var selected: Option<Part> := None;
    if u.status.state == ActionCharging || u.status.state == ActionCooldown {
      selected := SelectedIntact(u);
    }
    if selected.None? {
      if u.status.state == ActionCharging || u.status.state == ActionCooldown {
        v := v.(status := v.status.(state := ReadyToSelectAction, gauge := 100.0));
        v := v.(action := v.action.(selectedPartKey := None));
        v := v.(status := v.status.(isEvasionDisabled := false, isDefenseDisabled := false));
        v := v.(tags := v.tags.(charging := false, cooldown := false));
      }
      return;
    }
    var stat := if u.status.state == ActionCharging then selected.value.charge else selected.value.cooldown;
    var status := v.status.(gauge := v.status.gauge + MoveSpeed(stat, u.parts, cfg));
    if status.gauge >= 100.0 {
      status := status.(gauge := 100.0);
      if status.state == ActionCharging {
        status := status.(state := ReadyToExecuteAction);
        v := v.(tags := v.tags.(charging := false, readyToExecute := true));
      } else {
        status := status.(state := ReadyToSelectAction);
        v := v.(tags := v.tags.(cooldown := false));
        status := status.(isEvasionDisabled := false, isDefenseDisabled := false);
        v := v.(action := v.action.(targetedMedarot := NO_ENTITY, selectedPartKey := None));
      }
    }
    v := v.(status := status);
  }

  /** GaugeUpdateSystem.Update: with the configuration, every unit takes one step, whatever the game state. */
  method GaugeUpdate(w: World)
    requires w.config.Some? ==> ValidBalance(w.config.value)
    modifies w
    ensures w.gameState == old(w.gameState) && w.actionSelect == old(w.actionSelect) && w.config == old(w.config)
    ensures |w.units| == |old(w.units)|
    ensures old(w.config).None? ==> w.units == old(w.units)
    ensures old(w.config).Some? ==>
      forall i :: 0 <= i < |w.units| ==> w.units[i] == GaugeStep(old(w.units)[i], w.config.value)
  {
    if w.config.None? {
      return;
    }
    var cfg := w.config.value;
    var i := 0;
    while i < |w.units|
      invariant 0 <= i <= |w.units| == |old(w.units)|
      invariant w.gameState == old(w.gameState) && w.actionSelect == old(w.actionSelect) && w.config == old(w.config)
      invariant forall j :: 0 <= j < i ==> w.units[j] == GaugeStep(old(w.units)[j], cfg)
      invariant forall j :: i <= j < |w.units| ==> w.units[j] == old(w.units)[j]
    {
      var v := GaugeEntity(w.units[i], cfg);
      w.units := w.units[i := v];
      i := i + 1;
    }
  }

  // ---------------------------------------------------------------------
  // PlayerInputSystem
  // ---------------------------------------------------------------------

  /**
   * The first button from `from` on whose slot the unit has a part and
   * which holds the point; a button whose slot is missing is skipped but
   * keeps its place in the stack.
   */
  function FirstLiveButton(ui: PlayerInputSystem.UiLayout, actions: seq<Slot>, parts: PartMap,
                           p: PlayerInputSystem.Point, from: nat): (r: Option<nat>)
    ensures r.Some? ==>
      && from <= r.value < |actions| && actions[r.value] in parts
      && PlayerInputSystem.In(p, PlayerInputSystem.ButtonRect(ui, r.value))
      && forall i :: from <= i < r.value && actions[i] in parts ==> !PlayerInputSystem.In(p, PlayerInputSystem.ButtonRect(ui, i))
    ensures r.None? ==>
      forall i :: from <= i < |actions| && actions[i] in parts ==> !PlayerInputSystem.In(p, PlayerInputSystem.ButtonRect(ui, i))
    decreases |actions| - from
  {
    if from >= |actions| then None
    else if actions[from] in parts && PlayerInputSystem.In(p, PlayerInputSystem.ButtonRect(ui, from)) then Some(from)
    else FirstLiveButton(ui, actions, parts, p, from + 1)
  }

  /**
   * The UI set-up for the head of the queue: its intact charged head and
   * arm slots become the buttons; without any, the head leaves the queue;
   * otherwise a random targetable opponent becomes the current target, or
   * no entity when there is none.
   */
  function InitUI(units: seq<Unit>, head: EntityId, sel: ActionSelect, pick: nat): ActionSelect
    requires ValidEntity(units, head) && |sel.actionQueue| > 0
  {
    var u := UnitAt(units, head);
    var available := ChargedSlots(u.parts, ATTACK_SLOTS);
    if |available| == 0 then sel.(availableActions := available, actionQueue := sel.actionQueue[1..])
    else
      var candidates := Targets(units, ExecOpponent(u.identity.team));
      sel.(availableActions := available,
           currentTarget := if |candidates| > 0 then candidates[pick % |candidates|] else NO_ENTITY)
  }

  /**
   * A click for the head of the queue: without a click or the
   * configuration nothing happens; a click on a live button commits its
   * slot, except an attack without a valid current target, which is
   * ignored. An attack takes the current target, anything else keeps the
   * unit's target. The head then leaves the queue, the buttons and the
   * target are cleared, and an empty queue returns to play.
   */
  function Click(units: seq<Unit>, head: EntityId, gs: GameStateRec, sel: ActionSelect,
                 ui: PlayerInputSystem.UiLayout, click: Option<PlayerInputSystem.Point>,
                 hasConfig: bool): PlayerInputSystem.Outcome
    requires ValidEntity(units, head) && |sel.actionQueue| > 0
  {
    var u := UnitAt(units, head);
    if click.None? || !hasConfig then PlayerInputSystem.Outcome(units, gs, sel)
    else
      match FirstLiveButton(ui, sel.availableActions, u.parts, click.value, 0)
      case None => PlayerInputSystem.Outcome(units, gs, sel)
      case Some(i) =>
        var slot := sel.availableActions[i];
        var category := u.parts[slot].category;
        var targetIsValid := ValidEntity(units, sel.currentTarget) && !IsBroken(UnitAt(units, sel.currentTarget).status);
        if IsAttack(category) && !targetIsValid then PlayerInputSystem.Outcome(units, gs, sel)
        else
          var target := if IsAttack(category) then sel.currentTarget else u.action.targetedMedarot;
          var queue := sel.actionQueue[1..];
          PlayerInputSystem.Outcome(units[head - 1 := PlayerInputSystem.Commit(u, slot, target)],
                                    if |queue| == 0 then gs.(currentState := Playing) else gs,
                                    sel.(actionQueue := queue, availableActions := [], currentTarget := NO_ENTITY))
  }

  /**
   * The second phase for a head that is an entity and not broken: the UI
   * is set up if it has no buttons yet, a head without buttons leaves the
   * queue at once, and otherwise the click is handled.
   */
  function SelectForHead(units: seq<Unit>, head: EntityId, gs: GameStateRec, sel: ActionSelect,
                         ui: PlayerInputSystem.UiLayout, pick: nat, click: Option<PlayerInputSystem.Point>,
                         hasConfig: bool): PlayerInputSystem.Outcome
    requires ValidEntity(units, head) && |sel.actionQueue| > 0
  {
    if |sel.availableActions| == 0 then
      var sel' := InitUI(units, head, sel, pick);
      if |sel'.availableActions| == 0 then PlayerInputSystem.Outcome(units, gs, sel')
      else Click(units, head, gs, sel', ui, click, hasConfig)
    else Click(units, head, gs, sel, ui, click, hasConfig)
  }

  /**
   * PlayerInputSystem.Update: during play with an empty queue the waiting
   * player units are enqueued and a non-empty queue switches to action
   * selection, and the update ends there; during action selection an empty
   * queue returns to play with the UI cleared, a head that is no entity or
   * is broken leaves the queue, and otherwise the head's turn goes on.
   */
  function PlayerInput(units: seq<Unit>, gs: GameStateRec, sel: ActionSelect, ui: PlayerInputSystem.UiLayout,
                       pick: nat, click: Option<PlayerInputSystem.Point>, hasConfig: bool): PlayerInputSystem.Outcome
  {
    if gs.currentState == Playing then
      if |sel.actionQueue| > 0 then PlayerInputSystem.Outcome(units, gs, sel)
      else
        var queue := PlayerInputSystem.ReadyPlayers(units);
        PlayerInputSystem.Outcome(units, if |queue| > 0 then gs.(currentState := PlayerActionSelect) else gs,
                                  sel.(actionQueue := queue))
    else if gs.currentState != PlayerActionSelect then PlayerInputSystem.Outcome(units, gs, sel)
    else if |sel.actionQueue| == 0 then
      PlayerInputSystem.Outcome(units, gs.(currentState := Playing), sel.(availableActions := [], currentTarget := NO_ENTITY))
    else
      var head := sel.actionQueue[0];
      if !ValidEntity(units, head) || IsBroken(UnitAt(units, head).status) then
        PlayerInputSystem.Outcome(units, gs, sel.(actionQueue := sel.actionQueue[1..]))
      else SelectForHead(units, head, gs, sel, ui, pick, click, hasConfig)
  }

  /**
   * The enqueueing phase is the split file's first phase, except that it
   * ends the update: during play the outcome is exactly what that phase
   * leaves.
   */
  lemma EnqueueMatchesSplit(units: seq<Unit>, gs: GameStateRec, sel: ActionSelect, ui: PlayerInputSystem.UiLayout,
                            pick: nat, click: Option<PlayerInputSystem.Point>, hasConfig: bool)
    requires gs.currentState == Playing
    ensures var o := PlayerInput(units, gs, sel, ui, pick, click, hasConfig);
      var split := PlayerInputSystem.EnqueuePhase(units, gs, sel);
      && (split.None? ==> o == PlayerInputSystem.Outcome(units, gs, sel))
      && (split.Some? ==> o == PlayerInputSystem.Outcome(units, split.value.0, split.value.1))
  {
  }

  /**
   * What an update does to the units: without a click none changes; with
   * one, only the head of the queue can change, by committing one of its
   * head or arm slots, after which it has left the queue, the buttons and
   * the target are clear, and play resumes exactly when the queue is
   * empty. An attack commits a valid target that is not broken, anything
   * else keeps the unit's target. The buttons keep offering only head and
   * arm slots.
   */
  lemma PlayerInputRules(units: seq<Unit>, gs: GameStateRec, sel: ActionSelect, ui: PlayerInputSystem.UiLayout,
                         pick: nat, click: Option<PlayerInputSystem.Point>, hasConfig: bool)
    requires PlayerInputSystem.OffersAttackSlots(sel)
    ensures var o := PlayerInput(units, gs, sel, ui, pick, click, hasConfig);
      && PlayerInputSystem.OffersAttackSlots(o.sel)
      && (click.None? ==> o.units == units)
      && (gs.currentState == PlayerActionSelect && |sel.actionQueue| == 0 ==>
            o.gs.currentState == Playing && o.sel.availableActions == [] && o.sel.currentTarget == NO_ENTITY)
      && (o.units != units ==>
            && gs.currentState == PlayerActionSelect && |sel.actionQueue| > 0
            && var h := sel.actionQueue[0];
            && ValidEntity(units, h) && o.units == units[h - 1 := o.units[h - 1]]
            && PlayerInputSystem.Committed(units[h - 1], o.units[h - 1], units)
            && var slot := o.units[h - 1].action.selectedPartKey.value;
            && (!IsAttack(units[h - 1].parts[slot].category) ==>
                  o.units[h - 1].action.targetedMedarot == units[h - 1].action.targetedMedarot)
            && o.sel.actionQueue == sel.actionQueue[1..]
            && o.sel.availableActions == [] && o.sel.currentTarget == NO_ENTITY
            && (o.gs.currentState == Playing <==> |sel.actionQueue| == 1))
  {
    if gs.currentState == PlayerActionSelect && |sel.actionQueue| > 0 {
      var head := sel.actionQueue[0];
      if ValidEntity(units, head) && !IsBroken(UnitAt(units, head).status) {
        if |sel.availableActions| == 0 {
          var sel' := InitUI(units, head, sel, pick);
          ChargedSlotsExact(UnitAt(units, head).parts, ATTACK_SLOTS);
          assert forall k :: 0 <= k < |sel'.availableActions| ==> sel'.availableActions[k] in sel'.availableActions;
          if |sel'.availableActions| > 0 {
            ClickRules(units, head, gs, sel', ui, click, hasConfig);
          }
        } else {
          ClickRules(units, head, gs, sel, ui, click, hasConfig);
        }
      }
    }
  }

  /** The click handling of PlayerInputRules, for a head and its buttons. */
  lemma ClickRules(units: seq<Unit>, head: EntityId, gs: GameStateRec, sel: ActionSelect,
                   ui: PlayerInputSystem.UiLayout, click: Option<PlayerInputSystem.Point>, hasConfig: bool)
    requires ValidEntity(units, head) && |sel.actionQueue| > 0 && PlayerInputSystem.OffersAttackSlots(sel)
    requires gs.currentState == PlayerActionSelect
    ensures var o := Click(units, head, gs, sel, ui, click, hasConfig);
      && PlayerInputSystem.OffersAttackSlots(o.sel)
      && (o != PlayerInputSystem.Outcome(units, gs, sel) ==>
            && click.Some?
            && o.units == units[head - 1 := o.units[head - 1]]
            && PlayerInputSystem.Committed(units[head - 1], o.units[head - 1], units)
            && var slot := o.units[head - 1].action.selectedPartKey.value;
            && (!IsAttack(units[head - 1].parts[slot].category) ==>
                  o.units[head - 1].action.targetedMedarot == units[head - 1].action.targetedMedarot)
            && o.sel.actionQueue == sel.actionQueue[1..]
            && o.sel.availableActions == [] && o.sel.currentTarget == NO_ENTITY
            && (o.gs.currentState == Playing <==> |sel.actionQueue| == 1))
  {
    var o := Click(units, head, gs, sel, ui, click, hasConfig);
    if click.Some? && hasConfig {
      var u := UnitAt(units, head);
      var b := FirstLiveButton(ui, sel.availableActions, u.parts, click.value, 0);
      if b.Some? && o != PlayerInputSystem.Outcome(units, gs, sel) {
        var slot := sel.availableActions[b.value];
        var category := u.parts[slot].category;
        var target := if IsAttack(category) then sel.currentTarget else u.action.targetedMedarot;
        assert o.units[head - 1] == PlayerInputSystem.Commit(u, slot, target);
      }
    }
  }

  /** The button loop of the click: the first live button holding the point. */
  method FindLiveButton(ui: PlayerInputSystem.UiLayout, actions: seq<Slot>, parts: PartMap,
                        p: PlayerInputSystem.Point) returns (r: Option<nat>)
    ensures r == FirstLiveButton(ui, actions, parts, p, 0)
  {
    var i := 0;
    while i < |actions|
      invariant 0 <= i <= |actions|
      invariant FirstLiveButton(ui, actions, parts, p, 0) == FirstLiveButton(ui, actions, parts, p, i)
    {
      if actions[i] in parts && PlayerInputSystem.In(p, PlayerInputSystem.ButtonRect(ui, i)) {
        return Some(i);
      }
      i := i + 1;
    }
    return None;
  }

  /** The UI set-up on the world. */
  method InitializeActionUI(w: World, head: EntityId, pick: nat)
    requires ValidEntity(w.units, head) && w.actionSelect.Some? && |w.actionSelect.value.actionQueue| > 0
    modifies w
    ensures w.units == old(w.units) && w.gameState == old(w.gameState) && w.config == old(w.config)
    ensures w.actionSelect == Some(InitUI(w.units, head, old(w.actionSelect).value, pick))
  {
    var sel := w.actionSelect.value;
    var available := PlayerInputSystem.ChargedAttackSlots(w.units[head - 1].parts);
    sel := sel.(availableActions := available);
    if |available| == 0 {
      sel := sel.(actionQueue := sel.actionQueue[1..]);
      w.actionSelect := Some(sel);
      return;
    }
    var candidates := Targets(w.units, ExecOpponent(w.units[head - 1].identity.team));
    if |candidates| > 0 {
      sel := sel.(currentTarget := candidates[pick % |candidates|]);
    } else {
      sel := sel.(currentTarget := NO_ENTITY);
    }
    w.actionSelect := Some(sel);
  }

  /** The click on the world. */
  method HandleClick(w: World, head: EntityId, ui: PlayerInputSystem.UiLayout, click: Option<PlayerInputSystem.Point>)
    requires ValidEntity(w.units, head) && w.gameState.Some? && w.actionSelect.Some?
    requires |w.actionSelect.value.actionQueue| > 0
    modifies w
    ensures w.gameState.Some? && w.actionSelect.Some? && w.config == old(w.config)
    ensures PlayerInputSystem.Outcome(w.units, w.gameState.value, w.actionSelect.value)
      == Click(old(w.units), head, old(w.gameState).value, old(w.actionSelect).value, ui, click, old(w.config).Some?)
  {
    if click.None? || w.config.None? {
      return;
    }
    var sel := w.actionSelect.value;
    var u := w.units[head - 1];
    var b := FindLiveButton(ui, sel.availableActions, u.parts, click.value);
    if b.None? {
      return;
    }
    var slot := sel.availableActions[b.value];
    var partData := u.parts[slot];
    var targetIsValid := ValidEntity(w.units, sel.currentTarget) && !IsBroken(w.units[sel.currentTarget - 1].status);
    var target := u.action.targetedMedarot;
    if partData.category == Shoot || partData.category == Fight {
      if !targetIsValid {
        return;
      }
      target := sel.currentTarget;
    }
    var v := u.(action := u.action.(selectedPartKey := Some(slot), targetedMedarot := target));
    v := v.(status := WithTraitFlags(v.status.(state := ActionCharging, gauge := 0.0), partData.actionTrait));
    v := v.(tags := v.tags.(charging := true));
    w.units := w.units[head - 1 := v];
    sel := sel.(actionQueue := sel.actionQueue[1..]);
    sel := sel.(availableActions := [], currentTarget := NO_ENTITY);
    if |sel.actionQueue| == 0 {
      w.gameState := Some(w.gameState.value.(currentState := Playing));
    }
    w.actionSelect := Some(sel);
  }

  /** The head's turn on the world. */
  method HandleHead(w: World, head: EntityId, ui: PlayerInputSystem.UiLayout, pick: nat,
                    click: Option<PlayerInputSystem.Point>)
    requires ValidEntity(w.units, head) && w.gameState.Some? && w.actionSelect.Some?
    requires |w.actionSelect.value.actionQueue| > 0
    modifies w
    ensures w.gameState.Some? && w.actionSelect.Some? && w.config == old(w.config)
    ensures PlayerInputSystem.Outcome(w.units, w.gameState.value, w.actionSelect.value)
      == SelectForHead(old(w.units), head, old(w.gameState).value, old(w.actionSelect).value, ui, pick, click,
                       old(w.config).Some?)
  {
    if |w.actionSelect.value.availableActions| == 0 {
      InitializeActionUI(w, head, pick);
      if |w.actionSelect.value.availableActions| == 0 {
        return;
      }
    }
    HandleClick(w, head, ui, click);
  }

  /** PlayerInputSystem.Update on the world; the selection must exist alongside the game state. */
  method PlayerInputUpdate(w: World, ui: PlayerInputSystem.UiLayout, pick: nat, click: Option<PlayerInputSystem.Point>)
    requires w.gameState.Some? ==> w.actionSelect.Some?
    modifies w
    ensures w.config == old(w.config)
    ensures old(w.gameState).None? ==>
      w.units == old(w.units) && w.gameState == old(w.gameState) && w.actionSelect == old(w.actionSelect)
    ensures old(w.gameState).Some? ==>
      && w.gameState.Some? && w.actionSelect.Some?
      && PlayerInputSystem.Outcome(w.units, w.gameState.value, w.actionSelect.value)
         == PlayerInput(old(w.units), old(w.gameState).value, old(w.actionSelect).value, ui, pick, click,
                        old(w.config).Some?)
  {
    if w.gameState.None? {
      return;
    }
    var gs := w.gameState.value;
    var sel := w.actionSelect.value;
    if gs.currentState == Playing {
      if |sel.actionQueue| > 0 {
        return;
      }
      var queue := PlayerInputSystem.EnqueueReady(w.units);
      assert sel.actionQueue + queue == queue;
      sel := sel.(actionQueue := sel.actionQueue + queue);
      if |sel.actionQueue| > 0 {
        gs := gs.(currentState := PlayerActionSelect);
        w.gameState := Some(gs);
      }
      w.actionSelect := Some(sel);
      return;
    }
    if gs.currentState == PlayerActionSelect {
      if |sel.actionQueue| == 0 {
        w.gameState := Some(gs.(currentState := Playing));
        w.actionSelect := Some(sel.(availableActions := [], currentTarget := NO_ENTITY));
        return;
      }
      var head := sel.actionQueue[0];
      if !ValidEntity(w.units, head) || IsBroken(w.units[head - 1].status) {
        w.actionSelect := Some(sel.(actionQueue := sel.actionQueue[1..]));
        return;
      }
      HandleHead(w, head, ui, pick, click);
    }
  }

  // ---------------------------------------------------------------------
  // AISystem
  // ---------------------------------------------------------------------

  /**
   * One AI unit's choice: the first usable slot in its shuffled order; with
   * no opponent to target nothing happens, whatever the part; otherwise a
   * random opponent becomes the target for any part, and the choice is
   * committed (a shot at a handle that is no entity would instead clear the
   * target). The trait's flags are set for an intact part.
   */
  function AiChoice(u: Unit, units: seq<Unit>, order: seq<Slot>, pick: nat): Unit {
    if !AiSystem.InAiQuery(u) || u.status.state != ReadyToSelectAction then u
    else
      var available := ChargedSlots(u.parts, order);
      if available == [] then u
      else
        var slot := available[0];
        var part := u.parts[slot];
        var candidates := Targets(units, AiOpponent(u.identity.team));
        if candidates == [] then u
        else
          var target := candidates[pick % |candidates|];
          if part.category == Shoot && !ValidEntity(units, target) then
            u.(action := u.action.(targetedMedarot := NO_ENTITY))
          else
            var charging := u.status.(state := ActionCharging, gauge := 0.0);
            u.(action := u.action.(targetedMedarot := target, selectedPartKey := Some(slot)),
               status := if !part.isBroken then WithTraitFlags(charging, part.actionTrait) else charging,
               tags := u.tags.(charging := true))
  }

  /**
   * Without an opponent to target, no AI unit acts; an AI unit that acts
   * commits to a targetable opponent, so the branch that clears the target
   * of a shot is never taken. Where an opponent exists, the choice is the
   * split file's except that a non-attack part also takes the new target.
   */
  lemma AiChoiceRules(u: Unit, units: seq<Unit>, order: seq<Slot>, pick: nat)
    requires AiSystem.IsShuffle(order)
    ensures var v := AiChoice(u, units, order, pick);
      var s := AiSystem.AiChoice(u, units, order, pick);
      var candidates := Targets(units, AiOpponent(u.identity.team));
      && (candidates == [] ==> v == u)
      && (v == u || (v.status.state == ActionCharging && ValidEntity(units, v.action.targetedMedarot)
                     && IsTargetable(UnitAt(units, v.action.targetedMedarot), AiOpponent(u.identity.team))))
      && (candidates != [] ==>
            v == s || (s.action.targetedMedarot == u.action.targetedMedarot
                       && v == s.(action := s.action.(targetedMedarot := v.action.targetedMedarot))))
  {
    var candidates := Targets(units, AiOpponent(u.identity.team));
    TargetsExact(units, AiOpponent(u.identity.team));
    ChargedSlotsExact(u.parts, order);
    var available := ChargedSlots(u.parts, order);
    if AiSystem.InAiQuery(u) && u.status.state == ReadyToSelectAction && available != [] && candidates != [] {
      assert available[0] in available;
      assert candidates[pick % |candidates|] in candidates;
    }
  }

  /** The body of the AI query loop for one unit, step by step. */
  method ChooseFor(u: Unit, units: seq<Unit>, order: seq<Slot>, pick: nat) returns (v: Unit)
    ensures v == AiChoice(u, units, order, pick)
  {
    v := u;
    if !AiSystem.InAiQuery(u) || u.status.state != ReadyToSelectAction {
      return;
    }
    var available := AiSystem.UsableSlots(u.parts, order);
    if |available| == 0 {
      return;
    }
    var selectedSlot := available[0];
    var selectedPart := u.parts[selectedSlot];
    var candidates := Targets(units, AiOpponent(u.identity.team));
    if |candidates| == 0 {
      return;
    }
    v := v.(action := v.action.(targetedMedarot := candidates[pick % |candidates|]));
    if selectedPart.category == Shoot && !ValidEntity(units, v.action.targetedMedarot) {
      v := v.(action := v.action.(targetedMedarot := NO_ENTITY));
      return;
    }
    v := v.(action := v.action.(selectedPartKey := Some(selectedSlot)));
    v := v.(status := v.status.(state := ActionCharging, gauge := 0.0));
    if !selectedPart.isBroken {
      v := v.(status := WithTraitFlags(v.status, selectedPart.actionTrait));
    }
    v := v.(tags := v.tags.(charging := true));
  }

  /** The AI's choice never changes a unit's identity, its Broken tag or whether it is broken. */
  lemma AiChoiceKeeps(u: Unit, units: seq<Unit>, order: seq<Slot>, pick: nat)
    ensures var v := AiChoice(u, units, order, pick);
      v.identity == u.identity && v.tags.broken == u.tags.broken && IsBroken(v.status) == IsBroken(u.status)
  {
  }

  /** AISystem.Update: during play every unit makes its choice against the world as it was before the tick. */
  method AiUpdate(w: World, orders: seq<seq<Slot>>, picks: seq<nat>)
    requires |orders| == |w.units| && |picks| == |w.units|
    modifies w
    ensures w.gameState == old(w.gameState) && w.actionSelect == old(w.actionSelect) && w.config == old(w.config)
    ensures |w.units| == |old(w.units)|
    ensures !(old(w.gameState).Some? && old(w.gameState).value.currentState == Playing) ==> w.units == old(w.units)
    ensures old(w.gameState).Some? && old(w.gameState).value.currentState == Playing ==>
      forall i :: 0 <= i < |w.units| ==> w.units[i] == AiChoice(old(w.units)[i], old(w.units), orders[i], picks[i])
  {
    if w.gameState.None? || w.gameState.value.currentState != Playing {
      return;
    }
    var i := 0;
    while i < |w.units|
      invariant 0 <= i <= |w.units| == |old(w.units)|
      invariant w.gameState == old(w.gameState) && w.actionSelect == old(w.actionSelect) && w.config == old(w.config)
      invariant forall j :: 0 <= j < i ==> w.units[j] == AiChoice(old(w.units)[j], old(w.units), orders[j], picks[j])
      invariant forall j :: i <= j < |w.units| ==> w.units[j] == old(w.units)[j]
      invariant SameTargeting(w.units, old(w.units))
    {
      TargetsFrame(w.units, old(w.units), AiOpponent(w.units[i].identity.team));
      var v := ChooseFor(w.units[i], w.units, orders[i], picks[i]);
      assert v == AiChoice(old(w.units)[i], old(w.units), orders[i], picks[i]);
      AiChoiceKeeps(old(w.units)[i], old(w.units), orders[i], picks[i]);
      SameTargetingUpdate(w.units, old(w.units), i, v);
      w.units := w.units[i := v];
      i := i + 1;
    }
  }

  // ---------------------------------------------------------------------
  // ActionExecutionSystem
  // ---------------------------------------------------------------------

  /**
   * One queried unit's turn in Update: the unit afterwards, the message
   * shown and its continuation. A missing or broken part fails at once;
   * otherwise the unit is left as it is and its action is announced, with
   * its category and, for a shot at an entity, the target's name; the
   * action itself runs when the announcement is dismissed.
   */
  function ExecStep(units: seq<Unit>, i: nat): (Unit, Message, Callback)
    requires i < |units|
  {
    var u := units[i];
    if SelectedIntact(u).None? then (ActionExecutionSystem.Failed(u), PartFailed(u.identity.name), ReturnToPlaying)
    else
      var part := SelectedIntact(u).value;
      var target := u.action.targetedMedarot;
      var targetName := if part.category == Shoot && ValidEntity(units, target)
                        then Some(UnitAt(units, target).identity.name) else None;
      (u, Announce(u.identity.name, part.partName, Some(part.category), targetName), ActualActionCallback(i + 1))
  }

  /**
   * A turn changes the unit exactly as the split file's turn does: a
   * failure makes it ready to choose with a full gauge and without the
   * ready tag, anything else leaves it alone. The continuation of an
   * announcement names the unit, and the announcement names a target only
   * for a shot at an entity.
   */
  lemma ExecStepRules(units: seq<Unit>, i: nat, pick: nat, cfg: BalanceConfig)
    requires i < |units|
    ensures var (v, msg, cb) := ExecStep(units, i);
      var u := units[i];
      && v == ActionExecutionSystem.Announcement(units, i, pick, cfg).0
      && (SelectedIntact(u).None? <==> cb == ReturnToPlaying)
      && (SelectedIntact(u).None? ==>
            v.status.state == ReadyToSelectAction && v.status.gauge == 100.0 && !v.tags.readyToExecute
            && msg == PartFailed(u.identity.name))
      && (SelectedIntact(u).Some? ==>
            && v == u && cb == ActualActionCallback(i + 1) && msg.Announce?
            && (msg.targetName.Some? <==>
                  (SelectedIntact(u).value.category == Shoot && ValidEntity(units, u.action.targetedMedarot))))
  {
  }

  /** A turn depends only on the unit itself, the number of units and their identities. */
  lemma ExecStepFrame(units: seq<Unit>, units': seq<Unit>, i: nat)
    requires i < |units| == |units'| && units[i] == units'[i]
    requires forall j :: 0 <= j < |units| ==> units[j].identity == units'[j].identity
    ensures ExecStep(units, i) == ExecStep(units', i)
  {
  }

  /** Each unit after the update: its turn's unit if queried, else itself. */
  function ExecUnit(units: seq<Unit>, i: nat): Unit
    requires i < |units|
  {
    if ActionExecutionSystem.InExecQuery(units[i]) then ExecStep(units, i).0 else units[i]
  }

  /** The game state after the first n units' turns: the last queried unit's message and continuation are shown. */
  function ShownAfter(gs: Option<GameStateRec>, units: seq<Unit>, n: nat): Option<GameStateRec>
    requires n <= |units|
  {
    if n == 0 || gs.None? then gs
    else if ActionExecutionSystem.InExecQuery(units[n - 1]) then
      var (_, msg, cb) := ExecStep(units, n - 1);
      Some(gs.value.(message := msg, callback := cb, currentState := ShowingMessage))
    else ShownAfter(gs, units, n - 1)
  }

  /** Units that are not queried leave the game state as it was. */
  lemma {:induction false} ShownAfterSkips(gs: Option<GameStateRec>, units: seq<Unit>, j: nat, n: nat)
    requires j <= n <= |units|
    requires forall k :: j <= k < n ==> !ActionExecutionSystem.InExecQuery(units[k])
    ensures ShownAfter(gs, units, n) == ShownAfter(gs, units, j)
    decreases n
  {
    if n > j {
      ShownAfterSkips(gs, units, j, n - 1);
    }
  }

  /**
   * The message left showing is the last queried unit's, with its
   * continuation; without a queried unit the game state is untouched.
   */
  lemma ShownAfterRules(gs: Option<GameStateRec>, units: seq<Unit>, n: nat, last: nat)
    requires last < n <= |units|
    ensures (forall k :: 0 <= k < n ==> !ActionExecutionSystem.InExecQuery(units[k])) ==> ShownAfter(gs, units, n) == gs
    ensures ActionExecutionSystem.InExecQuery(units[last])
            && (forall k :: last < k < n ==> !ActionExecutionSystem.InExecQuery(units[k])) ==>
      ShownAfter(gs, units, n) == (if gs.None? then gs else
        Some(gs.value.(message := ExecStep(units, last).1, callback := ExecStep(units, last).2,
                       currentState := ShowingMessage)))
  {
    if forall k :: 0 <= k < n ==> !ActionExecutionSystem.InExecQuery(units[k]) {
      ShownAfterSkips(gs, units, 0, n);
    }
    if ActionExecutionSystem.InExecQuery(units[last]) && (forall k :: last < k < n ==> !ActionExecutionSystem.InExecQuery(units[k])) {
      ShownAfterSkips(gs, units, last + 1, n);
    }
  }

  /**
   * ActionExecutionSystem.Update: with the configuration, every queried
   * unit takes its turn. Without a game state a continuation would run at
   * once and look the game state up, which the Go code cannot survive, so
   * then no unit may be queried.
   */
  method ExecUpdate(w: World)
    requires w.config.Some? && w.gameState.None? ==>
      forall i :: 0 <= i < |w.units| ==> !ActionExecutionSystem.InExecQuery(w.units[i])
    modifies w
    ensures w.actionSelect == old(w.actionSelect) && w.config == old(w.config)
    ensures |w.units| == |old(w.units)|
    ensures old(w.config).None? ==> w.units == old(w.units) && w.gameState == old(w.gameState)
    ensures old(w.config).Some? ==>
      && (forall i :: 0 <= i < |w.units| ==> w.units[i] == ExecUnit(old(w.units), i))
      && w.gameState == ShownAfter(old(w.gameState), old(w.units), |old(w.units)|)
  {
    if w.config.None? {
      return;
    }
    var i := 0;
    while i < |w.units|
      invariant 0 <= i <= |w.units| == |old(w.units)|
      invariant w.actionSelect == old(w.actionSelect) && w.config == old(w.config)
      invariant forall j :: 0 <= j < i ==> w.units[j] == ExecUnit(old(w.units), j)
      invariant forall j :: i <= j < |w.units| ==> w.units[j] == old(w.units)[j]
      invariant forall j :: 0 <= j < |w.units| ==> w.units[j].identity == old(w.units)[j].identity
      invariant w.gameState == ShownAfter(old(w.gameState), old(w.units), i)
      invariant w.gameState.Some? == old(w.gameState).Some?
      invariant w.gameState.Some? ==> w.gameState.value.winner == old(w.gameState).value.winner
    {
      var u := w.units[i];
      if ActionExecutionSystem.InExecQuery(u) {
        ExecStepFrame(w.units, old(w.units), i);
        var v, msg, cb := TakeTurn(w.units, i);
        w.units := w.units[i := v];
        var runNow := ShowGameMessage(w, msg, cb);
        assert w.gameState == ShownAfter(old(w.gameState), old(w.units), i + 1);
      }
      i := i + 1;
    }
  }

  /** One queried unit's turn, step by step. */
  method TakeTurn(units: seq<Unit>, i: nat) returns (v: Unit, msg: Message, cb: Callback)
    requires i < |units|
    ensures (v, msg, cb) == ExecStep(units, i)
  {
    var u := units[i];
    var selected := SelectedPart(u);
    if selected.None? || selected.value.isBroken {
      v := u.(status := u.status.(state := ReadyToSelectAction, gauge := 100.0));
      v := v.(tags := v.tags.(readyToExecute := false));
      v := v.(action := v.action.(lastActionLog := PartFailed(u.identity.name)));
      return v, PartFailed(u.identity.name), ReturnToPlaying;
    }
    var part := selected.value;
    var targetName: Option<string> := None;
    if part.category == Shoot && ValidEntity(units, u.action.targetedMedarot) {
      targetName := Some(units[u.action.targetedMedarot - 1].identity.name);
    }
    return u, Announce(u.identity.name, part.partName, Some(part.category), targetName), ActualActionCallback(i + 1);
  }

  /** A target the continuation accepts: an entity that is not broken. */
  predicate TargetValid(units: seq<Unit>, e: EntityId) {
    ValidEntity(units, e) && !IsBroken(UnitAt(units, e).status)
  }

  /** A melee attack without a valid target, with a targetable opponent to turn on. */
  predicate Retargets(units: seq<Unit>, attacker: EntityId)
    requires ValidEntity(units, attacker) && SelectedPart(UnitAt(units, attacker)).Some?
  {
    var u := UnitAt(units, attacker);
    && SelectedPart(u).value.category == Fight && !TargetValid(units, u.action.targetedMedarot)
    && |Targets(units, AiOpponent(u.identity.team))| > 0
  }

  /** The target of the action: the random opponent of a retargeted melee attack, else the unit's own target. */
  function FinalTarget(units: seq<Unit>, attacker: EntityId, fightPick: nat): (r: EntityId)
    requires ValidEntity(units, attacker) && SelectedPart(UnitAt(units, attacker)).Some?
    ensures Retargets(units, attacker) ==>
      r in Targets(units, AiOpponent(UnitAt(units, attacker).identity.team)) && TargetValid(units, r)
  {
    var u := UnitAt(units, attacker);
    var candidates := Targets(units, AiOpponent(u.identity.team));
    if Retargets(units, attacker) then
      TargetsExact(units, AiOpponent(u.identity.team));
      assert candidates[fightPick % |candidates|] in candidates;
      candidates[fightPick % |candidates|]
    else u.action.targetedMedarot
  }

  /** The units once a retargeted attacker has recorded its new target. */
  function Retargeted(units: seq<Unit>, attacker: EntityId, fightPick: nat): (r: seq<Unit>)
    requires ValidEntity(units, attacker) && SelectedPart(UnitAt(units, attacker)).Some?
    ensures |r| == |units| && SelectedPart(UnitAt(r, attacker)) == SelectedPart(UnitAt(units, attacker))
  {
    var u := UnitAt(units, attacker);
    if Retargets(units, attacker)
    then units[attacker - 1 := u.(action := u.action.(targetedMedarot := FinalTarget(units, attacker, fightPick)))]
    else units
  }

  /**
   * The attack of the continuation: a miss names the target and the
   * attacker; a hit on an intact part marks it destroyed exactly when its
   * armor reaches 0, and a destroyed head breaks the target.
   */
  function StrikeOutcome(units: seq<Unit>, attacker: EntityId, target: EntityId, cfg: BalanceConfig,
                         hitRoll: int, critRoll: int, pick: nat): (r: (seq<Unit>, Message))
    requires ValidEntity(units, attacker) && ValidEntity(units, target)
    requires SelectedPart(UnitAt(units, attacker)).Some?
    ensures r.0 == ActionExecutionSystem.AttackOutcome(units, attacker, target, cfg, hitRoll, critRoll, pick).0
  {
    var a := UnitAt(units, attacker);
    var part := SelectedPart(a).value;
    var t := UnitAt(units, target);
    var (isHit, isCritical) := CalculateHit(a.medal, part, t.status, t.parts, cfg, hitRoll, critRoll);
    if !isHit then (units, EvadedBy(t.identity.name, a.identity.name))
    else
      match PartToDamage(t.parts, pick)
      case None => (units, NoPartToHit(t.identity.name))
      case Some(slot) =>
        var hit := t.parts[slot];
        var damage := CalculateDamage(a.parts, a.medal, part, hit, t.parts, isCritical, cfg, t.status.isDefenseDisabled);
        var after := Damaged(hit, damage);
        var destroyed := after.armor == 0 && !hit.isBroken;
        var damaged := t.(parts := t.parts[slot := after]);
        var t' := if destroyed && hit.partType == HeadType then ActionExecutionSystem.HeadDestroyed(damaged) else damaged;
        (units[target - 1 := t'],
         DamageDealt(t.identity.name, hit.partName, damage, hit.armor, after.armor, isCritical, destroyed))
  }

  /**
   * The attack leaves the units as performAttack of the action-execution
   * iteration does, but logs differently: a miss names the attacker too,
   * and a hit is marked destroyed exactly when the part's armor is left at
   * 0, whatever armor the part had before.
   */
  lemma StrikeLog(units: seq<Unit>, attacker: EntityId, target: EntityId, cfg: BalanceConfig,
                  hitRoll: int, critRoll: int, pick: nat)
    requires ValidEntity(units, attacker) && ValidEntity(units, target)
    requires SelectedPart(UnitAt(units, attacker)).Some?
    ensures var log := StrikeOutcome(units, attacker, target, cfg, hitRoll, critRoll, pick).1;
      var other := ActionExecutionSystem.AttackOutcome(units, attacker, target, cfg, hitRoll, critRoll, pick).1;
      && (other.Evaded? <==> log.EvadedBy?)
      && (log.EvadedBy? ==> log == EvadedBy(UnitAt(units, target).identity.name, UnitAt(units, attacker).identity.name))
      && (other.NoPartToHit? ==> log == other)
      && (other.DamageDealt? ==> log == other.(destroyed := other.after == 0))
      && (log.EvadedBy? || log.NoPartToHit? || log.DamageDealt?)
  {
    var a := UnitAt(units, attacker);
    var t := UnitAt(units, target);
    var part := SelectedPart(a).value;
    var (isHit, isCritical) := CalculateHit(a.medal, part, t.status, t.parts, cfg, hitRoll, critRoll);
    if isHit {
      PartToDamageExact(t.parts, pick);
      var choice := PartToDamage(t.parts, pick);
      if choice.Some? {
        var slot := choice.value;
        var damage := CalculateDamage(a.parts, a.medal, part, t.parts[slot], t.parts, isCritical, cfg, t.status.isDefenseDisabled);
        DamagedEffect(t.parts[slot], damage);
      }
    }
  }

  /**
   * The attack of the continuation on the world, step by step: the armor
   * drops by the damage and is floored at 0, and a part left at 0 that was
   * intact breaks, taking the target down with it when it is the head.
   */
  method Strike(w: World, attacker: EntityId, target: EntityId, cfg: BalanceConfig,
                hitRoll: int, critRoll: int, pick: nat) returns (log: Message)
    requires ValidEntity(w.units, attacker) && ValidEntity(w.units, target)
    requires SelectedPart(UnitAt(w.units, attacker)).Some?
    modifies w
    ensures (w.units, log) == StrikeOutcome(old(w.units), attacker, target, cfg, hitRoll, critRoll, pick)
    ensures w.gameState == old(w.gameState) && w.actionSelect == old(w.actionSelect) && w.config == old(w.config)
  {
    var a := w.units[attacker - 1];
    var part := SelectedPart(a).value;
    var t := w.units[target - 1];
    var hitResult := CalculateHit(a.medal, part, t.status, t.parts, cfg, hitRoll, critRoll);
    var isHit, isCritical := hitResult.0, hitResult.1;
    if !isHit {
      return EvadedBy(t.identity.name, a.identity.name);
    }
    var choice := SelectRandomPartToDamage(t.parts, pick);
    if choice.None? {
      return NoPartToHit(t.identity.name);
    }
    var slot := choice.value;
    var hit := t.parts[slot];
    var damage := CalculateDamage(a.parts, a.medal, part, hit, t.parts, isCritical, cfg, t.status.isDefenseDisabled);
    var after := hit.(armor := hit.armor - damage);
    if after.armor < 0 {
      after := after.(armor := 0);
    }
    var destroyed := false;
    if after.armor == 0 && !after.isBroken {
      after := after.(isBroken := true);
      destroyed := true;
    }
    assert after == Damaged(hit, damage);
    w.units := w.units[target - 1 := t.(parts := t.parts[slot := after])];
    if destroyed && after.partType == HeadType {
      ActionExecutionSystem.HandleHeadDestruction(w, target);
    }
    log := DamageDealt(t.identity.name, hit.partName, damage, hit.armor, after.armor, isCritical, destroyed);
    assert destroyed == (after.armor == 0 && !hit.isBroken);
    assert log == StrikeOutcome(old(w.units), attacker, target, cfg, hitRoll, critRoll, pick).1;
    assert w.units == StrikeOutcome(old(w.units), attacker, target, cfg, hitRoll, critRoll, pick).0;
  }

  /**
   * The action of the continuation, before the cooldown: a shot or melee
   * attack still without a valid target fails, any part with a valid
   * target attacks it, and anything else is simply used.
   */
  function Acted(units: seq<Unit>, attacker: EntityId, cfg: BalanceConfig,
                 fightPick: nat, hitRoll: int, critRoll: int, partPick: nat): (r: (seq<Unit>, Message))
    requires ValidEntity(units, attacker) && SelectedPart(UnitAt(units, attacker)).Some?
    ensures |r.0| == |units|
  {
    var u := UnitAt(units, attacker);
    var part := SelectedPart(u).value;
    var intendedValid := TargetValid(units, u.action.targetedMedarot);
    var units1 := Retargeted(units, attacker, fightPick);
    if part.category == Shoot && !intendedValid then (units1, ShootFailed(u.identity.name))
    else if part.category == Fight && !intendedValid && !Retargets(units, attacker) then
      (units1, TargetMissing(u.identity.name))
    else if intendedValid || Retargets(units, attacker) then
      StrikeOutcome(units1, attacker, FinalTarget(units, attacker, fightPick), cfg, hitRoll, critRoll, partPick)
    else (units1, Used(u.identity.name, part.partName))
  }

  /**
   * The continuation of an announcement, run when it is dismissed: the
   * units afterwards and the log. The attacker, as the action left it,
   * logs the result and cools down.
   */
  function ActualAction(units: seq<Unit>, attacker: EntityId, cfg: BalanceConfig,
                        fightPick: nat, hitRoll: int, critRoll: int, partPick: nat): (r: (seq<Unit>, Message))
    requires ValidEntity(units, attacker) && SelectedPart(UnitAt(units, attacker)).Some?
    ensures |r.0| == |units|
  {
    var (after, log) := Acted(units, attacker, cfg, fightPick, hitRoll, critRoll, partPick);
    var a := after[attacker - 1];
    (after[attacker - 1 := ActionExecutionSystem.Cooldown(a.(action := a.action.(lastActionLog := log)))], log)
  }

  /**
   * What the action logs: a valid target is attacked whatever the part's
   * category; a melee attack without one turns on a random targetable
   * opponent and fails only when there is none; a shot without one fails;
   * anything else without one is used.
   */
  lemma ActedLog(units: seq<Unit>, attacker: EntityId, cfg: BalanceConfig,
                 fightPick: nat, hitRoll: int, critRoll: int, partPick: nat)
    requires ValidEntity(units, attacker) && SelectedPart(UnitAt(units, attacker)).Some?
    ensures var log := Acted(units, attacker, cfg, fightPick, hitRoll, critRoll, partPick).1;
      var u := UnitAt(units, attacker);
      var part := SelectedPart(u).value;
      var intended := u.action.targetedMedarot;
      var candidates := Targets(units, AiOpponent(u.identity.team));
      && (TargetValid(units, intended) ==>
            FinalTarget(units, attacker, fightPick) == intended
            && log == StrikeOutcome(units, attacker, intended, cfg, hitRoll, critRoll, partPick).1)
      && (!TargetValid(units, intended) && part.category == Shoot ==> log == ShootFailed(u.identity.name))
      && (!TargetValid(units, intended) && part.category == Fight ==>
            (log == TargetMissing(u.identity.name) <==> candidates == [])
            && (candidates != [] ==> FinalTarget(units, attacker, fightPick) in candidates))
      && (!TargetValid(units, intended) && !IsAttack(part.category) ==> log == Used(u.identity.name, part.partName))
  {
    var u := UnitAt(units, attacker);
    if Retargets(units, attacker) {
      var units1 := Retargeted(units, attacker, fightPick);
      ActionExecutionSystem.AttackOutcomeEffect(units1, attacker, FinalTarget(units, attacker, fightPick), cfg,
                                                hitRoll, critRoll, partPick);
    }
  }

  /**
   * Only the attacker and the target of the action can change; an action
   * without a valid target that is not a melee attack changes only the
   * attacker, and every unit keeps its identity.
   */
  lemma ActedFrame(units: seq<Unit>, attacker: EntityId, cfg: BalanceConfig,
                   fightPick: nat, hitRoll: int, critRoll: int, partPick: nat)
    requires ValidEntity(units, attacker) && SelectedPart(UnitAt(units, attacker)).Some?
    ensures var after := Acted(units, attacker, cfg, fightPick, hitRoll, critRoll, partPick).0;
      var target := FinalTarget(units, attacker, fightPick);
      && (forall i :: 0 <= i < |units| && i != attacker - 1 && i != target - 1 ==> after[i] == units[i])
      && (forall i :: 0 <= i < |units| ==> after[i].identity == units[i].identity)
      && (!TargetValid(units, UnitAt(units, attacker).action.targetedMedarot) && !Retargets(units, attacker) ==>
            forall i :: 0 <= i < |units| && i != attacker - 1 ==> after[i] == units[i])
  {
    var u := UnitAt(units, attacker);
    var part := SelectedPart(u).value;
    var units1 := Retargeted(units, attacker, fightPick);
    var target := FinalTarget(units, attacker, fightPick);
    if !(part.category == Shoot && !TargetValid(units, u.action.targetedMedarot))
       && (TargetValid(units, u.action.targetedMedarot) || Retargets(units, attacker)) {
      ActionExecutionSystem.AttackOutcomeEffect(units1, attacker, target, cfg, hitRoll, critRoll, partPick);
    }
  }

  /**
   * What the continuation does: the attacker ends cooling down from an
   * empty gauge with the cooldown tag instead of the ready tag and the log
   * of its action; every other unit is as the action left it, so only the
   * attacker and the target of the action change.
   */
  lemma ActualActionRules(units: seq<Unit>, attacker: EntityId, cfg: BalanceConfig,
                          fightPick: nat, hitRoll: int, critRoll: int, partPick: nat)
    requires ValidEntity(units, attacker) && SelectedPart(UnitAt(units, attacker)).Some?
    ensures var (after, log) := ActualAction(units, attacker, cfg, fightPick, hitRoll, critRoll, partPick);
      var a := UnitAt(after, attacker);
      var target := FinalTarget(units, attacker, fightPick);
      && a.status.state == ActionCooldown && a.status.gauge == 0.0
      && a.tags.cooldown && !a.tags.readyToExecute && a.action.lastActionLog == log
      && a.identity == UnitAt(units, attacker).identity
      && log == Acted(units, attacker, cfg, fightPick, hitRoll, critRoll, partPick).1
      && (forall i :: 0 <= i < |units| && i != attacker - 1 && i != target - 1 ==> after[i] == units[i])
  {
    ActedFrame(units, attacker, cfg, fightPick, hitRoll, critRoll, partPick);
  }

  /** The action mends no part, when the critical multiplier is not negative. */
  lemma ActedNeverMends(units: seq<Unit>, attacker: EntityId, cfg: BalanceConfig,
                        fightPick: nat, hitRoll: int, critRoll: int, partPick: nat)
    requires ValidEntity(units, attacker) && SelectedPart(UnitAt(units, attacker)).Some?
    requires cfg.criticalMultiplier >= 0.0
    ensures ActionExecutionSystem.NeverMended(units, Acted(units, attacker, cfg, fightPick, hitRoll, critRoll, partPick).0)
  {
    var u := UnitAt(units, attacker);
    var part := SelectedPart(u).value;
    var units1 := Retargeted(units, attacker, fightPick);
    var mid := Acted(units, attacker, cfg, fightPick, hitRoll, critRoll, partPick).0;
    assert forall i :: 0 <= i < |units| ==> units1[i].parts == units[i].parts;
    if !(part.category == Shoot && !TargetValid(units, u.action.targetedMedarot))
       && (TargetValid(units, u.action.targetedMedarot) || Retargets(units, attacker)) {
      ActionExecutionSystem.AttackNeverMends(units1, attacker, FinalTarget(units, attacker, fightPick), cfg,
                                             hitRoll, critRoll, partPick);
    }
  }

  /** No continuation mends a part, when the critical multiplier is not negative. */
  lemma ActualActionNeverMends(units: seq<Unit>, attacker: EntityId, cfg: BalanceConfig,
                               fightPick: nat, hitRoll: int, critRoll: int, partPick: nat)
    requires ValidEntity(units, attacker) && SelectedPart(UnitAt(units, attacker)).Some?
    requires cfg.criticalMultiplier >= 0.0
    ensures ActionExecutionSystem.NeverMended(units, ActualAction(units, attacker, cfg, fightPick, hitRoll, critRoll, partPick).0)
  {
    ActedNeverMends(units, attacker, cfg, fightPick, hitRoll, critRoll, partPick);
    var mid := Acted(units, attacker, cfg, fightPick, hitRoll, critRoll, partPick).0;
    var after := ActualAction(units, attacker, cfg, fightPick, hitRoll, critRoll, partPick).0;
    assert forall i :: 0 <= i < |units| ==> after[i].parts == mid[i].parts;
  }

  /**
   * The continuation on the world, step by step: the target check and the
   * melee retargeting, the action, then the cooldown and the closing
   * message, which returns to play when dismissed unless the state has
   * moved on.
   */
  method ExecuteActualAction(w: World, attacker: EntityId, cfg: BalanceConfig,
                             fightPick: nat, hitRoll: int, critRoll: int, partPick: nat)
    requires w.gameState.Some?
    requires ValidEntity(w.units, attacker) && SelectedPart(UnitAt(w.units, attacker)).Some?
    modifies w
    ensures w.gameState.Some?
    ensures (w.units, w.gameState.value.message)
      == ActualAction(old(w.units), attacker, cfg, fightPick, hitRoll, critRoll, partPick)
    ensures w.gameState.value
      == old(w.gameState).value.(message := w.gameState.value.message, callback := ReturnToPlayingIfMessage,
                                 currentState := ShowingMessage)
    ensures w.actionSelect == old(w.actionSelect) && w.config == old(w.config)
  {
    var u := w.units[attacker - 1];
    var part := SelectedPart(u).value;
    var target := u.action.targetedMedarot;
    var targetIsValid := false;
    if ValidEntity(w.units, target) && !IsBroken(w.units[target - 1].status) {
      targetIsValid := true;
    }
    if part.category == Fight && !targetIsValid {
      var candidates := Targets(w.units, AiOpponent(u.identity.team));
      if |candidates| > 0 {
        target := candidates[fightPick % |candidates|];
        targetIsValid := true;
        w.units := w.units[attacker - 1 := u.(action := u.action.(targetedMedarot := target))];
      }
    }
    assert target == FinalTarget(old(w.units), attacker, fightPick);
    assert w.units == Retargeted(old(w.units), attacker, fightPick);
    var logMsg: Message;
    if part.category == Shoot && !targetIsValid {
      logMsg := ShootFailed(u.identity.name);
    } else if part.category == Fight && !targetIsValid {
      logMsg := TargetMissing(u.identity.name);
    } else if targetIsValid {
      logMsg := Strike(w, attacker, target, cfg, hitRoll, critRoll, partPick);
    } else {
      logMsg := Used(u.identity.name, part.partName);
    }
    assert (w.units, logMsg) == Acted(old(w.units), attacker, cfg, fightPick, hitRoll, critRoll, partPick);
    ghost var mid := w.units;
    var a := w.units[attacker - 1];
    w.units := w.units[attacker - 1 := a.(action := a.action.(lastActionLog := logMsg))];
    ActionExecutionSystem.TransitionToCooldown(w, attacker, logMsg);
    assert w.units == mid[attacker - 1 := ActionExecutionSystem.Cooldown(a.(action := a.action.(lastActionLog := logMsg)))];
  }

  // ---------------------------------------------------------------------
  // GameRuleSystem
  // ---------------------------------------------------------------------

  /** Some unit of `team` is a leader. */
  predicate TeamLeaderExists(units: seq<Unit>, team: TeamId) {
    exists i :: 0 <= i < |units| && units[i].identity.isLeader && units[i].identity.team == team
  }

  /** Some leader of `team` is not in the Broken state. */
  predicate TeamLeaderAlive(units: seq<Unit>, team: TeamId) {
    exists i :: 0 <= i < |units| && units[i].identity.isLeader && units[i].identity.team == team
                && !IsBroken(units[i].status)
  }

  /** The winning team, if any: Team2 when Team1 has leaders and all are broken, else Team1 when Team2 does. */
  function Verdict(units: seq<Unit>): Option<TeamId> {
    if TeamLeaderExists(units, TEAM1) && !TeamLeaderAlive(units, TEAM1) then Some(TEAM2)
    else if TeamLeaderExists(units, TEAM2) && !TeamLeaderAlive(units, TEAM2) then Some(TEAM1)
    else None
  }

  /** The game state after the check: a verdict ends a game that is not over, with the victory message. */
  function Judged(gs: GameStateRec, units: seq<Unit>): GameStateRec {
    if gs.currentState == GameOver || Verdict(units).None? then gs
    else gs.(winner := Verdict(units).value, message := Victory(Verdict(units).value), currentState := GameOver)
  }

  /**
   * Team1's loss is checked first; a team without a leader never loses;
   * units of any third team are ignored; and where every unit is on Team1
   * or Team2, the verdict is the split file's.
   */
  lemma VerdictRules(units: seq<Unit>)
    ensures Verdict(units) == Some(TEAM2) <==> TeamLeaderExists(units, TEAM1) && !TeamLeaderAlive(units, TEAM1)
    ensures Verdict(units) == Some(TEAM1) <==>
      !(TeamLeaderExists(units, TEAM1) && !TeamLeaderAlive(units, TEAM1))
      && TeamLeaderExists(units, TEAM2) && !TeamLeaderAlive(units, TEAM2)
    ensures !TeamLeaderExists(units, TEAM1) ==> Verdict(units) != Some(TEAM2)
    ensures !TeamLeaderExists(units, TEAM2) ==> Verdict(units) != Some(TEAM1)
    ensures (forall i :: 0 <= i < |units| ==> units[i].identity.team == TEAM1 || units[i].identity.team == TEAM2) ==>
      Verdict(units) == GameRuleSystem.Verdict(units)
  {
    if forall i :: 0 <= i < |units| ==> units[i].identity.team == TEAM1 || units[i].identity.team == TEAM2 {
      assert TeamLeaderExists(units, TEAM2) == GameRuleSystem.LeaderExists(units, false);
      assert TeamLeaderAlive(units, TEAM2) == GameRuleSystem.LeaderAlive(units, false);
    }
  }

  /** The alive scan of Update: whether each team has a leader that is not broken. */
  method ScanAlive(units: seq<Unit>) returns (team1LeaderAlive: bool, team2LeaderAlive: bool)
    ensures team1LeaderAlive == TeamLeaderAlive(units, TEAM1) && team2LeaderAlive == TeamLeaderAlive(units, TEAM2)
  {
    team1LeaderAlive, team2LeaderAlive := false, false;
    var i := 0;
    while i < |units|
      invariant 0 <= i <= |units|
      invariant team1LeaderAlive == TeamLeaderAlive(units[..i], TEAM1)
      invariant team2LeaderAlive == TeamLeaderAlive(units[..i], TEAM2)
    {
      var identity := units[i].identity;
      var isAlive := !IsBroken(units[i].status);
      if identity.team == TEAM1 {
        if identity.isLeader && isAlive {
          team1LeaderAlive := true;
        }
      } else if identity.team == TEAM2 {
        if identity.isLeader && isAlive {
          team2LeaderAlive := true;
        }
      }
      assert units[..i + 1] == units[..i] + [units[i]];
      i := i + 1;
    }
    assert units[..i] == units;
  }

  /** The leader scan of Update: whether each team has a leader at all. */
  method ScanLeaders(units: seq<Unit>) returns (team1LeaderExists: bool, team2LeaderExists: bool)
    ensures team1LeaderExists == TeamLeaderExists(units, TEAM1) && team2LeaderExists == TeamLeaderExists(units, TEAM2)
  {
    team1LeaderExists, team2LeaderExists := false, false;
    var i := 0;
    while i < |units|
      invariant 0 <= i <= |units|
      invariant team1LeaderExists == TeamLeaderExists(units[..i], TEAM1)
      invariant team2LeaderExists == TeamLeaderExists(units[..i], TEAM2)
    {
      var id := units[i].identity;
      if id.isLeader {
        if id.team == TEAM1 {
          team1LeaderExists := true;
        }
        if id.team == TEAM2 {
          team2LeaderExists := true;
        }
      }
      assert units[..i + 1] == units[..i] + [units[i]];
      i := i + 1;
    }
    assert units[..i] == units;
  }

  /** GameRuleSystem.Update: with a game that is not over, a verdict ends it. */
  method GameRuleUpdate(w: World)
    modifies w
    ensures w.units == old(w.units) && w.actionSelect == old(w.actionSelect) && w.config == old(w.config)
    ensures old(w.gameState).None? ==> w.gameState == old(w.gameState)
    ensures old(w.gameState).Some? ==> w.gameState == Some(Judged(old(w.gameState).value, w.units))
  {
    if w.gameState.None? {
      return;
    }
    var gs := w.gameState.value;
    if gs.currentState == GameOver {
      return;
    }
    var team1LeaderAlive, team2LeaderAlive := ScanAlive(w.units);
    var team1LeaderExists, team2LeaderExists := ScanLeaders(w.units);
    if team1LeaderExists && !team1LeaderAlive {
      gs := gs.(winner := TEAM2, currentState := GameOver, message := Victory(TEAM2));
      w.gameState := Some(gs);
      return;
    }
    if team2LeaderExists && !team2LeaderAlive {
      gs := gs.(winner := TEAM1, currentState := GameOver, message := Victory(TEAM1));
      w.gameState := Some(gs);
      return;
    }
  }
}
