/**
 * The ECS player-input system (player_input_system.go). During play, with
 * nobody waiting, every player unit that is ready to choose joins the
 * action queue and the game switches to action selection; during action
 * selection the unit at the head of the queue gets its buttons (its intact
 * charged head and arm parts) and a default target, and a click on a button
 * commits the action and moves on to the next unit.
 *
 * The mouse is a parameter (`None` for no click on this frame, else the
 * cursor), and so is the random pick of the default target. The screen
 * layout is the UI part of the configuration.
 */
module PlayerInputSystem {
  import opened Optional
  import opened Models
  import opened EcsWorld

  /** The layout numbers the buttons are placed with: screen size in pixels, button sizes as float32 values. */
  datatype UiLayout = UiLayout(screenWidth: int, screenHeight: int, buttonWidth: real, buttonHeight: real, buttonSpacing: real)

  /** The layout of config.go: a 960 x 540 screen and 300 x 35 buttons 5 apart. */
  const DEFAULT_LAYOUT: UiLayout := UiLayout(960, 540, 300.0, 35.0, 5.0)

  datatype Point = Point(x: int, y: int)

  /** A rectangle holding the points with minX <= x < maxX and minY <= y < maxY. */
  datatype Rect = Rect(minX: int, minY: int, maxX: int, maxY: int)

  function Min(a: int, b: int): int {
    if a < b then a else b
  }

  /** image.Rect: the rectangle between two corners, put in order. */
  function MakeRect(x0: int, y0: int, x1: int, y1: int): (r: Rect)
    ensures r.minX <= r.maxX && r.minY <= r.maxY
    ensures x0 <= x1 && y0 <= y1 ==> r == Rect(x0, y0, x1, y1)
  {
    Rect(Min(x0, x1), Min(y0, y1), Max(x0, x1), Max(y0, y1))
  }

  /** image.Point.In: inside on the minimum sides, outside on the maximum sides. */
  predicate In(p: Point, r: Rect) {
    r.minX <= p.x < r.maxX && r.minY <= p.y < r.maxY
  }

  /** Go's int / 2 on a screen size, which truncates toward zero. */
  function Half(n: int): int {
    Trunc(n as real / 2.0)
  }

  /** Button i: centred horizontally, stacked downwards from 50 pixels above the middle of the screen. */
  function ButtonRect(ui: UiLayout, i: nat): Rect {
    var x := Half(ui.screenWidth) - Trunc(ui.buttonWidth / 2.0);
    var y := Half(ui.screenHeight) - 50 + (Trunc(ui.buttonHeight) + Trunc(ui.buttonSpacing)) * i;
    MakeRect(x, y, x + Trunc(ui.buttonWidth), y + Trunc(ui.buttonHeight))
  }

  /** The first of buttons from..n-1 that holds the point. */
  function FirstButton(ui: UiLayout, n: nat, p: Point, from: nat): (r: Option<nat>)
    ensures r.Some? ==> from <= r.value < n && In(p, ButtonRect(ui, r.value))
    ensures r.None? ==> forall i :: from <= i < n ==> !In(p, ButtonRect(ui, i))
    decreases n - from
  {
    if from >= n then None
    else if In(p, ButtonRect(ui, from)) then Some(from)
    else FirstButton(ui, n, p, from + 1)
  }

  /** With the default layout, button i spans x in [330, 630) and y in [220 + 40i, 255 + 40i). */
  lemma DefaultButtons(i: nat)
    ensures ButtonRect(DEFAULT_LAYOUT, i) == Rect(330, 220 + 40 * i, 630, 255 + 40 * i)
  {
    assert Half(960) == 480 && Half(540) == 270;
    assert Trunc(300.0 / 2.0) == 150 && Trunc(300.0) == 300 && Trunc(35.0) == 35 && Trunc(5.0) == 5;
  }

  /**
   * Buttons whose height and spacing do not truncate below 0 never overlap:
   * a point is in a later button only if it is in no earlier one, so the
   * first button holding the click is the only one.
   */
  lemma ButtonsStacked(ui: UiLayout, n: nat, p: Point)
    requires Trunc(ui.buttonHeight) >= 0 && Trunc(ui.buttonSpacing) >= 0
    ensures forall i, j :: 0 <= i < j && In(p, ButtonRect(ui, i)) ==> !In(p, ButtonRect(ui, j))
    ensures forall i :: 0 <= i < n ==> (FirstButton(ui, n, p, 0) == Some(i) <==> In(p, ButtonRect(ui, i)))
  {
    forall i, j | 0 <= i < j
      ensures ButtonRect(ui, j).minY >= ButtonRect(ui, i).maxY
    {
      ButtonRows(ui, i);
      ButtonRows(ui, j);
      StepMonotone(Trunc(ui.buttonHeight) + Trunc(ui.buttonSpacing), i, j);
    }
    forall i | 0 <= i < n
      ensures FirstButton(ui, n, p, 0) == Some(i) <==> In(p, ButtonRect(ui, i))
    {
      if In(p, ButtonRect(ui, i)) {
        assert FirstButton(ui, n, p, 0).Some?;
      }
    }
  }

  /** Row i of the buttons starts (height + spacing) * i below row 0 and is `height` tall. */
  lemma ButtonRows(ui: UiLayout, i: nat)
    requires Trunc(ui.buttonHeight) >= 0
    ensures ButtonRect(ui, i).minY == Half(ui.screenHeight) - 50 + (Trunc(ui.buttonHeight) + Trunc(ui.buttonSpacing)) * i
    ensures ButtonRect(ui, i).maxY == ButtonRect(ui, i).minY + Trunc(ui.buttonHeight)
  {
  }

  /** A step of k >= 0 per row puts a later row at least one step below an earlier one. */
  lemma StepMonotone(k: int, i: nat, j: nat)
    requires k >= 0 && i < j
    ensures k * j >= k * i + k
  {
    assert k * j == k * i + k * (j - i);
    assert k * (j - i) >= k by {
      assert j - i >= 1;
    }
  }

  /** The units the first phase enqueues: player-controlled, without the Broken tag, ready to choose. */
  predicate WaitsForPlayer(u: Unit) {
    u.control == PlayerControlled && !u.tags.broken && u.status.state == ReadyToSelectAction
  }

  /** The handles of the waiting player units, in world order. */
  function ReadyPlayers(units: seq<Unit>): (r: seq<EntityId>)
    ensures forall i :: 0 <= i < |r| ==> ValidEntity(units, r[i])
  {
    if units == [] then []
    else ReadyPlayers(units[..|units| - 1]) + (if WaitsForPlayer(units[|units| - 1]) then [|units|] else [])
  }

  /** A handle is enqueued exactly when its unit waits for the player, once each and in world order. */
  lemma {:induction false} ReadyPlayersExact(units: seq<Unit>)
    ensures forall e :: e in ReadyPlayers(units) <==> ValidEntity(units, e) && WaitsForPlayer(UnitAt(units, e))
    ensures forall i, j :: 0 <= i < j < |ReadyPlayers(units)| ==> ReadyPlayers(units)[i] < ReadyPlayers(units)[j]
  {
    if units != [] {
      var prefix := units[..|units| - 1];
      ReadyPlayersExact(prefix);
      forall e | ValidEntity(prefix, e) ensures UnitAt(prefix, e) == UnitAt(units, e) { }
    }
  }

  /** The loop of the first phase: the waiting player units, appended in world order. */
  method EnqueueReady(units: seq<Unit>) returns (queue: seq<EntityId>)
    ensures queue == ReadyPlayers(units)
  {
    queue := [];
    var i := 0;
    while i < |units|
      invariant 0 <= i <= |units|
      invariant queue == ReadyPlayers(units[..i])
    {
      assert units[..i + 1][..i] == units[..i];
      if WaitsForPlayer(units[i]) {
        queue := queue + [i + 1];
      }
      i := i + 1;
    }
    assert units[..i] == units;
  }

  /**
   * The first phase: during play with an empty queue the waiting player
   * units are enqueued, and a non-empty queue switches to action
   * selection; during play with a queue the update ends here (None).
   */
  function EnqueuePhase(units: seq<Unit>, gs: GameStateRec, sel: ActionSelect): Option<(GameStateRec, ActionSelect)> {
    if gs.currentState != Playing then Some((gs, sel))
    else if |sel.actionQueue| > 0 then None
    else
      var queue := ReadyPlayers(units);
      Some((if |queue| > 0 then gs.(currentState := PlayerActionSelect) else gs, sel.(actionQueue := queue)))
  }

  /**
   * During play a queue left from before ends the update; an empty one is
   * filled with exactly the waiting player units, and action selection
   * starts exactly when one is waiting. Outside play nothing changes.
   */
  lemma EnqueuePhaseRules(units: seq<Unit>, gs: GameStateRec, sel: ActionSelect)
    ensures gs.currentState == Playing && |sel.actionQueue| > 0 ==> EnqueuePhase(units, gs, sel).None?
    ensures gs.currentState != Playing ==> EnqueuePhase(units, gs, sel) == Some((gs, sel))
    ensures gs.currentState == Playing && |sel.actionQueue| == 0 ==>
      && EnqueuePhase(units, gs, sel).Some?
      && var (gs', sel') := EnqueuePhase(units, gs, sel).value;
      && (forall e :: e in sel'.actionQueue <==> ValidEntity(units, e) && WaitsForPlayer(UnitAt(units, e)))
      && (gs'.currentState == PlayerActionSelect <==> exists i :: 0 <= i < |units| && WaitsForPlayer(units[i]))
      && gs' == gs.(currentState := gs'.currentState)
      && sel' == sel.(actionQueue := sel'.actionQueue)
  {
    ReadyPlayersExact(units);
    ReadyPlayersNonEmpty(units);
  }

  /** Some handle is enqueued exactly when some unit waits for the player. */
  lemma {:induction false} ReadyPlayersNonEmpty(units: seq<Unit>)
    ensures |ReadyPlayers(units)| > 0 <==> exists i :: 0 <= i < |units| && WaitsForPlayer(units[i])
  {
    if units != [] {
      var init := units[..|units| - 1];
      ReadyPlayersNonEmpty(init);
      if exists i :: 0 <= i < |init| && WaitsForPlayer(init[i]) {
        var i :| 0 <= i < |init| && WaitsForPlayer(init[i]);
        assert init[i] == units[i];
      }
      if exists i :: 0 <= i < |units| && WaitsForPlayer(units[i]) {
        var i :| 0 <= i < |units| && WaitsForPlayer(units[i]);
        if i < |init| {
          assert init[i] == units[i];
        }
      }
    }
  }

  /**
   * initializeActionUI: the head's intact charged head and arm slots become
   * the buttons; without any, the head leaves the queue; otherwise a random
   * targetable opponent, if there is one, becomes the current target.
   */
  function InitUI(units: seq<Unit>, head: EntityId, sel: ActionSelect, pick: nat): ActionSelect
    requires ValidEntity(units, head) && |sel.actionQueue| > 0
  {
    var u := UnitAt(units, head);
    var available := ChargedSlots(u.parts, ATTACK_SLOTS);
    if |available| == 0 then sel.(availableActions := available, actionQueue := sel.actionQueue[1..])
    else
      var candidates := Targets(units, ExecOpponent(u.identity.team));
      sel.(availableActions := available,
           currentTarget := if |candidates| > 0 then candidates[pick % |candidates|] else sel.currentTarget)
  }

  /** The world after one update: its units, game state and action selection. */
  datatype Outcome = Outcome(units: seq<Unit>, gs: GameStateRec, sel: ActionSelect)

  /** Committing an action: the slot and target chosen, charging from 0 with the trait's flags and the charging tag. */
  function Commit(u: Unit, slot: Slot, target: EntityId): Unit
    requires slot in u.parts
  {
    u.(action := u.action.(selectedPartKey := Some(slot), targetedMedarot := target),
       status := WithTraitFlags(u.status.(state := ActionCharging, gauge := 0.0), u.parts[slot].actionTrait),
       tags := u.tags.(charging := true))
  }

  /**
   * handleMouseInput: on a click inside a button, an attack without a usable
   * current target is ignored and anything else is committed, after which
   * the head leaves the queue, the buttons and the target are cleared, and
   * an empty queue returns to play. None where the Go code panics: a click
   * without the configuration, a button whose slot the head lacks, or a
   * commit with an empty queue.
   */
  function MouseInput(units: seq<Unit>, head: EntityId, gs: GameStateRec, sel: ActionSelect, ui: UiLayout,
                      click: Option<Point>, hasConfig: bool): Option<Outcome>
    requires ValidEntity(units, head)
  {
    if click.None? then Some(Outcome(units, gs, sel))
    else if !hasConfig then None
    else
      match FirstButton(ui, |sel.availableActions|, click.value, 0)
      case None => Some(Outcome(units, gs, sel))
      case Some(i) =>
        var slot := sel.availableActions[i];
        var u := UnitAt(units, head);
        if slot !in u.parts then None
        else
          var targetIsValid := ValidEntity(units, sel.currentTarget) && !IsBroken(UnitAt(units, sel.currentTarget).status);
          if IsAttack(u.parts[slot].category) && !targetIsValid then Some(Outcome(units, gs, sel))
          else if |sel.actionQueue| == 0 then None
          else
            var queue := sel.actionQueue[1..];
            Some(Outcome(units[head - 1 := Commit(u, slot, sel.currentTarget)],
                         if |queue| == 0 then gs.(currentState := Playing) else gs,
                         sel.(actionQueue := queue, availableActions := [], currentTarget := NO_ENTITY)))
  }

  /**
   * The second phase: an empty queue returns to play; a head that is no
   * entity or is broken leaves the queue; otherwise the buttons are set up
   * if there are none and the click is handled.
   */
  function SelectPhase(units: seq<Unit>, gs: GameStateRec, sel: ActionSelect, ui: UiLayout, pick: nat,
                       click: Option<Point>, hasConfig: bool): Option<Outcome>
  {
    if gs.currentState != PlayerActionSelect then Some(Outcome(units, gs, sel))
    else if |sel.actionQueue| == 0 then Some(Outcome(units, gs.(currentState := Playing), sel))
    else
      var head := sel.actionQueue[0];
      if !ValidEntity(units, head) || IsBroken(UnitAt(units, head).status) then
        Some(Outcome(units, gs, sel.(actionQueue := sel.actionQueue[1..])))
      else
        var sel' := if |sel.availableActions| == 0 then InitUI(units, head, sel, pick) else sel;
        MouseInput(units, head, gs, sel', ui, click, hasConfig)
  }

  /** PlayerInputSystem.Update as a whole; None where the Go code panics. */
  function InputOutcome(units: seq<Unit>, gs: GameStateRec, sel: ActionSelect, ui: UiLayout, pick: nat,
                        click: Option<Point>, hasConfig: bool): Option<Outcome>
  {
    match EnqueuePhase(units, gs, sel)
    case None => Some(Outcome(units, gs, sel))
    case Some((gs', sel')) => SelectPhase(units, gs', sel', ui, pick, click, hasConfig)
  }

  /** The buttons only ever offer head and arm slots. */
  predicate OffersAttackSlots(sel: ActionSelect) {
    forall i :: 0 <= i < |sel.availableActions| ==> sel.availableActions[i] in ATTACK_SLOTS
  }

  /**
   * A committed unit: it charges from 0 with the charging tag, its selected
   * slot is a head or arm slot it has, an attack aims at an entity of the
   * world that is not broken, and its identity and parts are unchanged.
   */
  predicate Committed(u: Unit, v: Unit, units: seq<Unit>) {
    && v.status.state == ActionCharging && v.status.gauge == 0.0 && v.tags.charging
    && v.identity == u.identity && v.parts == u.parts
    && v.action.selectedPartKey.Some?
    && var slot := v.action.selectedPartKey.value;
    && slot in ATTACK_SLOTS && slot in u.parts
    && (IsAttack(u.parts[slot].category) ==>
          ValidEntity(units, v.action.targetedMedarot) && !IsBroken(UnitAt(units, v.action.targetedMedarot).status))
  }

  /**
   * handleMouseInput changes no unit but the head, and the head only by
   * committing a clicked button's action, which clears the buttons and the
   * target and removes the head from the queue; without a click nothing
   * changes.
   */
  lemma MouseInputRules(units: seq<Unit>, head: EntityId, gs: GameStateRec, sel: ActionSelect, ui: UiLayout,
                        click: Option<Point>, hasConfig: bool)
    requires ValidEntity(units, head) && OffersAttackSlots(sel)
    requires MouseInput(units, head, gs, sel, ui, click, hasConfig).Some?
    ensures var o := MouseInput(units, head, gs, sel, ui, click, hasConfig).value;
      && OffersAttackSlots(o.sel)
      && (click.None? ==> o == Outcome(units, gs, sel))
      && (o != Outcome(units, gs, sel) ==>
            && o.units == units[head - 1 := o.units[head - 1]]
            && Committed(units[head - 1], o.units[head - 1], units)
            && |sel.actionQueue| > 0 && o.sel.actionQueue == sel.actionQueue[1..]
            && o.sel.availableActions == [] && o.sel.currentTarget == NO_ENTITY
            && (o.gs.currentState == Playing <==> gs.currentState == Playing || |sel.actionQueue| == 1))
  {
    var o := MouseInput(units, head, gs, sel, ui, click, hasConfig).value;
    if click.Some? && hasConfig {
      var b := FirstButton(ui, |sel.availableActions|, click.value, 0);
      if b.Some? {
        var slot := sel.availableActions[b.value];
        var u := UnitAt(units, head);
        if o != Outcome(units, gs, sel) {
          assert o.units[head - 1] == Commit(u, slot, sel.currentTarget);
        }
      }
    }
  }

  /** The buttons set up for a head offer only its head and arm slots. */
  lemma InitUIOffersAttackSlots(units: seq<Unit>, head: EntityId, sel: ActionSelect, pick: nat)
    requires ValidEntity(units, head) && |sel.actionQueue| > 0 && OffersAttackSlots(sel)
    ensures OffersAttackSlots(InitUI(units, head, sel, pick))
    ensures InitUI(units, head, sel, pick).actionQueue == sel.actionQueue
      || InitUI(units, head, sel, pick).actionQueue == sel.actionQueue[1..]
  {
    ChargedSlotsExact(UnitAt(units, head).parts, ATTACK_SLOTS);
    var available := ChargedSlots(UnitAt(units, head).parts, ATTACK_SLOTS);
    assert forall k :: 0 <= k < |available| ==> available[k] in available;
  }

  /** The queue after the first phase, whether or not the update goes on. */
  function QueueAfterEnqueue(units: seq<Unit>, gs: GameStateRec, sel: ActionSelect): seq<EntityId> {
    if EnqueuePhase(units, gs, sel).Some? then EnqueuePhase(units, gs, sel).value.1.actionQueue else sel.actionQueue
  }

  /**
   * What an update does to the units: without a click none changes; with
   * one, at most the unit at the head of the queue changes, by committing
   * an action, after which the buttons and the current target are clear
   * and the head has left the queue. The buttons keep offering only head
   * and arm slots.
   */
  lemma InputRules(units: seq<Unit>, gs: GameStateRec, sel: ActionSelect, ui: UiLayout, pick: nat,
                   click: Option<Point>, hasConfig: bool)
    requires InputOutcome(units, gs, sel, ui, pick, click, hasConfig).Some?
    requires OffersAttackSlots(sel)
    ensures var o := InputOutcome(units, gs, sel, ui, pick, click, hasConfig).value;
      var queue := QueueAfterEnqueue(units, gs, sel);
      && OffersAttackSlots(o.sel)
      && (click.None? ==> o.units == units)
      && (o.units != units ==>
            && |queue| > 0 && ValidEntity(units, queue[0])
            && o.units == units[queue[0] - 1 := o.units[queue[0] - 1]]
            && Committed(units[queue[0] - 1], o.units[queue[0] - 1], units)
            && o.sel.actionQueue == queue[1..]
            && o.sel.availableActions == [] && o.sel.currentTarget == NO_ENTITY)
  {
    var p1 := EnqueuePhase(units, gs, sel);
    if p1.Some? {
      var (gs1, sel1) := p1.value;
      assert OffersAttackSlots(sel1);
      if gs1.currentState == PlayerActionSelect && |sel1.actionQueue| > 0 {
        var head := sel1.actionQueue[0];
        if ValidEntity(units, head) && !IsBroken(UnitAt(units, head).status) {
          var sel2 := if |sel1.availableActions| == 0 then InitUI(units, head, sel1, pick) else sel1;
          if |sel1.availableActions| == 0 {
            InitUIOffersAttackSlots(units, head, sel1, pick);
          }
          MouseInputRules(units, head, gs1, sel2, ui, click, hasConfig);
          var o := MouseInput(units, head, gs1, sel2, ui, click, hasConfig).value;
          if o != Outcome(units, gs1, sel2) {
            assert |sel2.availableActions| > 0;
            assert sel2.actionQueue == sel1.actionQueue;
          }
        }
      }
    }
  }

  /** The slot loop of initializeActionUI: the intact charged head and arm slots, in order. */
  method ChargedAttackSlots(parts: PartMap) returns (available: seq<Slot>)
    ensures available == ChargedSlots(parts, ATTACK_SLOTS)
  {
    available := ScanCharged(parts, ATTACK_SLOTS);
  }

  /** The loop over `slots`, keeping each slot whose part is intact and charged. */
  method ScanCharged(parts: PartMap, slots: seq<Slot>) returns (available: seq<Slot>)
    ensures available == ChargedSlots(parts, slots)
  {
    available := [];
    var i := 0;
    while i < |slots|
      invariant 0 <= i <= |slots|
      invariant available + ChargedSlots(parts, slots[i..]) == ChargedSlots(parts, slots)
    {
      var slotKey := slots[i];
      ChargedSlotsStep(parts, slots, i);
      if slotKey in parts && !parts[slotKey].isBroken && parts[slotKey].charge > 0 {
        available := available + [slotKey];
      }
      i := i + 1;
    }
    assert slots[i..] == [];
  }

  /** initializeActionUI on the world. */
  method InitializeActionUI(w: World, head: EntityId, pick: nat)
    requires ValidEntity(w.units, head) && w.actionSelect.Some? && |w.actionSelect.value.actionQueue| > 0
    modifies w
    ensures w.units == old(w.units) && w.gameState == old(w.gameState) && w.config == old(w.config)
    ensures w.actionSelect == Some(InitUI(w.units, head, old(w.actionSelect).value, pick))
  {
    var sel := w.actionSelect.value;
    var available := ChargedAttackSlots(w.units[head - 1].parts);
    sel := sel.(availableActions := available);
    if |available| == 0 {
      sel := sel.(actionQueue := sel.actionQueue[1..]);
      w.actionSelect := Some(sel);
      return;
    }
    var candidates := Targets(w.units, ExecOpponent(w.units[head - 1].identity.team));
    if |candidates| > 0 {
      sel := sel.(currentTarget := candidates[pick % |candidates|]);
    }
    w.actionSelect := Some(sel);
  }

  /** The button loop of handleMouseInput: the first button holding the point. */
  method FindButton(ui: UiLayout, n: nat, p: Point) returns (r: Option<nat>)
    ensures r == FirstButton(ui, n, p, 0)
  {
    var i := 0;
    while i < n
      invariant 0 <= i <= n
      invariant FirstButton(ui, n, p, 0) == FirstButton(ui, n, p, i)
    {
      if In(p, ButtonRect(ui, i)) {
        return Some(i);
      }
      i := i + 1;
    }
    return None;
  }

  /** handleMouseInput on the world. */
  method HandleMouseInput(w: World, head: EntityId, ui: UiLayout, click: Option<Point>)
    requires ValidEntity(w.units, head) && w.gameState.Some? && w.actionSelect.Some?
    requires MouseInput(w.units, head, w.gameState.value, w.actionSelect.value, ui, click, w.config.Some?).Some?
    modifies w
    ensures w.gameState.Some? && w.actionSelect.Some? && w.config == old(w.config)
    ensures Outcome(w.units, w.gameState.value, w.actionSelect.value)
      == MouseInput(old(w.units), head, old(w.gameState).value, old(w.actionSelect).value, ui, click, old(w.config).Some?).value
  {
    if click.None? {
      return;
    }
    var sel := w.actionSelect.value;
    var button := FindButton(ui, |sel.availableActions|, click.value);
    if button.None? {
      return;
    }
    var slotKey := sel.availableActions[button.value];
    var u := w.units[head - 1];
    var partData := u.parts[slotKey];
    var targetIsValid := false;
    if ValidEntity(w.units, sel.currentTarget) && !IsBroken(w.units[sel.currentTarget - 1].status) {
      targetIsValid := true;
    }
    if IsAttack(partData.category) && !targetIsValid {
      return;
    }
    u := u.(action := u.action.(selectedPartKey := Some(slotKey), targetedMedarot := sel.currentTarget));
    u := u.(status := u.status.(state := ActionCharging, gauge := 0.0));
    u := u.(status := WithTraitFlags(u.status, partData.actionTrait));
    u := u.(tags := u.tags.(charging := true));
    w.units := w.units[head - 1 := u];
    sel := sel.(actionQueue := sel.actionQueue[1..]);
    sel := sel.(availableActions := [], currentTarget := NO_ENTITY);
    w.actionSelect := Some(sel);
    if |sel.actionQueue| == 0 {
      w.gameState := Some(w.gameState.value.(currentState := Playing));
    }
  }

  /** The second phase on the world. */
  method SelectAction(w: World, ui: UiLayout, pick: nat, click: Option<Point>)
    requires w.gameState.Some? && w.actionSelect.Some?
    requires SelectPhase(w.units, w.gameState.value, w.actionSelect.value, ui, pick, click, w.config.Some?).Some?
    modifies w
    ensures w.gameState.Some? && w.actionSelect.Some? && w.config == old(w.config)
    ensures Outcome(w.units, w.gameState.value, w.actionSelect.value)
      == SelectPhase(old(w.units), old(w.gameState).value, old(w.actionSelect).value, ui, pick, click, old(w.config).Some?).value
  {
    var gs := w.gameState.value;
    var sel := w.actionSelect.value;
    if gs.currentState != PlayerActionSelect {
      return;
    }
    if |sel.actionQueue| == 0 {
      w.gameState := Some(gs.(currentState := Playing));
      return;
    }
    var head := sel.actionQueue[0];
    if !ValidEntity(w.units, head) || IsBroken(w.units[head - 1].status) {
      w.actionSelect := Some(sel.(actionQueue := sel.actionQueue[1..]));
      return;
    }
    if |sel.availableActions| == 0 {
      InitializeActionUI(w, head, pick);
    }
    HandleMouseInput(w, head, ui, click);
  }

  /**
   * PlayerInputSystem.Update: both singletons must exist, and the update
   * must not reach one of the panics of MouseInput.
   */
  method Update(w: World, ui: UiLayout, pick: nat, click: Option<Point>)
    requires w.gameState.Some? && w.actionSelect.Some?
    requires InputOutcome(w.units, w.gameState.value, w.actionSelect.value, ui, pick, click, w.config.Some?).Some?
    modifies w
    ensures w.gameState.Some? && w.actionSelect.Some? && w.config == old(w.config)
    ensures Outcome(w.units, w.gameState.value, w.actionSelect.value)
      == InputOutcome(old(w.units), old(w.gameState).value, old(w.actionSelect).value, ui, pick, click, old(w.config).Some?).value
  {
    var gs := w.gameState.value;
    var sel := w.actionSelect.value;
    ghost var units := w.units;
    if gs.currentState == Playing {
      if |sel.actionQueue| > 0 {
        return;
      }
      var queue := EnqueueReady(w.units);
      assert sel.actionQueue + queue == queue;
      sel := sel.(actionQueue := sel.actionQueue + queue);
      if |sel.actionQueue| > 0 {
        gs := gs.(currentState := PlayerActionSelect);
      }
      w.gameState := Some(gs);
      w.actionSelect := Some(sel);
    }
    assert EnqueuePhase(units, old(w.gameState).value, old(w.actionSelect).value) == Some((gs, sel));
    SelectAction(w, ui, pick, click);
  }
}
