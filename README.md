# Medarot-style combat engine — a Dafny model

This project models the combat core of a small robot-battle game that exists in
several iterations:

- the browser engine of `script.js`: class `Player` (one unit's gauge and
  parts) and class `GameManager` (the tick loop, action selection and
  execution, the dialogs, game over);
- the first Go port, object oriented: the types of `models.go`, the unit
  methods of `medarot_logic.go` and the turn manager of `game.go`;
- the self-contained unit of `data_structures.go`;
- the entity-component-system (ECS) iteration: the world of components and
  tags, the split systems (`gauge_update_system.go`, `player_input_system.go`,
  `ai_system.go`, `action_execution_system.go`, `game_rule_system.go`, the
  helpers of `action_utils.go`) and the single-file rewrite of the same
  systems in `systems.go`;
- the set-up code: the entity factory of `medarot_initializer.go` and the CSV
  loaders of `csv_loader.go`.

Each unit has four parts (head, right arm, left arm, legs), a medal with
skills, a state (ready to select, charging, ready to execute, cooldown,
broken) and a gauge. Gauges fill over time; a full gauge lets a unit choose an
attack with one of its intact arm or head parts, or carry the chosen attack
out. An attack may miss, hits a random intact part of the target, and breaks
the part at 0 armor. A broken head knocks the unit out; a broken leader head
ends the game.

How the model is built:

- Objects whose fields the source updates in place are Dafny classes with
  `modifies` clauses (`JsPlayer.Player`, `JsGame.GameManager`,
  `MedarotLogic.Medarot`, `DataStructures.Medarot`, `OoGame.Game`,
  `EcsWorld.World`). Each state-changing method is proved against a pure
  function of the old state (`Snap() == NextTurn(old(Snap()), speed)`), and
  the properties the game promises are lemmas about those functions.
- In the ECS model an entity is a handle into `World.units` (index + 1, with
  0 as the null entity); a unit record holds the components, tags are boolean
  fields, and the singleton components are `Option` fields of the world. A
  system's query is the sequence of handles whose unit has the queried
  components, taken in one fixed order, that of `World.units`; each system is
  a loop over that sequence.
- Randomness is a parameter: `rand.Intn(n)` is an index below `n`, a percent
  roll is a number in [0, 100), `Math.random()` is a real in [0, 1), and
  `rand.Shuffle` is a permutation given as a sequence. Mouse input is a
  parameter too. Floating point is modelled by Dafny reals; Go's `int(x)`
  conversion is an explicit truncation toward zero.
- A Go panic (a nil map or a missing component) becomes a precondition where
  the calling code guarantees it cannot happen, and an `Option` otherwise.
- Text the game only displays is modelled by an enumerated message kind.

## Model

| member | source | states |
|---|---|---|
| JsPlayer.KeyOf | script.js:64-66 | a part name is mapped back to a key only if that key's property name is exactly the name; any other name has no part |
| JsPlayer.KeyRoundTrip | script.js:35-40 | each of the four part keys is found again from its own property name |
| JsPlayer.IntactKeys | script.js:56-60 | the keys kept are all of unbroken parts, and there are no more of them than keys offered |
| JsPlayer.IntactKeysExact | script.js:56-60 | a key is kept exactly when it was offered and its part is unbroken, and the part order of the object is preserved |
| JsPlayer.NoAttackPartMeansHeadBroken | script.js:56-60 | a unit offers no attack part exactly when its head and both arms are broken, and such a unit is Broken after its next turn |
| JsPlayer.FreshUnit | script.js:27-41 | after a full reset a unit has an empty gauge, is charging, has nothing selected or prepared, has head and arms at 50/50 HP and legs at 60/60, no broken part, and offers all four parts as intact |
| JsPlayer.DamageEffect | script.js:64-76 | a hit changes only the hit part (and the state when a head falls to 0): HP drops by the damage but never below 0, max HP is unchanged, the part is broken exactly when it was broken or is now at 0, and the unit turns broken exactly when its head is destroyed |
| JsPlayer.TurnEffect | script.js:77-87 | a turn changes only gauge and state: a unit with a broken head becomes broken and stays put, paused units keep their gauge, the gauge stays within [0, 100], and reaching 100 turns charging into cooldown_complete and selected_charging into ready_execute |
| JsPlayer.ChargeTakesHundredTurns | script.js:77-87 | a fresh charging unit of speed 1 has gauge n after n < 100 turns and reaches cooldown_complete with a full gauge after exactly 100 |
| JsPlayer.BrokenIsForever | script.js:78-80 | a broken unit, or one with a broken head, is broken after any number of turns and nothing else about it changes |
| JsPlayer.RepeatedHits | script.js:64-76 | n hits of the same positive damage on an intact part leave max(0, hp − n·damage) HP, and the part is broken exactly when that reaches 0 |
| JsPlayer.ThreeHitsBreakAFreshArm | script.js:64-76 | with the configured damage of 20, a fresh 50-HP arm has 10 HP and is intact after two hits and is broken at 0 after three |
| JsPlayer.Player.constructor | script.js:15-25 | a new unit keeps its id, team, speed and leader flag and starts in the full-reset state |
| JsPlayer.Player.FullReset | script.js:27-41 | the unit's state becomes the full-reset state whatever it was |
| JsPlayer.Player.StartCooldown | script.js:42-48 | gauge back to 0, state charging, selection and prepared attack dropped, parts untouched |
| JsPlayer.Player.SelectAction | script.js:49-54 | the chosen part and that part's action are recorded and the unit starts charging the action from an empty gauge |
| JsPlayer.Player.GetAvailableAttackParts | script.js:56-60 | the keys offered are unbroken non-leg parts, at most three of them |
| JsPlayer.Player.ApplyDamage | script.js:64-76 | for a known part name the unit takes the hit as `AfterDamage` describes and the result says whether the head was destroyed; an unknown name changes nothing and reports false |
| JsPlayer.Player.ProcessTurn | script.js:77-87 | the unit advances by one turn of its own speed as `NextTurn` describes |
| JsGame.Pick | script.js:323 | flooring a random real in [0, 1) times n gives an index below n |
| JsGame.FindIndex | script.js:244 | the index found is the first unit whose state is in the set, and there is none when no unit's state is |
| JsGame.ReadyForSelectionFound | script.js:61-63 | the states gameLoop's selection step looks for (script.js:249) find exactly the first unit for which `isReadyForSelection` holds, ready_select or cooldown_complete, and none when no unit is ready |
| JsGame.Enemies | script.js:283 | every unit kept is a unit of the list on the other team and not broken |
| JsGame.EnemiesExact | script.js:282-286 | every standing unit of the other team is kept, and the first one kept is the first such unit of the list |
| JsGame.FirstLeader | script.js:285 | the unit found is a leader of the list, and there is none when no unit of the list leads |
| JsGame.FindEnemyTarget | script.js:282-286 | a target found is a unit of the list that is a standing enemy of the attacker |
| JsGame.FindEnemyTargetChoice | script.js:282-286 | there is no target exactly when no enemy is standing; a standing enemy leader is always preferred; otherwise the target is the first standing enemy in list order |
| JsGame.GameManager.constructor | script.js:186-198 | six distinct fresh units: ids 1..6, team 1's three then team 2's, the first of each team leads, speed is the team's base speed plus a jitter in [0, 0.2), all fully reset; the game is idle with no dialog and no timer |
| JsGame.GameManager.PrepareAndShowExecutionModal | script.js:318-330 | with no standing enemy, or no intact part on the chosen target, the unit goes back to cooldown; otherwise it prepares a 20-damage attack on a randomly picked intact part of the target and the execution dialog opens; the prepared target is always a standing enemy |
| JsGame.GameManager.HandleActionExecution | script.js:265-269 | the unit becomes the active unit, the timer stops, and the attack is prepared as above |
| JsGame.GameManager.HandleActionSelection | script.js:270-281 | a team 2 unit selects its first available attack part when it has a target and such a part, and is otherwise broken; a team 1 unit becomes active, the timer stops and the selection dialog opens |
| JsGame.GameManager.ProcessAllTurns | script.js:262 | every unit advances by one turn of its own speed |
| JsGame.GameManager.GameLoop | script.js:241-264 | nothing happens while a unit is active or outside the selection and battle phases; otherwise the first unit ready to execute acts, else the first unit ready to select chooses, else the initial selection ends in the battle-start dialog or a battle turn passes for every unit; no unit other than the one acting changes |
| JsGame.GameManager.Tick | script.js:230 | the interval runs the game loop only while it is installed: while it runs the tick does exactly what `LoopStepped` says one call of `gameLoop` does, and without it nothing changes |
| JsGame.GameManager.Start | script.js:221-228 | only from idle: the initial selection begins, the timer runs, and every unit is ready to select with a full gauge and nothing else changed |
| JsGame.GameManager.Reset | script.js:231-239 | the game is idle with no active unit, no dialog and no timer, and every unit is fully reset |
| JsGame.GameManager.HandlePartSelection | script.js:287-293 | with no active unit nothing changes; otherwise the active unit selects the part, the dialog closes and the timer resumes |
| JsGame.GameManager.HandleBattleStartConfirm | script.js:294-299 | the battle phase begins, the dialog closes, the timer resumes, and every unit has advanced by one turn |
| JsGame.GameManager.ConfirmAttack | script.js:302-317 | the prepared attack hits its target as `AfterDamage` describes; when that destroys a leader's head the game is over with the attacker's team as winner and the timer stopped; otherwise the attacker cools down, the dialog closes and the timer resumes |
| JsGame.GameManager.HandleModalConfirm | script.js:300-317 | after game over the confirmation resets the game; with no active unit nothing changes; otherwise only the attacker and its target change, and a game over is only ever declared with a broken enemy leader on the losing side |
| Models.GetPart | medarot_logic.go:41-47 | no part is returned exactly when the slot is empty or its part is broken; otherwise the slot's own part |
| Models.IntactSlots | medarot_logic.go:253-265 | every slot listed holds an intact part, and no more slots are listed than were offered |
| Models.IntactSlotsExact | medarot_logic.go:253-265 | a slot is listed exactly when it was offered and is intact, and the head, right arm, left arm, legs order is kept |
| Models.ChargedSlots | medarot_logic.go:50-60 | every slot listed holds an intact part with a positive charge |
| Models.ChargedSlotsExact | medarot_logic.go:50-60 | a slot is listed exactly when it was offered, is intact and has a positive charge, in slot order |
| Models.AttackSlotOfType | game.go:346-354 | a part type that names a slot names one of head, right arm or left arm |
| Models.HitRules | medarot_logic.go:196-197 | a chance of at most 0 never hits, a chance of 100 or more always hits, a critical is always a hit with a chance over 100, and a chance of 200 or more is always critical |
| Models.PartToDamage | medarot_logic.go:253-265 | the slot chosen to take damage holds an intact part |
| Models.PartToDamageExact | medarot_logic.go:253-265 | no slot is chosen exactly when all four parts are missing or broken, and a chosen slot is one of the four |
| Models.DamagedEffect | medarot_logic.go:224-230 | armor drops by the damage but never below 0, the part is broken exactly when it was or its armor ran out, and nothing else about the part changes |
| MedarotLogic.DamageOf | medarot_logic.go:202-221 | every hit deals at least 1 damage |
| MedarotLogic.DamageRules | medarot_logic.go:202-221 | a non-critical hit deals the part's power plus twice the fighting skill (plus leg propulsion for Berserk) minus the part's and the legs' defense (none while defense is disabled), at least 1; a target part with more defense never takes more damage |
| MedarotLogic.AttackOf | medarot_logic.go:125-162 | an attack that lands has a target, hits an intact part of it and deals at least 1 damage |
| MedarotLogic.AttackRules | medarot_logic.go:135-161 | a missed roll leaves an evasion message and no hit; a chance of at most 0 never lands; a hit finds no part exactly when the target has no intact part |
| MedarotLogic.WithStateEffect | medarot_logic.go:25-38 | entering ready-to-select refills the gauge and clears the selection and both constraints; charging, cooldown and broken empty the gauge and keep the rest; ready-to-execute changes only the state; the parts and the target are never touched |
| MedarotLogic.UpdateEffect | medarot_logic.go:63-106 | a broken unit is left alone; a broken head stops the unit with an empty gauge; a charge or cooldown whose part is gone falls back to choosing; otherwise the gauge grows by the move speed and at 100 completes the charge (ready to execute) or the cooldown (ready to select); the gauge never passes 100 and the parts never change |
| MedarotLogic.BrokenHeadStopsForGood | medarot_logic.go:63-72 | after any positive number of updates a unit with a broken head is broken with an empty gauge, and nothing else about it has changed |
| MedarotLogic.GaugeCapped | medarot_logic.go:96-105 | the gauge stays at or below 100 however many updates run |
| MedarotLogic.SelectedEffect | medarot_logic.go:109-122 | a successful choice charges the chosen slot from 0, and Aim disables evasion, Strike defense and Berserk both, leaving parts and target alone |
| MedarotLogic.Medarot.constructor | medarot_logic.go:11-22 | a new unit keeps its identity and medal, has no parts, and waits for a choice with a full gauge and no constraint |
| MedarotLogic.Medarot.ChangeState | medarot_logic.go:25-38 | the unit's state becomes `WithState` of its old state |
| MedarotLogic.Medarot.GetPartAt | medarot_logic.go:41-47 | no part is returned exactly when the slot is empty or broken |
| MedarotLogic.Medarot.GetAvailableAttackParts | medarot_logic.go:50-60 | the parts returned are, in slot order, exactly the intact head and arm parts with a positive charge, at most three |
| MedarotLogic.Medarot.Update | medarot_logic.go:63-106 | the unit's state becomes `Updated` of its old state |
| MedarotLogic.Medarot.SelectAction | medarot_logic.go:109-122 | the choice succeeds exactly when the unit is ready to select and the slot's part is intact with a positive charge; a failed choice changes nothing |
| MedarotLogic.Medarot.ExecuteAction | medarot_logic.go:125-162 | the target takes the damage of the attack `AttackOf` describes, or is untouched when nothing lands, and the attacker always ends cooling down from 0 with its constraints lifted |
| MedarotLogic.Medarot.PerformAttack | medarot_logic.go:135-168 | the text left is the attack's against the unit's own recorded target (`determineTarget` ignores the opponents passed in), and that target changes only when a part of it is hit |
| MedarotLogic.Medarot.CalculateHit | medarot_logic.go:171-199 | the attack hits exactly when the chance is positive and above the roll, and is critical exactly when it hits with a chance over 100 and the second roll is below the excess |
| MedarotLogic.Medarot.CalculateDamage | medarot_logic.go:202-221 | the damage is `DamageOf` for the two units and parts, at least 1 |
| MedarotLogic.Medarot.ApplyDamage | medarot_logic.go:224-230 | only the hit part changes, as `Damaged` describes |
| MedarotLogic.Medarot.HandlePostAttack | medarot_logic.go:246-250 | the unit never changes, because the head lookup never returns a broken head |
| Models.CollectIntactSlots | medarot_logic.go:254-260 | the scan collects exactly the intact slots among head, right arm, left arm and legs, in that order |
| MedarotLogic.Medarot.SelectRandomPartToDamage | medarot_logic.go:253-265 | the slot chosen is an intact part of the unit, or none when all are broken |
| MedarotLogic.Medarot.ApplyActionConstraints | medarot_logic.go:268-278 | Aim switches evasion, Strike defense and Berserk both; other traits change nothing |
| DataStructures.GetPart | data_structures.go:73-79 | no part is returned exactly when the key is missing or its part is broken |
| DataStructures.IntactKeys | data_structures.go:82-91 | every key listed holds an intact part, and no more keys are listed than offered |
| DataStructures.IntactKeysExact | data_structures.go:82-91 | a key is listed exactly when it was offered and its part is intact |
| DataStructures.LegsNeverOffered | data_structures.go:82-91 | the legs are never offered for an action |
| DataStructures.ChargeRate | data_structures.go:133-140 | the gauge always grows by a positive amount per update |
| DataStructures.UpdateEffect | data_structures.go:121-185 | broken units and units waiting for a choice or an execution are left alone; a broken head stops the unit with an empty gauge; idle charging stops at the maximum, ready to choose; action charging stops at the charge time, ready to execute; a finished cooldown, or a charge or cooldown without a time, goes back to idle charging from 0; the parts never change |
| DataStructures.IdleStep | data_structures.go:143-150 | an idle-charging update below the maximum only adds the charge rate |
| DataStructures.IdleChargeProgress | data_structures.go:143-150 | idle charging gains the charge rate on every update while it stays below the maximum |
| DataStructures.IdleChargeCompletes | data_structures.go:143-150 | idle charging is ready to choose, with a full gauge, exactly at the first update whose total gain reaches the maximum |
| DataStructures.ExecutedEffect | data_structures.go:216-243 | an execution succeeds exactly when the unit was ready and its part is intact, and then cools down from 0 keeping its cooldown time; a lost part clears the selection and both times; outside ready-to-execute nothing changes |
| DataStructures.ActionCycle | data_structures.go:188-243 | a successful choice, a charge to the charge time, an execution and a cooldown to the cooldown time lead back to idle charging with nothing selected |
| DataStructures.Medarot.constructor | data_structures.go:95-111 | a new unit keeps its identity, speed and medal, has no parts, and charges idle from 0 towards 100 with nothing selected |
| DataStructures.Medarot.GetPartAt | data_structures.go:73-79 | no part is returned exactly when the key is missing or broken |
| DataStructures.Medarot.GetAvailableAttackParts | data_structures.go:82-91 | the parts returned are, in slot order, exactly the intact head and arm parts whatever their charge, at most three |
| DataStructures.Medarot.Update | data_structures.go:121-185 | the unit's state becomes `Updated` of its old state at its own speed |
| DataStructures.Medarot.SelectAction | data_structures.go:188-212 | the choice succeeds exactly when the unit is ready to select and the part is intact with a positive charge; a failed choice changes nothing |
| DataStructures.Medarot.ExecuteAction | data_structures.go:216-243 | the unit's state and the success flag are those of `Executed` |
| OoGame.Candidates | game.go:359-371 | every candidate is a listed unit, on the opposing team and not broken |
| OoGame.CandidatesExact | game.go:359-371 | a unit is a candidate exactly when it is listed, on the opposing team and not broken |
| OoGame.NeverOwnCandidate | game.go:361-366 | no unit is ever a target candidate of its own |
| OoGame.SelectTargetChoice | game.go:225-244 | the automatic target is missing exactly when no opponent stands, and otherwise is a standing opponent from the list, never the acting unit |
| OoGame.AiActionEffect | game.go:328-356 | the AI changes nothing unless the unit waits for a choice with a part available; a shooter without a target only records the missing target; a committed choice charges an intact head or arm with a positive charge from 0 |
| OoGame.CountSide | game.go:62-71 | a side never has more units among the first n than n |
| OoGame.DrawIndexOrder | game.go:62-71 | within a side, a unit later in the drawing order gets a larger draw index, and every index is below the side's unit count |
| OoGame.LastLeader | game.go:44-52 | the leader cached for a side is a listed leader of that side |
| OoGame.Game.constructor | game.go:19-79 | the game starts playing with an empty queue and no message, the player controls Team1, each side's last leader is cached, and each side's units are numbered 0, 1, 2, ... in drawing order with nothing else about them changed |
| OoGame.Game.GetTargetCandidates | game.go:359-371 | the candidates are the standing units of the opposing team in list order |
| OoGame.Game.SelectAutomaticTarget | game.go:225-244 | the target is `SelectTarget` for the acting unit |
| OoGame.Game.HandleAIAction | game.go:328-356 | the unit's state becomes `AfterAiAction` of its available parts and automatic target |
| OoGame.Game.QueueUpActionableMedarot | game.go:207-221 | a unit not waiting for a choice, or already queued by id, changes nothing; a waiting player unit is queued once at the end; a waiting AI unit chooses as the AI does, the queue unchanged |
| OoGame.Game.ShowMessage | game.go:168-181 | the game shows the message and keeps the callback to run on dismissal |
| OoGame.Game.SetupActionExecution | game.go:305-325 | a unit whose chosen part is gone goes back to choosing; otherwise its action is announced (with the target's name for a shooting action with a target) and the execution is run on dismissal |
| OoGame.Game.CheckAndHandleMedarotState | game.go:198-221 | the unit and the game end as `Handled` describes for the unit's old state: a unit ready to execute goes back to choosing when its part is gone and otherwise announces its action; an AI unit waiting for a choice and not yet queued chooses its action against `SelectTarget`; a player unit in that case joins the queue; the game state changes only to showing a message |
| OoGame.Game.CheckGameEnd | game.go:374-387 | a game already over stays as it is; otherwise a broken Team1 leader makes Team2 the winner, else a broken Team2 leader makes Team1 the winner, else nothing changes |
| OoGame.Game.TryEnterActionSelect | game.go:247-261 | while playing, a queue headed by a player unit opens the choice and keeps the previous target only while it stands; otherwise nothing changes |
| OoGame.Game.UpdatePlayerActionSelect | game.go:267-282 | with no player unit at the head of the queue play resumes without a target; otherwise nothing changes |
| OoGame.Game.PlayUnit | game.go:185-192 | the units and the game end as `TurnAt` describes the unit's turn: a broken unit is skipped, any other is updated and then handled as `Handled` says, against the standing opponents as they are after the update |
| OoGame.Game.UpdateUnit | game.go:190 | the unit's snapshot becomes `Updated` of its old one, and no other unit changes |
| OoGame.Game.HandleUnit | game.go:191 | the units and the game end as `HandledAt` describes |
| OoGame.Game.PlayRound | game.go:185-192 | the units and the game end as `Turns` describes: every unit takes its turn in list order, each seeing the units as the earlier turns left them |
| OoGame.Game.CloseRound | game.go:193-194 | a broken Team1 leader ends the game for Team2, else a broken Team2 leader ends it for Team1; then, while play goes on and a player unit heads the queue, the player is asked to choose, with the kept target or `SelectTarget` when it is missing or broken |
| OoGame.Game.UpdatePlaying | game.go:184-195 | the units end as `Turns` describes the round and the game as `CloseRound` describes on the round's outcome; broken units never change; the queue only grows at the end, with player units waiting for a choice, and stays free of duplicate ids; a broken Team1 leader ends the game for Team2, else a broken Team2 leader ends it for Team1 |
| OoGame.TurnUnitEffect | game.go:185-221 | a broken unit's turn leaves it as it is; otherwise it is updated, and then a unit ready to execute keeps its state while its part is intact and goes back to choosing when it is gone; an AI unit waiting for a choice and not queued chooses as `AfterAiAction` says, against a standing opponent or nothing; every other unit keeps its updated state |
| OoGame.RoundUnitEffect | game.go:185-192 | after a whole round each unit is what its own turn made of it, and no turn before its own touched it |
| OoGame.RoundQueue | game.go:185-192 | over a round broken units never change, the queue only grows at its end, with player units left waiting for a choice, and keeps its ids distinct, and the game state changes only to showing a message |
| OoGame.CandidatesView | game.go:359-371 | the standing opponents read from the units agree with those read from their snapshots |
| OoGame.AssignDrawIndices | game.go:62-71 | each unit in the given order gets the number of units of its side before it, and nothing else about it changes |
| EcsWorld.OpponentRules | ai_system.go:64-67 | the AI's way of computing the opposing team and the execution system's agree on Team1 and Team2 and never give a team itself, but differ for any other team value |
| EcsWorld.Targets | action_execution_system.go:92-98 | every handle listed names an entity of the world |
| EcsWorld.TargetsExact | action_execution_system.go:92-98 | a handle is listed exactly when it names a unit of the team with no Broken tag and not in the Broken state, in the order of `World.units` without repeats |
| EcsWorld.TargetsFrame | action_execution_system.go:92-98 | the targets depend only on the units' Broken tags, identities and broken states |
| EcsWorld.WithTraitFlags | ai_system.go:87-94 | committing to a trait never changes the state or the gauge |
| EcsWorld.TraitFlagsEffect | ai_system.go:87-94 | evasion is disabled afterwards exactly when it was or the trait is Aim or Berserk, defense exactly when it was or the trait is Strike or Berserk |
| ActionUtils.ShowGameMessage | action_utils.go:13-26 | with a game state the message and its continuation are stored and the message state entered; without one nothing is stored and the continuation is handed back to run at once; units and the other singletons never change |
| ActionUtils.CalculateHit | action_utils.go:28-61 | only a hit can be critical |
| ActionUtils.HitRollRules | action_utils.go:28-61 | a roll hits exactly below the chance, so a chance of at most 0 never hits and one of 100 or more always does; a critical is a hit with a chance over 100 and the second roll below the excess; the target's mobility counts only from intact legs and not while its evasion is disabled |
| ActionUtils.SelectRandomPartToDamage | action_utils.go:63-75 | the slot chosen is an intact slot picked among the four in order, or none when all are broken |
| ActionUtils.TruncScaled | action_utils.go:107-114 | a critical multiplier of at least 1 never lowers a damage of at least 1 after truncation, and a non-negative one never makes it negative |
| ActionUtils.DamageRules | action_utils.go:77-115 | a normal hit deals power (with the category's skill times the factor, and leg propulsion for Berserk) minus defense, at least 1; more defense on the hit part never deals more; a critical with a multiplier of at least 1 never deals less than the normal hit |
| AiSystem.AiChoiceEffect | ai_system.go:37-99 | the AI acts only on a waiting AI unit with a usable part and, for an attack, an opposing target; it then charges the first usable slot of the shuffled order from 0 (an intact head or arm with a positive charge), aims an attack at a targetable opponent, keeps the old target for anything else, and sets the trait's flags; identity, medal and parts never change |
| AiSystem.AiChoiceKeepsTags | ai_system.go:84-96 | a choice keeps the unit's tags in agreement with its state |
| AiSystem.Update | ai_system.go:31-100 | outside play nothing changes; during play every unit makes its choice against the world as it was before the tick, and no singleton changes |
| AiSystem.ChooseFor | ai_system.go:37-99 | the loop body produces exactly the unit `AiChoice` describes |
| AiSystem.UsableSlots | ai_system.go:48-56 | the slots collected are the usable slots in the shuffled order |
| GaugeUpdateSystem.GaugeStepEffect | gauge_update_system.go:31-87 | a Broken-tagged unit is skipped; a broken head gives the Broken tag and state with an empty gauge; only charging and cooldown move; a lost selected part resets to action selection; a full charge becomes ready to execute with the tags swapped, a full cooldown resets to action selection; the gauge never passes 100 and identity, medal and parts never change |
| GaugeUpdateSystem.ResetEffect | gauge_update_system.go:91-102 | the reset makes the unit ready to choose with a full gauge, both flags, the target and the selection cleared, and the charging and cooldown tags removed, the rest kept |
| GaugeUpdateSystem.GaugeStepKeepsTags | gauge_update_system.go:31-87 | an update keeps the unit's tags in agreement with its state |
| GaugeUpdateSystem.UpdateEntity | gauge_update_system.go:31-87 | the loop body produces exactly the unit `GaugeStep` describes |
| GaugeUpdateSystem.Update | gauge_update_system.go:23-88 | without a game state or a configuration, or while a message shows, nothing changes; otherwise every unit takes one step, and no singleton changes |
| GameRuleSystem.VerdictRules | game_rule_system.go:57-71 | Team2 wins exactly when Team1 has a leader and all Team1 leaders are broken; otherwise Team1 wins exactly when the other side has a leader and all of its leaders are broken; with a living leader on each side there is no verdict; a finished game stays as it is |
| GameRuleSystem.ScanLeaders | game_rule_system.go:37-55 | the scan reports for each side whether it has a leader and whether one of its leaders is not broken |
| GameRuleSystem.Update | game_rule_system.go:22-72 | without a game state nothing changes; otherwise a game that is not over ends with the verdict's winner and victory message, and the units never change |
| ActionExecutionSystem.FindRandomOpponent | action_execution_system.go:85-104 | an opponent found names an entity of the world; with none found the null entity is returned |
| ActionExecutionSystem.DetermineTarget | action_execution_system.go:61-82 | the target is the null entity or an entity of the world |
| ActionExecutionSystem.DetermineTargetRules | action_execution_system.go:61-82 | an action that is not an attack is valid without a target; a valid attack has a target that is not broken, and one that changed its target is a fight that turned on a targetable opponent; a shot is valid exactly when its intended target is usable; a fight fails exactly when neither its intended target nor any opponent is usable; a failed attack has no target |
| ActionExecutionSystem.AnnouncementEffect | action_execution_system.go:34-57 | a unit whose selected part is missing or broken fails: ready to choose with a full gauge, no ready tag, and the failure shown with a return to play; otherwise the unit is unchanged and its action is announced with a continuation that executes it against the decided target with this tick's balance, the target named exactly for an attack that has one |
| ActionExecutionSystem.Tick | action_execution_system.go:34-57 | the turns of a tick never change the number of units |
| ActionExecutionSystem.Shown | action_execution_system.go:54-56 | announcing never changes the recorded winner |
| ActionExecutionSystem.AnnouncementFrame | action_execution_system.go:49-53 | a unit's announcement depends on the other units only through their Broken tags, identities and broken states |
| ActionExecutionSystem.TickFromStart | action_execution_system.go:34-57 | while no queried unit is in the Broken state, every turn of a tick decides as if it came first: each unit ends as its own announcement makes it and later units are untouched |
| ActionExecutionSystem.LastAnnouncementShown | action_execution_system.go:34-57 | only the last announcement of a tick is kept: with no queried unit the game state is untouched, otherwise it shows the message and continuation of the last queried unit in the order of `World.units` |
| ActionExecutionSystem.Update | action_execution_system.go:27-58 | without the configuration nothing changes, and without a game state and with no queried unit nothing changes; otherwise every queried unit takes its turn in the order of `World.units` as `Tick` describes, and the other singletons never change |
| ActionExecutionSystem.HandleActionFailure | action_execution_system.go:188-204 | only the failing unit changes, as `Failed` describes, and the failure message is shown with a return to play |
| ActionExecutionSystem.AnnounceFor | action_execution_system.go:36-56 | the loop body produces exactly the unit, message and continuation of `Announcement` |
| ActionExecutionSystem.AttackOutcome | action_execution_system.go:135-176 | an attack never changes the number of units |
| ActionExecutionSystem.AttackOutcomeEffect | action_execution_system.go:135-176 | only the target can change, and only in its parts and, through a destroyed head, its tags and status; a miss or a target without intact parts changes nothing; a hit lands on an intact slot whose armor drops by the computed damage to no less than 0 and which breaks exactly at 0, no other part changing; a head broken this way gives an untagged target the Broken tag and state and an empty gauge |
| ActionExecutionSystem.PerformAttack | action_execution_system.go:135-176 | the world and the log afterwards are those of `AttackOutcome`, and no singleton changes |
| ActionExecutionSystem.HandleHeadDestruction | action_execution_system.go:224-232 | only the target changes: an untagged target gets the Broken tag and state and an empty gauge |
| ActionExecutionSystem.ExecuteOutcome | action_execution_system.go:107-132 | executing never changes the number of units |
| ActionExecutionSystem.ExecuteOutcomeEffect | action_execution_system.go:107-132 | the attacker ends cooling down from an empty gauge with the cooldown tag instead of the ready tag and the result in its log; an invalid target fails the action, a non-attack is logged as used, an attack without a target as missing one; only an attack on a target changes another unit, and only that target |
| ActionExecutionSystem.AttackNeverMends | action_execution_system.go:135-176 | with a critical multiplier that is not negative, an attack never raises a part's armor or repairs a broken part |
| ActionExecutionSystem.ExecuteNeverMends | action_execution_system.go:107-132 | no executed action raises armor or repairs a broken part |
| ActionExecutionSystem.ExecuteAction | action_execution_system.go:107-132 | the world and the closing message are those of `ExecuteOutcome`, shown with a continuation that returns to play unless the state moved on |
| ActionExecutionSystem.TransitionToCooldown | action_execution_system.go:206-222 | only the attacker changes, to cooling down from an empty gauge with the cooldown tag instead of the ready tag, and the log is shown with its continuation |
| ActionExecutionSystem.ExecuteKeepsTags | action_execution_system.go:107-132 | when every unit's tags mirror its state, they still do after an action executed by an untagged ready unit that does not target itself |
| ActionExecutionSystem.FailedKeepsTags | action_execution_system.go:188-195 | a failure keeps the tags of a unit that was ready to execute in agreement with its state |
| ActionExecutionSystem.ContinuationRules | action_execution_system.go:188-222 | both continuations leave the message state and touch nothing but the state; the cooldown's keeps a game that ended meanwhile over, while the failure's returns to play even from a finished game |
| PlayerInputSystem.MakeRect | player_input_system.go:132 | the rectangle's corners are in order, and corners already in order are kept |
| PlayerInputSystem.FirstButton | player_input_system.go:128-134 | the button found is the first one holding the point, and none is found when no button holds it |
| PlayerInputSystem.DefaultButtons | player_input_system.go:129-132 | with the configured 960 × 540 screen and 300 × 35 buttons 5 apart, button i spans x in [330, 630) and y in [220 + 40i, 255 + 40i) |
| PlayerInputSystem.ButtonsStacked | player_input_system.go:128-134 | buttons never overlap when their height and spacing are not negative, so the button found is the only one holding the click |
| PlayerInputSystem.ButtonRows | player_input_system.go:129-132 | each button row starts one height plus spacing below the previous one and is one height tall |
| PlayerInputSystem.ReadyPlayers | player_input_system.go:48-52 | every handle queued names an entity of the world |
| PlayerInputSystem.ReadyPlayersExact | player_input_system.go:48-52 | a handle is queued exactly when its unit is player controlled, not tagged broken and ready to choose, once each and in the order of `World.units` |
| PlayerInputSystem.EnqueueReady | player_input_system.go:48-52 | the loop queues exactly the handles `ReadyPlayers` lists |
| PlayerInputSystem.EnqueuePhaseRules | player_input_system.go:42-58 | during play a queue left from before ends the update; an empty queue is filled with exactly the waiting player units, and selection starts exactly when one is waiting; outside play nothing changes |
| PlayerInputSystem.MouseInputRules | player_input_system.go:119-177 | without a click nothing changes; otherwise at most the head of the queue changes, by committing the clicked action (charging from 0, a head or arm slot it has, an attack aimed at an unbroken entity), after which the head leaves the queue, the buttons and the target are cleared, and play resumes exactly when the queue is empty |
| PlayerInputSystem.InitUIOffersAttackSlots | player_input_system.go:85-116 | setting up the buttons offers only head and arm slots, and at most removes the head from the queue |
| PlayerInputSystem.InputRules | player_input_system.go:35-82 | without a click no unit changes; with one, at most the head of the queue changes, by committing an action, after which the buttons and target are clear and the head has left the queue; the buttons only ever offer head and arm slots |
| PlayerInputSystem.ChargedAttackSlots | player_input_system.go:87-93 | the buttons are the intact head and arm slots with a positive charge, in slot order |
| PlayerInputSystem.ScanCharged | player_input_system.go:87-93 | the loop keeps exactly the slots of the list whose part is intact and charged, in list order |
| PlayerInputSystem.InitializeActionUI | player_input_system.go:85-116 | only the action selection changes, as `InitUI` describes |
| PlayerInputSystem.FindButton | player_input_system.go:128-134 | the loop finds the first button holding the point |
| PlayerInputSystem.HandleMouseInput | player_input_system.go:119-177 | the world afterwards is the outcome `MouseInput` describes |
| PlayerInputSystem.SelectAction | player_input_system.go:61-81 | the world afterwards is the outcome of the selection phase |
| PlayerInputSystem.Update | player_input_system.go:35-82 | the world afterwards is the outcome `InputOutcome` describes, with the configuration untouched |
| Systems.GaugeStepMatchesSplit | systems.go:49-126 | the bundled gauge update agrees with the split one on status, selection, parts and the broken, ready and cooldown tags, on all tags for a unit whose tags mirror its state, and differs in the target only where a lost part resets the unit, which keeps its target here |
| Systems.GaugeStepEffect | systems.go:49-126 | a Broken-tagged unit is skipped; a broken head breaks an untagged unit once (the step is then idempotent); a lost part keeps the target; a full cooldown clears target and selection; the gauge never passes 100 |
| Systems.GaugeEntity | systems.go:49-126 | the loop body produces exactly the unit `GaugeStep` describes |
| Systems.GaugeUpdate | systems.go:39-127 | without the configuration nothing changes; otherwise every unit takes one step whatever the game state, and no singleton changes |
| Systems.FirstLiveButton | systems.go:272-286 | the button found is the first one, from the given position on, whose slot the unit has and which holds the point; none is found when no such button holds it |
| Systems.EnqueueMatchesSplit | systems.go:166-190 | during play the update's outcome is exactly what the split file's enqueueing phase leaves |
| Systems.PlayerInputRules | systems.go:156-341 | without a click no unit changes; an empty queue in selection returns to play with the UI cleared; otherwise only the head of the queue can change, by committing a head or arm slot (an attack at a valid unbroken target, anything else keeping the unit's target), after which it has left the queue, the UI is cleared and play resumes exactly when the queue is empty |
| Systems.ClickRules | systems.go:260-339 | a click changes at most the head of the queue, by committing as above, and the buttons keep offering only head and arm slots |
| Systems.FindLiveButton | systems.go:272-338 | the loop finds the first live button holding the point |
| Systems.InitializeActionUI | systems.go:218-257 | only the action selection changes, as `InitUI` describes |
| Systems.HandleClick | systems.go:260-339 | the world afterwards is the outcome `Click` describes |
| Systems.HandleHead | systems.go:217-339 | the world afterwards is the outcome of the head's turn |
| Systems.PlayerInputUpdate | systems.go:156-341 | without a game state nothing changes; otherwise the world afterwards is the outcome `PlayerInput` describes |
| Systems.AiChoiceRules | systems.go:374-435 | with no opponent to target no AI unit acts; a unit that acts charges and targets a targetable opponent, so the branch that clears a shot's target is never taken; otherwise the choice is the split file's except that a non-attack part also takes the new target |
| Systems.ChooseFor | systems.go:374-435 | the loop body produces exactly the unit `AiChoice` describes |
| Systems.AiUpdate | systems.go:364-436 | outside play nothing changes; during play every unit makes its choice against the world before the tick |
| Systems.ExecStepRules | systems.go:471-598 | a turn changes the unit exactly as the split file's turn does; it fails exactly when the selected part is missing or broken, with a return to play; otherwise the announcement's continuation names the unit and the announcement names a target only for a shot at an entity |
| Systems.ExecStepFrame | systems.go:471-598 | a turn depends only on the unit itself and the identities of the others |
| Systems.ShownAfterSkips | systems.go:471-599 | units that are not queried leave the game state as it was |
| Systems.ShownAfterRules | systems.go:471-599 | the message left showing is the last queried unit's, with its continuation; without a queried unit the game state is untouched |
| Systems.ExecUpdate | systems.go:463-600 | without the configuration nothing changes; otherwise every queried unit takes its turn and the game state shows the last announcement |
| Systems.TakeTurn | systems.go:472-598 | the loop body produces exactly the turn `ExecStep` describes |
| Systems.FinalTarget | systems.go:496-526 | a retargeted melee attack aims at a targetable opponent that is a valid target |
| Systems.Retargeted | systems.go:506-526 | retargeting keeps the number of units and the attacker's selected part |
| Systems.StrikeOutcome | systems.go:535-570 | the units after the attack are those of `ActionExecutionSystem.AttackOutcome` |
| Systems.StrikeLog | systems.go:535-570 | a miss is logged naming the target and the attacker; a target without intact parts is logged as such; a hit is logged as `AttackOutcome` logs it except that it is marked destroyed exactly when the part's armor is left at 0 |
| Systems.Strike | systems.go:535-570 | the world and the log are those of `StrikeOutcome`, and the singletons never change |
| Systems.Acted | systems.go:527-573 | the action never changes the number of units |
| Systems.ActedLog | systems.go:527-573 | a valid target is attacked, as `StrikeOutcome` says, whatever the part's category; a melee attack without one turns on a random targetable opponent and reports a missing target exactly when there is none; a shot without one fails; anything else without one is used |
| Systems.ActedFrame | systems.go:527-573 | only the attacker and the action's target can change, every unit keeps its identity, and without a valid target or a retarget only the attacker changes |
| Systems.ActualAction | systems.go:495-589 | the continuation never changes the number of units |
| Systems.ActualActionRules | systems.go:495-589 | the attacker ends cooling down from an empty gauge with the cooldown tag instead of the ready tag and its action's log; only the attacker and the action's target change |
| Systems.ActedNeverMends | systems.go:537-562 | with a critical multiplier that is not negative, the action never raises armor or repairs a part |
| Systems.ActualActionNeverMends | systems.go:495-589 | no continuation raises armor or repairs a part |
| Systems.ExecuteActualAction | systems.go:495-589 | the world and the closing message are those of `ActualAction`, shown with a continuation that returns to play unless the state moved on |
| Systems.VerdictRules | systems.go:702-717 | Team1's loss is checked first; a team without a leader never loses; units of a third team are ignored; where every unit is on Team1 or Team2 the verdict is the split file's |
| Systems.ScanAlive | systems.go:670-686 | the scan reports whether each team has a leader that is not broken |
| Systems.ScanLeaders | systems.go:688-700 | the scan reports whether each team has a leader at all |
| Systems.GameRuleUpdate | systems.go:660-718 | without a game state nothing changes; otherwise a game that is not over ends with the verdict's winner and victory message, and the units never change |
| Decimal.DigitChar | medarot_initializer.go:57 | the character written for a digit is a decimal digit of that value |
| Decimal.NatToString | medarot_initializer.go:57 | a number is written as at least one decimal digit, without a leading zero |
| Decimal.DigitsRoundTrip | medarot_initializer.go:57 | reading back the digits written for a number gives the number |
| Decimal.NatToStringInjective | medarot_initializer.go:57 | different numbers are written differently, so unit ids are distinct |
| Decimal.TrimLeft | csv_loader.go:14 | the result is a suffix of the text, starts with a non-space character or is empty, and only white space was removed |
| Decimal.TrimRight | csv_loader.go:14 | the result is a prefix of the text, ends with a non-space character or is empty, and only white space was removed |
| Decimal.TrimPadded | csv_loader.go:14 | trimming a text that starts and ends with non-space characters, padded with white space, gives the text back |
| Decimal.IntToStringEdges | csv_loader.go:13-25 | the decimal text of a number starts and ends with a non-space character |
| Decimal.Atoi | csv_loader.go:18 | a number read is within the 64-bit range |
| Decimal.WrapInt64 | csv_loader.go:137-139 | Go's 64-bit int sum: the result is the 64-bit int equal to the sum modulo 2^64, the sum itself within range and 2^64 less just past the top |
| Decimal.AtoiRules | csv_loader.go:18 | every 64-bit number is read back from its decimal text; a text with anything but a sign and digits is rejected |
| CsvLoader.ParseIntRoundTrip | csv_loader.go:13-25 | any 64-bit number written in decimal with white space around it is read back |
| CsvLoader.ParseIntRules | csv_loader.go:13-25 | a blank text and a text that does not parse give 0, and the result is always within the 64-bit range |
| CsvLoader.RowOf | csv_loader.go:59-62 | the row's names are exactly the headers |
| CsvLoader.RowByName | csv_loader.go:59-62 | with distinct headers each header's entry is the field in its column |
| CsvLoader.RowIncluded | csv_loader.go:59-62 | every entry of a row under one header layout is found, with the same field, under another layout that has each named field |
| CsvLoader.ColumnOrderIrrelevant | csv_loader.go:59-62 | two layouts that name the same fields the same way build the same row, whatever the column order |
| CsvLoader.BuildRow | csv_loader.go:59-62 | the loop builds exactly the row `RowOf` describes |
| CsvLoader.PartHpRules | csv_loader.go:133-139 | a part's HP is its base HP, or 50 when that reads as 0, plus 10 for legs in 64-bit arithmetic, so a legs base HP above INT64_MAX − 10 wraps to a negative HP; HP is always a 64-bit int |
| CsvLoader.MedalsOfRules | csv_loader.go:54-80 | there are no more medals than reader results; there are none exactly when no row is kept; every medal comes from a kept row with a non-empty id |
| CsvLoader.PartsOfRules | csv_loader.go:118-158 | there are no more parts than reader results; there are none exactly when no row is kept; every part comes from a kept row, is intact, is in the file's slot and starts at full HP |
| CsvLoader.ReadRow | csv_loader.go:44-67 | a reader result is kept exactly when it is a record at least as long as the header row with a non-empty id |
| CsvLoader.ReadMedals | csv_loader.go:42-81 | the record loop collects exactly the medals of the kept rows, in order |
| CsvLoader.ReadParts | csv_loader.go:108-160 | the record loop collects exactly the parts of the kept rows, in order |
| CsvLoader.LoadMedals | csv_loader.go:28-86 | a header failure fails the load; otherwise the medals are those of the kept rows in order, and a file without any fails as having loaded nothing |
| CsvLoader.LoadParts | csv_loader.go:89-165 | a header failure fails the load; otherwise the parts are those of the kept rows in order, and a file without any fails as having loaded nothing |
| MedarotInitializer.FindPartByID | medarot_initializer.go:33-41 | no part is found exactly when the id is not in the data; otherwise the data's part |
| MedarotInitializer.MedalIndex | medarot_initializer.go:45-54 | the index found is the first medal with the id, and none is found when no medal has it |
| MedarotInitializer.FirstMedalRules | medarot_initializer.go:45-54 | a medal is found exactly when some medal has the id, and then it is the first such medal |
| MedarotInitializer.FindMedalByID | medarot_initializer.go:45-54 | the loop finds the first medal with the id |
| MedarotInitializer.BuildParts | medarot_initializer.go:92-111 | every slot gets the loadout's part from the data, or a broken placeholder when the data lacks it |
| MedarotInitializer.NewMedarotRules | medarot_initializer.go:56-138 | a new unit has id "p" followed by its number, its team and leadership, Team1's leader the first loadout and medal M001 when present, a fallback medal when none is found, every slot filled, ready to choose with a full gauge and no constraint, player control exactly for Team1 |
| MedarotInitializer.Roster | medarot_initializer.go:140-156 | the set-up builds two units per round |
| MedarotInitializer.RosterAt | medarot_initializer.go:144-154 | round i builds Team1's unit number i + 1 and then Team2's unit number 4 + i, each a leader exactly in round 0 and with draw index i |
| MedarotInitializer.RosterUnit | medarot_initializer.go:144-154 | the unit at position k is on Team1 exactly for even k, leads exactly for k < 2, has draw index k / 2 and the id of its unit number |
| MedarotInitializer.RosterRules | medarot_initializer.go:140-156 | the six units alternate Team1 and Team2, each team has exactly one leader, and no two units share an id |
| MedarotInitializer.CreateMedarotEntity | medarot_initializer.go:56-138 | a new entity holding `NewMedarot` is added at the end of the world and its handle returned; the singletons never change |
| MedarotInitializer.InitializeAllMedarotEntities | medarot_initializer.go:140-156 | the world gains exactly the six units of the roster, in creation order, and the singletons never change |

## Left out

- Drawing, the DOM and Ebiten: `RenderSystem`, every `Draw` method, `showModal`, `setupUI`, `bindEvents`, `init` and the text they lay out are not modelled; a message is an enumerated kind, and a button or mouse position is a parameter.
- Timers: `setInterval`/`clearInterval` in script.js are modelled by a `running` flag; each call of `GameLoop` is one timer tick.
- Randomness: every `rand.Intn`, `rand.Shuffle` and `Math.random()` result is a parameter with the range the library promises, so the model holds for every outcome, not for a distribution.
- Floating point: gauges, speeds and multipliers are Dafny reals; float32/float64 rounding is not modelled.
- Logging (`log.Printf`, `console.log`) and the message-system dispatch are left out; they change no game state.
- File access: `os.Open` and `LoadAllGameData` (csv_loader.go:178-222) are not modelled; the loaders take the header and the reader's results as parameters, and the field-count and quoting errors of `encoding/csv` arrive as failed results.
- `Game.Update`'s restart and debug keys and `updateMessage` (game.go:289-302) are input and display handling and are not modelled.
- Medal pointers: Go units share `*Medal` values; the model copies medal values, so aliasing between units is not captured (no code path mutates a medal).
- MedarotLogic.HandlePostAttack: `GetPart` never returns a broken part, so the head-destroyed branch (medarot_logic.go:246-250) cannot be reached; the model states that the unit never changes.
- action_execution_system.go calls `calculateHit` with five arguments and a `calculateDamage` that is not defined in that iteration; the model uses the hit and damage rules of action_utils.go.
- The hit, part-choice and damage helpers of systems.go repeat those of action_utils.go and are modelled once, in `ActionUtils`.
- medarot_initializer.go reads a `GameData` of `models.Part` maps while csv_loader.go builds one of `data_structures.Part` slices; the two are modelled as separate types and not connected.
- A placeholder part's type is the slot's own name (`SlotNamed`), as the initializer converts the slot string.
- MedarotLogic.CalculateDamage always uses the fight skill, also for a shot, as medarot_logic.go does.
- MedarotLogic.Medarot.CalculateDamage: medarot_logic.go reads the target's legs and `IsDefenseDisabled` through `targetPart.Owner`, a field no code path sets (medarot_initializer.go drops the owner reference); the model takes the owner to be the attacked unit and does not model a nil owner, which would make the Go code panic.
- JsPlayer.StartCooldown: script.js returns the unit to plain charging rather than to a separate cooldown state, and the model follows the code.
- CsvLoader.LoadMedals and CsvLoader.LoadParts: after the loop the function returns the outer `err`, which the loop variable shadows; the model follows the code, so a file without any usable row fails as having loaded nothing.
- ActionExecutionSystem.LastAnnouncementShown, ActionExecutionSystem.Update, Systems.ShownAfterRules, PlayerInputSystem.ReadyPlayersExact, PlayerInputSystem.EnqueueReady and EcsWorld.TargetsExact: donburi's `Query.Each` visits entities archetype by archetype, not by creation order; the model fixes one visit order, that of `World.units`, so "the last unit" and "in order" refer to that order, and a world whose archetypes interleave may visit the units differently.
- Systems.ExecUpdate requires that no unit is queried while the game state is missing, where systems.go would dereference a nil game state.
- Systems.PlayerInputUpdate requires the action-selection singleton whenever the game state is present, as the Go code dereferences it unchecked.
- ActionExecutionSystem.Update requires that no unit is queried while the configuration is present and the game state is missing: the message callbacks of `handleActionFailure` and `transitionToCooldown` (action_execution_system.go:197-203, 214-221) run at once without a game state and dereference a nil game state, so the Go code panics on such a world.
- PlayerInputSystem.Update requires both the game state and the action-selection singleton, which player_input_system.go:36-39 dereferences unchecked; without either the Go code panics.
- Go `int` arithmetic is 64-bit. The model keeps that width where text is parsed (`Decimal.Atoi`) and in the legs HP bonus (`CsvLoader.PartHp`, through `Decimal.WrapInt64`); armor, hit chance, damage and gauge sums are unbounded integers or reals, so a wrap-around there, which needs values near 2^63, is not modelled.
