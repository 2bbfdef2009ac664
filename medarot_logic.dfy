/**
 * The object-oriented Go unit (medarot_logic.go): a Medarot charges its gauge
 * for a chosen part's action, executes it against its target, cools down,
 * and stops for good once its head is broken.
 */
module MedarotLogic {
  import opened Optional
  import opened Models

  /** The outcome text a unit keeps after acting, as the cases that build it. */
  datatype ActionLog =
    | NoLog
    | PartBrokenFailure
    | NoTargetFailure
    | Evaded(targetName: string)
    | NoPartToHit
    | DamageDealt(targetName: string, partName: string, damage: int, critical: bool, destroyed: bool)

  /** Everything about a unit that its methods change. */
  datatype Snapshot = Snapshot(
    parts: PartMap, state: MedarotState, gauge: real, selectedPartKey: Option<Slot>,
    targetedMedarot: Medarot?, lastActionLog: ActionLog,
    isEvasionDisabled: bool, isDefenseDisabled: bool, drawIndex: int)

  /** ChangeState: entering a state also resets what that state requires. */
  function WithState(s: Snapshot, st: MedarotState): Snapshot {
    match st
    case ReadyToSelectAction =>
      s.(state := st, gauge := 100.0, selectedPartKey := None,
         isEvasionDisabled := false, isDefenseDisabled := false)
    case ActionCharging => s.(state := st, gauge := 0.0)
    case ActionCooldown => s.(state := st, gauge := 0.0)
    case Broken => s.(state := st, gauge := 0.0)
    case ReadyToExecuteAction => s.(state := st)
  }

  /** applyActionConstraints: Aim and Berserk switch evasion, Strike and Berserk switch defense. */
  function Constrained(s: Snapshot, t: ActionTrait, enable: bool): Snapshot {
    match t
    case Aim => s.(isEvasionDisabled := enable)
    case Strike => s.(isDefenseDisabled := enable)
    case Berserk => s.(isEvasionDisabled := enable, isDefenseDisabled := enable)
    case _ => s
  }

  /** The intact part behind the selected slot, if there is one. */
  function SelectedPart(s: Snapshot): Option<Part> {
    if s.selectedPartKey.Some? then GetPart(s.parts, s.selectedPartKey.value) else None
  }

  /** The gauge gained per update: (charge or cooldown time + propulsion times the rate) / divisor. */
  function MoveSpeed(s: Snapshot, part: Part, cfg: BalanceConfig): real
    requires ValidBalance(cfg)
  {
    var stat := if s.state == ActionCharging then part.charge
                else if s.state == ActionCooldown then part.cooldown
                else 0;
    (stat as real + LegPropulsion(s.parts) as real * cfg.propulsionEffectRate) / cfg.overallTimeDivisor
  }

  /** Update: one tick of a unit. */
  function Updated(s: Snapshot, cfg: BalanceConfig): Snapshot
    requires ValidBalance(cfg)
  {
    if s.state == Broken then s
    else if HeadSlot in s.parts && s.parts[HeadSlot].isBroken then WithState(s, Broken)
    else if SelectedPart(s).None? then
      if s.state == ActionCharging || s.state == ActionCooldown then WithState(s, ReadyToSelectAction) else s
    else
      var g := s.gauge + MoveSpeed(s, SelectedPart(s).value, cfg);
      if g >= 100.0 then
        var t := s.(gauge := 100.0);
        if s.state == ActionCharging then WithState(t, ReadyToExecuteAction)
        else if s.state == ActionCooldown then WithState(t, ReadyToSelectAction)
        else t
      else s.(gauge := g)
  }

  /** The part in `slot` can be chosen: the unit waits for a choice, and the part is intact with a positive charge. */
  predicate CanSelect(s: Snapshot, key: Option<Slot>) {
    && s.state == ReadyToSelectAction
    && key.Some? && GetPart(s.parts, key.value).Some?
    && s.parts[key.value].charge > 0
  }

  /** SelectAction on success: charge the chosen part's action from 0 under its trait's constraints. */
  function Selected(s: Snapshot, slot: Slot): Snapshot
    requires slot in s.parts
  {
    Constrained(WithState(s.(selectedPartKey := Some(slot)), ActionCharging).(gauge := 0.0),
                s.parts[slot].actionTrait, true)
  }

  /** The hit chance: base chance + the part's accuracy + medal skill + trait bonus - the target's mobility. */
  function HitChance(medal: Medal, part: Part, target: Snapshot, cfg: BalanceConfig): int {
    cfg.baseChance + (part.accuracy + SkillFor(medal, part.category) + TraitBonus(part.actionTrait, cfg))
      - TargetMobility(target)
  }

  /** The mobility of the target's intact legs, 0 without them or while its evasion is disabled. */
  function TargetMobility(target: Snapshot): int {
    if target.isEvasionDisabled then 0
    else if GetPart(target.parts, LegsSlot).Some? then target.parts[LegsSlot].mobility
    else 0
  }

  /** calculateDamage: power boosted by the fighting skill (and, for Berserk, the attacker's leg propulsion) minus the defense, at least 1. */
  function DamageOf(attacker: Snapshot, medal: Medal, attackingPart: Part, target: Snapshot,
                    targetPart: Part, critical: bool, cfg: BalanceConfig): (d: int)
    ensures d >= 1
  {
    var basePower := attackingPart.power + medal.skillFight * cfg.medalSkillFactor
      + (if attackingPart.actionTrait == Berserk then LegPropulsion(attacker.parts) else 0);
    var defense := if target.isDefenseDisabled then 0
                   else targetPart.defense + LegDefense(target.parts);
    var raw := (basePower - defense) as real;
    var scaled := if critical then raw * cfg.criticalMultiplier else raw;
    Max(1, scaled.Floor)
  }

  /** A non-critical hit deals power minus defense, at least 1; more defense never deals more damage. */
  lemma DamageRules(attacker: Snapshot, medal: Medal, part: Part, target: Snapshot,
                    targetPart: Part, cfg: BalanceConfig, stronger: Part)
    requires stronger == targetPart.(defense := stronger.defense) && stronger.defense >= targetPart.defense
    ensures DamageOf(attacker, medal, part, target, targetPart, false, cfg) ==
      Max(1, part.power + medal.skillFight * cfg.medalSkillFactor
             + (if part.actionTrait == Berserk then LegPropulsion(attacker.parts) else 0)
             - (if target.isDefenseDisabled then 0 else targetPart.defense + LegDefense(target.parts)))
    ensures DamageOf(attacker, medal, part, target, stronger, false, cfg) <=
      DamageOf(attacker, medal, part, target, targetPart, false, cfg)
  {
  }

  /** What an attack does: the text it leaves and the slot it hits with the damage dealt. */
  datatype Attack = Attack(log: ActionLog, hit: Option<Slot>, damage: int)

  /**
   * ExecuteAction, seen from the attacker: the selected part must be intact and
   * the target present; the hit roll decides a miss; a hit chooses an intact
   * slot of the target and deals calculateDamage to it.
   */
  function AttackOf(s: Snapshot, medal: Medal, target: Option<(string, Snapshot)>, cfg: BalanceConfig,
                    hitRoll: int, critRoll: int, pick: nat): (a: Attack)
    ensures a.hit.Some? ==> target.Some? && GetPart(target.value.1.parts, a.hit.value).Some? && a.damage >= 1
  {
    if SelectedPart(s).None? then Attack(PartBrokenFailure, None, 0)
    else if target.None? then Attack(NoTargetFailure, None, 0)
    else
      var (name, ts) := target.value;
      var part := SelectedPart(s).value;
      var chance := HitChance(medal, part, ts, cfg);
      if !Hits(chance, hitRoll) then Attack(Evaded(name), None, 0)
      else
        var slot := PartToDamage(ts.parts, pick);
        if slot.None? then Attack(NoPartToHit, None, 0)
        else
          var targetPart := ts.parts[slot.value];
          var d := DamageOf(s, medal, part, ts, targetPart, Critical(chance, hitRoll, critRoll), cfg);
          Attack(DamageDealt(name, targetPart.partName, d, Critical(chance, hitRoll, critRoll),
                             Damaged(targetPart, d).isBroken),
                 slot, d)
  }

  /** applyDamage on the target's part in `slot`. */
  function DamagedAt(ts: Snapshot, slot: Slot, d: int): Snapshot
    requires slot in ts.parts
  {
    ts.(parts := ts.parts[slot := Damaged(ts.parts[slot], d)])
  }

  /** The deferred tail of ExecuteAction: cool down from 0 and lift the selected part's constraints if it is still intact. */
  function CooledDown(s: Snapshot, log: ActionLog): Snapshot {
    var t := WithState(s.(lastActionLog := log), ActionCooldown).(gauge := 0.0);
    if SelectedPart(s).Some? then Constrained(t, SelectedPart(s).value.actionTrait, false) else t
  }

  /** Entering ReadyToSelectAction refills the gauge and clears the selection and constraints; Charging, Cooldown and Broken empty the gauge; ReadyToExecuteAction keeps it. */
  lemma WithStateEffect(s: Snapshot, st: MedarotState)
    ensures var t := WithState(s, st);
      && t.state == st && t.parts == s.parts && t.targetedMedarot == s.targetedMedarot
      && (st == ReadyToSelectAction ==>
            t.gauge == 100.0 && t.selectedPartKey.None? && !t.isEvasionDisabled && !t.isDefenseDisabled)
      && (st in {ActionCharging, ActionCooldown, Broken} ==>
            t.gauge == 0.0 && t.selectedPartKey == s.selectedPartKey
            && t.isEvasionDisabled == s.isEvasionDisabled && t.isDefenseDisabled == s.isDefenseDisabled)
      && (st == ReadyToExecuteAction ==> t == s.(state := st))
  {
  }

  /**
   * One update: a Broken unit is left alone; a broken head stops the unit with
   * an empty gauge; a charge or cooldown whose part is gone falls back to
   * choosing; otherwise the gauge grows by MoveSpeed and is capped at 100,
   * which completes the charge or the cooldown. The gauge never exceeds 100.
   */
  lemma UpdateEffect(s: Snapshot, cfg: BalanceConfig)
    requires ValidBalance(cfg)
    ensures var t := Updated(s, cfg);
      && (s.state == Broken ==> t == s)
      && (s.state != Broken && HeadSlot in s.parts && s.parts[HeadSlot].isBroken ==>
            t.state == Broken && t.gauge == 0.0)
      && ((s.state in {ActionCharging, ActionCooldown} && !(HeadSlot in s.parts && s.parts[HeadSlot].isBroken)
           && SelectedPart(s).None?) ==> t == WithState(s, ReadyToSelectAction))
      && ((s.state !in {ActionCharging, ActionCooldown, Broken} && !(HeadSlot in s.parts && s.parts[HeadSlot].isBroken)
           && SelectedPart(s).None?) ==> t == s)
      && (s.gauge <= 100.0 ==> t.gauge <= 100.0)
      && t.parts == s.parts && t.targetedMedarot == s.targetedMedarot
      && (s.state != Broken && !(HeadSlot in s.parts && s.parts[HeadSlot].isBroken) && SelectedPart(s).Some? ==>
            var g := s.gauge + MoveSpeed(s, SelectedPart(s).value, cfg);
            && (g < 100.0 ==> t == s.(gauge := g))
            && (g >= 100.0 && s.state == ActionCharging ==> t.state == ReadyToExecuteAction && t.gauge == 100.0)
            && (g >= 100.0 && s.state == ActionCooldown ==>
                  t.state == ReadyToSelectAction && t.gauge == 100.0 && t.selectedPartKey.None?))
  {
  }

  /** `n` updates in a row. */
  function Updates(s: Snapshot, cfg: BalanceConfig, n: nat): Snapshot
    requires ValidBalance(cfg)
  {
    if n == 0 then s else Updated(Updates(s, cfg, n - 1), cfg)
  }

  /** Once a unit's head is broken it is Broken after the next update and stays so, gauge empty, for every later update. */
  lemma {:induction false} BrokenHeadStopsForGood(s: Snapshot, cfg: BalanceConfig, n: nat)
    requires ValidBalance(cfg)
    requires n >= 1
    requires HeadSlot in s.parts && s.parts[HeadSlot].isBroken
    requires s.state != Broken
    ensures Updates(s, cfg, n) == WithState(s, Broken)
  {
    if n > 1 {
      BrokenHeadStopsForGood(s, cfg, n - 1);
    }
  }

  /** The gauge stays at or below 100 however many updates run. */
  lemma {:induction false} GaugeCapped(s: Snapshot, cfg: BalanceConfig, n: nat)
    requires ValidBalance(cfg)
    requires s.gauge <= 100.0
    ensures Updates(s, cfg, n).gauge <= 100.0
  {
    if n > 0 {
      GaugeCapped(s, cfg, n - 1);
      UpdateEffect(Updates(s, cfg, n - 1), cfg);
    }
  }

  /**
   * A successful choice charges the chosen slot from 0 and applies its
   * trait's constraints: Aim disables evasion, Strike defense, Berserk both.
   */
  lemma SelectedEffect(s: Snapshot, slot: Slot)
    requires CanSelect(s, Some(slot))
    ensures var t := Selected(s, slot);
      var tr := s.parts[slot].actionTrait;
      && t.state == ActionCharging && t.gauge == 0.0 && t.selectedPartKey == Some(slot)
      && t.parts == s.parts && t.targetedMedarot == s.targetedMedarot
      && t.isEvasionDisabled == (if tr in {Aim, Berserk} then true else s.isEvasionDisabled)
      && t.isDefenseDisabled == (if tr in {Strike, Berserk} then true else s.isDefenseDisabled)
  {
  }

  /**
   * An attack lands only on a hit: a chance of at most 0 always fails, and a
   * landed attack hits an intact part of the target for at least 1 damage.
   */
  lemma AttackRules(s: Snapshot, medal: Medal, name: string, ts: Snapshot, cfg: BalanceConfig,
                    hitRoll: int, critRoll: int, pick: nat)
    requires SelectedPart(s).Some?
    ensures var a := AttackOf(s, medal, Some((name, ts)), cfg, hitRoll, critRoll, pick);
      var chance := HitChance(medal, SelectedPart(s).value, ts, cfg);
      && (!Hits(chance, hitRoll) ==> a == Attack(Evaded(name), None, 0))
      && (chance <= 0 ==> a.hit.None?)
      && (Hits(chance, hitRoll) ==> (a.hit.None? <==> IntactSlots(ts.parts, ALL_SLOTS) == []))
  {
  }

  /** A unit of the Go object model. */
  /** The parts behind the charged intact attack slots of `ps`, in slot order. */
  function AttackParts(ps: PartMap): (r: seq<Part>)
    ensures |r| == |ChargedSlots(ps, ATTACK_SLOTS)| <= 3
    ensures forall i :: 0 <= i < |r| ==>
      var k := ChargedSlots(ps, ATTACK_SLOTS)[i];
      k in ATTACK_SLOTS && k in ps && r[i] == ps[k] && !r[i].isBroken && r[i].charge > 0
  {
    ChargedSlotsExact(ps, ATTACK_SLOTS);
    var slots := ChargedSlots(ps, ATTACK_SLOTS);
    seq(|slots|, i requires 0 <= i < |slots| => ps[slots[i]])
  }

  class Medarot {
    const id: string
    const name: string
    const team: TeamId
    const medal: Medal
    const isLeader: bool
    var parts: PartMap
    var state: MedarotState
    var gauge: real
    var selectedPartKey: Option<Slot>
    var targetedMedarot: Medarot?
    var lastActionLog: ActionLog
    var isEvasionDisabled: bool
    var isDefenseDisabled: bool
    var drawIndex: int

    function Snap(): Snapshot
      reads this
    {
      Snapshot(parts, state, gauge, selectedPartKey, targetedMedarot, lastActionLog,
               isEvasionDisabled, isDefenseDisabled, drawIndex)
    }

    /** NewMedarot: no parts yet, waiting for a choice with a full gauge. */
    constructor (id: string, name: string, team: TeamId, medal: Medal, isLeader: bool)
      ensures this.id == id && this.name == name && this.team == team
      ensures this.medal == medal && this.isLeader == isLeader
      ensures Snap() == Snapshot(map[], ReadyToSelectAction, 100.0, None, null, NoLog, false, false, 0)
    {
      this.id := id;
      this.name := name;
      this.team := team;
      this.medal := medal;
      this.isLeader := isLeader;
      parts := map[];
      state := ReadyToSelectAction;
      gauge := 100.0;
      selectedPartKey := None;
      targetedMedarot := null;
      lastActionLog := NoLog;
      isEvasionDisabled := false;
      isDefenseDisabled := false;
      drawIndex := 0;
    }

    method ChangeState(newState: MedarotState)
      modifies this
      ensures Snap() == WithState(old(Snap()), newState)
    {
      state := newState;
      match newState {
        case ReadyToSelectAction =>
          gauge := 100.0;
          selectedPartKey := None;
          isEvasionDisabled := false;
          isDefenseDisabled := false;
        case ActionCharging =>
          gauge := 0.0;
        case ActionCooldown =>
          gauge := 0.0;
        case Broken =>
          gauge := 0.0;
        case ReadyToExecuteAction =>
      }
    }

    /** GetPart, on this unit's parts. */
    function GetPartAt(slot: Slot): (r: Option<Part>)
      reads this
      ensures r.None? <==> slot !in parts || parts[slot].isBroken
    {
      GetPart(parts, slot)
    }

    /** GetAvailableAttackParts: the intact head and arm parts with a positive charge, in slot order. */
    function GetAvailableAttackParts(): (r: seq<Part>)
      reads this
      ensures r == AttackParts(parts)
      ensures |r| == |ChargedSlots(parts, ATTACK_SLOTS)| <= 3
      ensures forall i :: 0 <= i < |r| ==>
        var k := ChargedSlots(parts, ATTACK_SLOTS)[i];
        k in ATTACK_SLOTS && k in parts && r[i] == parts[k] && !r[i].isBroken && r[i].charge > 0
    {
      AttackParts(parts)
    }

    method Update(cfg: BalanceConfig)
      requires ValidBalance(cfg)
      modifies this
      ensures Snap() == Updated(old(Snap()), cfg)
    {
      ghost var s0 := Snap();
      if state == Broken {
        return;
      }
      if HeadSlot in parts && parts[HeadSlot].isBroken {
        ChangeState(Broken);
        return;
      }
      var legs := GetPart(parts, LegsSlot);
      var legPropulsion := 0;
      if legs.Some? {
        legPropulsion := legs.value.propulsion;
      }
      var part: Option<Part> := None;
      if selectedPartKey.Some? {
        part := GetPart(parts, selectedPartKey.value);
      }
      assert part == SelectedPart(s0);
      if part.None? {
        if state == ActionCharging || state == ActionCooldown {
          ChangeState(ReadyToSelectAction);
        }
        return;
      }
      var stat := 0;
      if state == ActionCharging {
        stat := part.value.charge;
      } else if state == ActionCooldown {
        stat := part.value.cooldown;
      }
      var moveSpeed := (stat as real + legPropulsion as real * cfg.propulsionEffectRate) / cfg.overallTimeDivisor;
      assert legPropulsion == LegPropulsion(s0.parts);
      assert moveSpeed == MoveSpeed(s0, part.value, cfg);
      gauge := gauge + moveSpeed;
      if gauge >= 100.0 {
        gauge := 100.0;
        if state == ActionCharging {
          ChangeState(ReadyToExecuteAction);
        } else if state == ActionCooldown {
          ChangeState(ReadyToSelectAction);
        }
      }
    }

    /** SelectAction: `key` None stands for the empty slot key. */
    method SelectAction(key: Option<Slot>) returns (ok: bool)
      modifies this
      ensures ok == CanSelect(old(Snap()), key)
      ensures !ok ==> Snap() == old(Snap())
      ensures ok ==> Snap() == Selected(old(Snap()), key.value)
    {
      if state != ReadyToSelectAction {
        return false;
      }
      if key.None? {
        return false;
      }
      var partToUse := GetPart(parts, key.value);
      if partToUse.None? || partToUse.value.charge <= 0 {
        return false;
      }
      selectedPartKey := key;
      ChangeState(ActionCharging);
      gauge := 0.0;
      ApplyActionConstraints(partToUse.value.actionTrait, true);
      return true;
    }

    /**
     * ExecuteAction. The target is the unit's own TargetedMedarot (the list
     * of opponents is not consulted); the rolls and the pick stand for the
     * random draws. However the attack goes, the unit ends cooling down from 0.
     */
    method ExecuteAction(cfg: BalanceConfig, opponents: seq<Medarot>, hitRoll: int, critRoll: int, pick: nat)
      requires targetedMedarot != this
      modifies this, targetedMedarot
      ensures targetedMedarot == old(targetedMedarot)
      ensures var a := AttackOf(old(Snap()), medal, old(TargetOf(targetedMedarot)), cfg, hitRoll, critRoll, pick);
        && Snap() == CooledDown(old(Snap()), a.log)
        && (targetedMedarot != null && a.hit.Some? ==>
              targetedMedarot.Snap() == DamagedAt(old(targetedMedarot.Snap()), a.hit.value, a.damage))
        && (targetedMedarot != null && a.hit.None? ==> targetedMedarot.Snap() == old(targetedMedarot.Snap()))
      ensures state == ActionCooldown && gauge == 0.0
    {
      var log := PerformAttack(cfg, opponents, hitRoll, critRoll, pick);
      lastActionLog := log;
      // the deferred tail
      ChangeState(ActionCooldown);
      gauge := 0.0;
      if selectedPartKey.Some? {
        var stillIntact := GetPart(parts, selectedPartKey.value);
        if stillIntact.Some? {
          ApplyActionConstraints(stillIntact.value.actionTrait, false);
        }
      }
    }

    /** The body of ExecuteAction before its deferred tail: everything it does to the target, and the text it leaves. */
    method PerformAttack(cfg: BalanceConfig, opponents: seq<Medarot>, hitRoll: int, critRoll: int, pick: nat)
      returns (log: ActionLog)
      requires targetedMedarot != this
      modifies targetedMedarot
      ensures var a := AttackOf(Snap(), medal, old(TargetOf(targetedMedarot)), cfg, hitRoll, critRoll, pick);
        && log == a.log
        && (targetedMedarot != null && a.hit.Some? ==>
              targetedMedarot.Snap() == DamagedAt(old(targetedMedarot.Snap()), a.hit.value, a.damage))
        && (targetedMedarot != null && a.hit.None? ==> targetedMedarot.Snap() == old(targetedMedarot.Snap()))
    {
      var selectedPart: Option<Part> := None;
      if selectedPartKey.Some? {
        selectedPart := GetPart(parts, selectedPartKey.value);
      }
      if selectedPart.None? {
        return PartBrokenFailure;
      }
      // determineTarget: the unit's own target, whatever `opponents` holds
      var target := targetedMedarot;
      if target == null {
        return NoTargetFailure;
      }
      var isHit, isCritical := CalculateHit(target, selectedPart.value, cfg, hitRoll, critRoll);
      if !isHit {
        return Evaded(target.name);
      }
      var targetSlot := target.SelectRandomPartToDamage(pick);
      if targetSlot.None? {
        return NoPartToHit;
      }
      var targetPart := target.parts[targetSlot.value];
      var damage := CalculateDamage(target, targetPart, selectedPart.value, isCritical, cfg);
      target.ApplyDamage(targetSlot.value, damage);
      log := DamageDealt(target.name, targetPart.partName, damage, isCritical, target.parts[targetSlot.value].isBroken);
      target.HandlePostAttack();
    }

    /** calculateHit with the two rolls of rand.Intn(100) as parameters. */
    method CalculateHit(target: Medarot, part: Part, cfg: BalanceConfig, hitRoll: int, critRoll: int)
      returns (isHit: bool, isCritical: bool)
      ensures isHit == Hits(HitChance(medal, part, target.Snap(), cfg), hitRoll)
      ensures isCritical == Critical(HitChance(medal, part, target.Snap(), cfg), hitRoll, critRoll)
    {
      var skillValue := if part.category == Shoot then medal.skillShoot else medal.skillFight;
      var traitBonus := 0;
      match part.actionTrait {
        case Aim => traitBonus := cfg.traitAimBonus;
        case Strike => traitBonus := cfg.traitStrikeBonus;
        case Berserk => traitBonus := cfg.traitBerserkDebuff;
        case _ =>
      }
      var finalAccuracy := part.accuracy + skillValue + traitBonus;
      var targetMobility := 0;
      var targetLegs := GetPart(target.parts, LegsSlot);
      if targetLegs.Some? {
        targetMobility := targetLegs.value.mobility;
      }
      if target.isEvasionDisabled {
        targetMobility := 0;
      }
      var hitChance := cfg.baseChance + finalAccuracy - targetMobility;
      isHit := hitChance > 0 && hitRoll < hitChance;
      isCritical := isHit && hitChance > 100 && critRoll < hitChance - 100;
    }

    /** calculateDamage; the target part's owner is the target unit. */
    method CalculateDamage(target: Medarot, targetPart: Part, attackingPart: Part, isCritical: bool, cfg: BalanceConfig)
      returns (damage: int)
      ensures damage == DamageOf(Snap(), medal, attackingPart, target.Snap(), targetPart, isCritical, cfg)
      ensures damage >= 1
    {
      var basePower := attackingPart.power + medal.skillFight * cfg.medalSkillFactor;
      if attackingPart.actionTrait == Berserk {
        var legs := GetPart(parts, LegsSlot);
        if legs.Some? {
          basePower := basePower + legs.value.propulsion;
        }
      }
      var defenseValue := targetPart.defense;
      var targetLegs := GetPart(target.parts, LegsSlot);
      if targetLegs.Some? {
        defenseValue := defenseValue + targetLegs.value.defense;
      }
      if target.isDefenseDisabled {
        defenseValue := 0;
      }
      var rawDamage := (basePower - defenseValue) as real;
      if isCritical {
        rawDamage := rawDamage * cfg.criticalMultiplier;
      }
      damage := Max(1, rawDamage.Floor);
    }

    /** applyDamage on this unit's part in `slot` (in Go the attacker's method, changing the target's part). */
    method ApplyDamage(slot: Slot, damage: int)
      requires slot in parts
      modifies this
      ensures Snap() == DamagedAt(old(Snap()), slot, damage)
    {
      var part := parts[slot];
      part := part.(armor := part.armor - damage);
      if part.armor <= 0 {
        part := part.(armor := 0, isBroken := true);
      }
      parts := parts[slot := part];
    }

    /** handlePostAttack: GetPart never yields a broken head, so this never changes the unit. */
    method HandlePostAttack()
      modifies this
      ensures Snap() == old(Snap())
    {
      var head := GetPart(parts, HeadSlot);
      if head.Some? && head.value.isBroken {
        // where the source changes the state to Broken: unreachable
        assert false;
      }
    }

    method SelectRandomPartToDamage(pick: nat) returns (r: Option<Slot>)
      ensures r == PartToDamage(parts, pick)
      ensures r.Some? ==> r.value in parts && !parts[r.value].isBroken
    {
      var vulnerable := CollectIntactSlots(parts);
      if |vulnerable| == 0 {
        return None;
      }
      return Some(vulnerable[pick % |vulnerable|]);
    }

    method ApplyActionConstraints(t: ActionTrait, enable: bool)
      modifies this
      ensures Snap() == Constrained(old(Snap()), t, enable)
    {
      match t {
        case Aim =>
          isEvasionDisabled := enable;
        case Strike =>
          isDefenseDisabled := enable;
        case Berserk =>
          isEvasionDisabled := enable;
          isDefenseDisabled := enable;
        case _ =>
      }
    }
  }

  /** The name and state of the target, when there is one. */
  function TargetOf(t: Medarot?): Option<(string, Snapshot)>
    reads t
  {
    if t == null then None else Some((t.name, t.Snap()))
  }
}
