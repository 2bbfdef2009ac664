/**
 * The helpers of the ECS action rules (action_utils.go): showing a message
 * with a continuation, the hit roll, the choice of the part to damage and
 * the damage formula. The random rolls and picks are parameters; rolls are
 * in [0, 100).
 */
module ActionUtils {
  import opened Optional
  import opened Models
  import opened EcsWorld

  /**
   * showGameMessage: with a game state, show `msg`, keep `callback` for when
   * it is dismissed and enter the message state; without one, nothing is
   * stored and the callback is handed back to be run at once.
   */
  method ShowGameMessage(w: World, msg: Message, callback: Callback) returns (runNow: Callback)
    modifies w
    ensures w.units == old(w.units) && w.actionSelect == old(w.actionSelect) && w.config == old(w.config)
    ensures old(w.gameState).None? ==> w.gameState == old(w.gameState) && runNow == callback
    ensures old(w.gameState).Some? ==>
      && runNow == NoCallback
      && w.gameState == Some(old(w.gameState).value.(message := msg, callback := callback, currentState := ShowingMessage))
  {
    if w.gameState.None? {
      return callback;
    }
    var gs := w.gameState.value;
    gs := gs.(message := msg);
    gs := gs.(callback := callback);
    gs := gs.(currentState := ShowingMessage);
    w.gameState := Some(gs);
    return NoCallback;
  }

  /** The target's evasion: its intact legs' mobility, 0 without them or while its evasion is disabled. */
  function TargetMobility(targetStatus: Status, targetParts: PartMap): int {
    if targetStatus.isEvasionDisabled then 0 else LegMobility(targetParts)
  }

  /** The hit chance: base chance + part accuracy + the category's medal skill + the trait bonus - the target's mobility. */
  function HitChance(medal: Medal, part: Part, targetStatus: Status, targetParts: PartMap, cfg: BalanceConfig): int {
    cfg.baseChance + (part.accuracy + SkillFor(medal, part.category) + TraitBonus(part.actionTrait, cfg))
      - TargetMobility(targetStatus, targetParts)
  }

  /** calculateHit: (hit, critical) for the two rolls. */
  function CalculateHit(medal: Medal, part: Part, targetStatus: Status, targetParts: PartMap,
                        cfg: BalanceConfig, hitRoll: int, critRoll: int): (r: (bool, bool))
    ensures r.1 ==> r.0
  {
    var hitChance := HitChance(medal, part, targetStatus, targetParts, cfg);
    var isHit := hitRoll < hitChance;
    (isHit, isHit && hitChance > 100 && critRoll < hitChance - 100)
  }

  /**
   * A roll hits exactly below the chance, so a chance of at most 0 never
   * hits and one of 100 or more always does; a critical is a hit with a
   * chance over 100. The target's mobility counts only from intact legs and
   * not while its evasion is disabled.
   */
  lemma HitRollRules(medal: Medal, part: Part, targetStatus: Status, targetParts: PartMap,
                 cfg: BalanceConfig, hitRoll: int, critRoll: int)
    requires 0 <= hitRoll < 100 && 0 <= critRoll < 100
    ensures var chance := HitChance(medal, part, targetStatus, targetParts, cfg);
      var (isHit, isCritical) := CalculateHit(medal, part, targetStatus, targetParts, cfg, hitRoll, critRoll);
      && (isHit <==> Hits(chance, hitRoll))
      && (isCritical <==> Critical(chance, hitRoll, critRoll))
      && (chance <= 0 ==> !isHit)
      && (chance >= 100 ==> isHit)
      && (isCritical ==> chance > 100)
    ensures targetStatus.isEvasionDisabled || GetPart(targetParts, LegsSlot).None? ==>
      TargetMobility(targetStatus, targetParts) == 0
  {
    Models.HitRules(HitChance(medal, part, targetStatus, targetParts, cfg), hitRoll, critRoll);
  }

  /** selectRandomPartToDamage: the intact slots of all four in order, one chosen by `pick`. */
  method SelectRandomPartToDamage(parts: PartMap, pick: nat) returns (r: Option<Slot>)
    ensures r == PartToDamage(parts, pick)
  {
    var vulnerable := CollectIntactSlots(parts);
    if |vulnerable| == 0 {
      return None;
    }
    return Some(vulnerable[pick % |vulnerable|]);
  }

  /** The attack power: part power, plus the category's medal skill times the factor, plus (Berserk) the attacker's intact legs' propulsion. */
  function BasePower(attackerParts: PartMap, medal: Medal, part: Part, cfg: BalanceConfig): int {
    part.power
      + (if part.category == Fight then medal.skillFight * cfg.medalSkillFactor
         else if part.category == Shoot then medal.skillShoot * cfg.medalSkillFactor
         else 0)
      + (if part.actionTrait == Berserk then LegPropulsion(attackerParts) else 0)
  }

  /** The defense: the hit part's defense plus the target's intact legs' defense, 0 while its defense is disabled. */
  function DefenseValue(targetPart: Part, targetParts: PartMap, defenseDisabled: bool): int {
    if defenseDisabled then 0 else targetPart.defense + LegDefense(targetParts)
  }

  /** calculateDamage_refactored: power minus defense, raised to 1, then scaled for a critical and truncated. */
  function CalculateDamage(attackerParts: PartMap, medal: Medal, part: Part, targetPart: Part, targetParts: PartMap,
                           isCritical: bool, cfg: BalanceConfig, defenseDisabled: bool): int {
    var raw := Max(1, BasePower(attackerParts, medal, part, cfg) - DefenseValue(targetPart, targetParts, defenseDisabled));
    if isCritical then Trunc(raw as real * cfg.criticalMultiplier) else raw
  }

  /** Scaling a damage of at least 1 by a factor of at least 1 and truncating never lowers it, and by a factor that is not negative never makes it negative. */
  lemma TruncScaled(raw: int, m: real)
    requires raw >= 1
    ensures m >= 1.0 ==> Trunc(raw as real * m) >= raw
    ensures m >= 0.0 ==> Trunc(raw as real * m) >= 0
  {
    var x := raw as real;
    if m >= 0.0 {
      assert x * m == x * (m - 1.0) + x;
      assert x * m >= 0.0;
      if m >= 1.0 {
        assert x * (m - 1.0) >= 0.0;
        assert (x * m).Floor >= raw;
      }
    }
  }

  /**
   * A normal hit deals max(1, power - defense), so at least 1, and more
   * defense on the hit part never deals more; a critical with a multiplier
   * of at least 1 never deals less than the normal hit, and one that is not
   * negative never deals negative damage.
   */
  lemma DamageRules(attackerParts: PartMap, medal: Medal, part: Part, targetPart: Part, targetParts: PartMap,
                    cfg: BalanceConfig, defenseDisabled: bool, stronger: Part)
    requires stronger == targetPart.(defense := stronger.defense) && stronger.defense >= targetPart.defense
    ensures var normal := CalculateDamage(attackerParts, medal, part, targetPart, targetParts, false, cfg, defenseDisabled);
      && normal == Max(1, BasePower(attackerParts, medal, part, cfg) - DefenseValue(targetPart, targetParts, defenseDisabled))
      && normal >= 1
      && CalculateDamage(attackerParts, medal, part, stronger, targetParts, false, cfg, defenseDisabled) <= normal
      && (cfg.criticalMultiplier >= 1.0 ==>
            CalculateDamage(attackerParts, medal, part, targetPart, targetParts, true, cfg, defenseDisabled) >= normal)
      && (cfg.criticalMultiplier >= 0.0 ==>
            CalculateDamage(attackerParts, medal, part, targetPart, targetParts, true, cfg, defenseDisabled) >= 0)
  {
    NormalDamage(attackerParts, medal, part, targetPart, targetParts, cfg, defenseDisabled, stronger);
    CriticalDamage(attackerParts, medal, part, targetPart, targetParts, cfg, defenseDisabled);
  }

  lemma NormalDamage(attackerParts: PartMap, medal: Medal, part: Part, targetPart: Part, targetParts: PartMap,
                     cfg: BalanceConfig, defenseDisabled: bool, stronger: Part)
    requires stronger == targetPart.(defense := stronger.defense) && stronger.defense >= targetPart.defense
    ensures var normal := CalculateDamage(attackerParts, medal, part, targetPart, targetParts, false, cfg, defenseDisabled);
      && normal == Max(1, BasePower(attackerParts, medal, part, cfg) - DefenseValue(targetPart, targetParts, defenseDisabled))
      && CalculateDamage(attackerParts, medal, part, stronger, targetParts, false, cfg, defenseDisabled) <= normal
  {
    var power := BasePower(attackerParts, medal, part, cfg);
    assert DefenseValue(stronger, targetParts, defenseDisabled) >= DefenseValue(targetPart, targetParts, defenseDisabled);
  }

  lemma CriticalDamage(attackerParts: PartMap, medal: Medal, part: Part, targetPart: Part, targetParts: PartMap,
                       cfg: BalanceConfig, defenseDisabled: bool)
    ensures var normal := CalculateDamage(attackerParts, medal, part, targetPart, targetParts, false, cfg, defenseDisabled);
      var critical := CalculateDamage(attackerParts, medal, part, targetPart, targetParts, true, cfg, defenseDisabled);
      && (cfg.criticalMultiplier >= 1.0 ==> critical >= normal)
      && (cfg.criticalMultiplier >= 0.0 ==> critical >= 0)
  {
    CriticalScalesNormal(attackerParts, medal, part, targetPart, targetParts, cfg, defenseDisabled);
    TruncScaled(CalculateDamage(attackerParts, medal, part, targetPart, targetParts, false, cfg, defenseDisabled),
                cfg.criticalMultiplier);
  }

  /** With a multiplier that is not negative no hit deals negative damage. */
  lemma DamageNonNegative(attackerParts: PartMap, medal: Medal, part: Part, targetPart: Part, targetParts: PartMap,
                          isCritical: bool, cfg: BalanceConfig, defenseDisabled: bool)
    requires cfg.criticalMultiplier >= 0.0
    ensures CalculateDamage(attackerParts, medal, part, targetPart, targetParts, isCritical, cfg, defenseDisabled) >= 0
  {
    CriticalScalesNormal(attackerParts, medal, part, targetPart, targetParts, cfg, defenseDisabled);
    CriticalDamage(attackerParts, medal, part, targetPart, targetParts, cfg, defenseDisabled);
  }

  /** A critical hit is the normal hit scaled by the multiplier and truncated. */
  lemma CriticalScalesNormal(attackerParts: PartMap, medal: Medal, part: Part, targetPart: Part, targetParts: PartMap,
                             cfg: BalanceConfig, defenseDisabled: bool)
    ensures var normal := CalculateDamage(attackerParts, medal, part, targetPart, targetParts, false, cfg, defenseDisabled);
      && normal >= 1
      && CalculateDamage(attackerParts, medal, part, targetPart, targetParts, true, cfg, defenseDisabled)
         == Trunc(normal as real * cfg.criticalMultiplier)
  {
  }
}
