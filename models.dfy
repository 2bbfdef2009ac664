/**
 * The shared vocabulary of the Go engine (models.go, and the balance table of
 * config.go): part slots, part and medal records, unit states, teams, game
 * states, and the slot queries that every Go iteration repeats.
 */
module Models {
  import opened Optional

  /** The slot keys of a unit's parts map: "head", "rightArm", "leftArm", "legs". */
  datatype Slot = HeadSlot | RightArmSlot | LeftArmSlot | LegsSlot

  /** The slots that can be chosen for an action, in the order they are offered. */
  const ATTACK_SLOTS: seq<Slot> := [HeadSlot, RightArmSlot, LeftArmSlot]
  /** The slots that can be hit, in the order they are listed. */
  const ALL_SLOTS: seq<Slot> := [HeadSlot, RightArmSlot, LeftArmSlot, LegsSlot]

  /**
   * The part's body position: HEAD, R_ARM, L_ARM, LEG, or (for a placeholder
   * part built from a slot key) the slot key itself.
   */
  datatype PartType = HeadType | RArmType | LArmType | LegType | SlotNamed(slot: Slot)

  datatype ActionCategory = Shoot | Fight | NoCategory
  datatype ActionTrait = Normal | Aim | Strike | Berserk | NoTrait

  datatype MedarotState =
    | ReadyToSelectAction
    | ActionCharging
    | ReadyToExecuteAction
    | ActionCooldown
    | Broken

  /** Teams are integers; Team1 is 0 and Team2 is 1. */
  type TeamId = int
  const TEAM1: TeamId := 0
  const TEAM2: TeamId := 1

  datatype GameState = Playing | PlayerActionSelect | ShowingMessage | GameOver

  datatype Medal = Medal(
    id: string, name: string, personality: string, medaforce: string, attribute: string,
    skillShoot: int, skillFight: int, skillScan: int, skillSupport: int)

  datatype Part = Part(
    id: string, partName: string, partType: PartType, category: ActionCategory,
    actionTrait: ActionTrait, weaponType: string,
    armor: int, maxArmor: int, power: int, charge: int, cooldown: int,
    defense: int, accuracy: int, mobility: int, propulsion: int,
    isBroken: bool, setId: string)

  /** A unit's parts, keyed by slot; a slot may be missing. */
  type PartMap = map<Slot, Part>

  /** The balance numbers of config.go, passed to the rules as a parameter. */
  datatype BalanceConfig = BalanceConfig(
    propulsionEffectRate: real, overallTimeDivisor: real,
    baseChance: int, traitAimBonus: int, traitStrikeBonus: int, traitBerserkDebuff: int,
    criticalMultiplier: real, medalSkillFactor: int)

  const DEFAULT_BALANCE: BalanceConfig := BalanceConfig(0.5, 50.0, 75, 50, 20, -10, 1.5, 2)

  /** The gauge formula divides by the time divisor, which must therefore be positive. */
  predicate ValidBalance(cfg: BalanceConfig) {
    cfg.overallTimeDivisor > 0.0
  }

  function Max(a: int, b: int): int {
    if a < b then b else a
  }

  /** GetPart: the part in `slot`, or nothing when the slot is empty or its part is broken. */
  function GetPart(parts: PartMap, slot: Slot): (r: Option<Part>)
    ensures r.None? <==> slot !in parts || parts[slot].isBroken
    ensures r.Some? ==> r.value == parts[slot]
  {
    if slot in parts && !parts[slot].isBroken then Some(parts[slot]) else None
  }

  /** The intact slots among `slots`, in order. */
  function IntactSlots(parts: PartMap, slots: seq<Slot>): (r: seq<Slot>)
    ensures |r| <= |slots|
    ensures forall i :: 0 <= i < |r| ==> GetPart(parts, r[i]).Some?
  {
    if slots == [] then []
    else
      var rest := IntactSlots(parts, slots[1..]);
      if GetPart(parts, slots[0]).Some? then [slots[0]] + rest else rest
  }

  /** The intact slots among `slots` whose part needs a positive charge, in order. */
  function ChargedSlots(parts: PartMap, slots: seq<Slot>): (r: seq<Slot>)
    ensures |r| <= |slots|
    ensures forall i :: 0 <= i < |r| ==> GetPart(parts, r[i]).Some? && parts[r[i]].charge > 0
  {
    if slots == [] then []
    else
      var rest := ChargedSlots(parts, slots[1..]);
      if GetPart(parts, slots[0]).Some? && parts[slots[0]].charge > 0 then [slots[0]] + rest else rest
  }

  /** One step of the slot scan: the slot at i is listed, when intact, before the rest. */
  lemma IntactSlotsStep(parts: PartMap, slots: seq<Slot>, i: nat)
    requires i < |slots|
    ensures IntactSlots(parts, slots[i..])
         == (if GetPart(parts, slots[i]).Some? then [slots[i]] else []) + IntactSlots(parts, slots[i + 1..])
  {
    assert slots[i..][1..] == slots[i + 1..];
  }

  /** The scan over the four slots that collects the intact ones, in listing order. */
  method CollectIntactSlots(parts: PartMap) returns (vulnerable: seq<Slot>)
    ensures vulnerable == IntactSlots(parts, ALL_SLOTS)
  {
    vulnerable := [];
    var slots := ALL_SLOTS;
    var i := 0;
    while i < |slots|
      invariant 0 <= i <= |slots|
      invariant vulnerable + IntactSlots(parts, slots[i..]) == IntactSlots(parts, slots)
    {
      IntactSlotsStep(parts, slots, i);
      if slots[i] in parts && !parts[slots[i]].isBroken {
        vulnerable := vulnerable + [slots[i]];
      }
      i := i + 1;
    }
    assert slots[i..] == [];
  }

  /** One step of the charged-slot scan. */
  lemma ChargedSlotsStep(parts: PartMap, slots: seq<Slot>, i: nat)
    requires i < |slots|
    ensures ChargedSlots(parts, slots[i..])
         == (if GetPart(parts, slots[i]).Some? && parts[slots[i]].charge > 0 then [slots[i]] else [])
            + ChargedSlots(parts, slots[i + 1..])
  {
    assert slots[i..][1..] == slots[i + 1..];
  }

  /** The position of a slot in the listing order head, rightArm, leftArm, legs. */
  function SlotRank(k: Slot): nat {
    match k
    case HeadSlot => 0
    case RightArmSlot => 1
    case LeftArmSlot => 2
    case LegsSlot => 3
  }

  /** The slots are listed in that order, each at most once. */
  predicate InSlotOrder(r: seq<Slot>) {
    forall i, j :: 0 <= i < j < |r| ==> SlotRank(r[i]) < SlotRank(r[j])
  }

  /**
   * A slot is listed by IntactSlots exactly when it is among `slots` and
   * intact, and the listing keeps the slot order.
   */
  lemma {:induction false} IntactSlotsExact(parts: PartMap, slots: seq<Slot>)
    requires InSlotOrder(slots)
    ensures forall k :: k in IntactSlots(parts, slots) <==> k in slots && GetPart(parts, k).Some?
    ensures InSlotOrder(IntactSlots(parts, slots))
  {
    if slots != [] {
      IntactSlotsExact(parts, slots[1..]);
    }
  }

  /**
   * A slot is listed by ChargedSlots exactly when it is among `slots`, intact
   * and with a positive charge, in any order of `slots`; the listing keeps
   * the slot order.
   */
  lemma {:induction false} ChargedSlotsExact(parts: PartMap, slots: seq<Slot>)
    ensures forall k :: k in ChargedSlots(parts, slots) <==>
      k in slots && GetPart(parts, k).Some? && parts[k].charge > 0
    ensures InSlotOrder(slots) ==> InSlotOrder(ChargedSlots(parts, slots))
  {
    if slots != [] {
      ChargedSlotsExact(parts, slots[1..]);
    }
  }

  /** The slot a part's type names (the HEAD, R_ARM and L_ARM cases of the AI's switch). */
  function AttackSlotOfType(t: PartType): (r: Option<Slot>)
    ensures r.Some? ==> r.value in ATTACK_SLOTS
  {
    match t
    case HeadType => Some(HeadSlot)
    case RArmType => Some(RightArmSlot)
    case LArmType => Some(LeftArmSlot)
    case _ => None
  }

  /** The hit-rate bonus of a trait (Aim, Strike, Berserk; none for the others). */
  function TraitBonus(t: ActionTrait, cfg: BalanceConfig): int {
    match t
    case Aim => cfg.traitAimBonus
    case Strike => cfg.traitStrikeBonus
    case Berserk => cfg.traitBerserkDebuff
    case _ => 0
  }

  /** The medal skill that backs an action: shooting skill for Shoot, fighting skill otherwise. */
  function SkillFor(medal: Medal, category: ActionCategory): int {
    if category == Shoot then medal.skillShoot else medal.skillFight
  }

  /** Whether a roll in [0, 100) hits: only a positive chance above the roll hits. */
  predicate Hits(chance: int, hitRoll: int) {
    chance > 0 && hitRoll < chance
  }

  /** Whether a hit is critical: only a hit with a chance over 100 can be, for a second roll below the excess. */
  predicate Critical(chance: int, hitRoll: int, critRoll: int) {
    Hits(chance, hitRoll) && chance > 100 && critRoll < chance - 100
  }

  /** A chance of at most 0 never hits, a critical is always a hit with a chance over 100, and a chance of 100 or more always hits. */
  lemma HitRules(chance: int, hitRoll: int, critRoll: int)
    requires 0 <= hitRoll < 100 && 0 <= critRoll < 100
    ensures chance <= 0 ==> !Hits(chance, hitRoll)
    ensures Critical(chance, hitRoll, critRoll) ==> Hits(chance, hitRoll) && chance > 100
    ensures chance >= 100 ==> Hits(chance, hitRoll)
    ensures chance >= 200 ==> Critical(chance, hitRoll, critRoll)
  {
  }

  /** The propulsion of intact legs, 0 without them. */
  function LegPropulsion(parts: PartMap): int {
    if GetPart(parts, LegsSlot).Some? then parts[LegsSlot].propulsion else 0
  }

  /** The defense of intact legs, 0 without them. */
  function LegDefense(parts: PartMap): int {
    if GetPart(parts, LegsSlot).Some? then parts[LegsSlot].defense else 0
  }

  /** The mobility of intact legs, 0 without them. */
  function LegMobility(parts: PartMap): int {
    if GetPart(parts, LegsSlot).Some? then parts[LegsSlot].mobility else 0
  }

  /** selectRandomPartToDamage: one of the intact slots of all four, chosen by `pick`, or nothing when all are broken. */
  function PartToDamage(parts: PartMap, pick: nat): (r: Option<Slot>)
    ensures r.Some? ==> GetPart(parts, r.value).Some?
  {
    var vulnerable := IntactSlots(parts, ALL_SLOTS);
    if |vulnerable| == 0 then None else Some(vulnerable[pick % |vulnerable|])
  }

  /** A part to damage is found exactly when some slot is intact, and it is always an intact slot. */
  lemma PartToDamageExact(parts: PartMap, pick: nat)
    ensures PartToDamage(parts, pick).None? <==> forall k :: k in ALL_SLOTS ==> GetPart(parts, k).None?
    ensures PartToDamage(parts, pick).Some? ==> PartToDamage(parts, pick).value in ALL_SLOTS
  {
    IntactSlotsExact(parts, ALL_SLOTS);
    var v := IntactSlots(parts, ALL_SLOTS);
    if |v| > 0 {
      assert v[pick % |v|] in v;
    } else {
      forall k | k in ALL_SLOTS ensures GetPart(parts, k).None? {
        assert k !in v;
      }
    }
  }

  /** A part after losing `damage` armor: armor at or below 0 is set to 0 and breaks the part. */
  function Damaged(p: Part, damage: int): Part {
    var armor := p.armor - damage;
    if armor <= 0 then p.(armor := 0, isBroken := true) else p.(armor := armor)
  }

  /** Armor never goes below 0, and the part is broken exactly when it was or its armor ran out. */
  lemma DamagedEffect(p: Part, damage: int)
    ensures Damaged(p, damage).armor == Max(0, p.armor - damage)
    ensures Damaged(p, damage).armor >= 0
    ensures Damaged(p, damage).isBroken <==> p.isBroken || p.armor - damage <= 0
    ensures Damaged(p, damage) == p.(armor := Damaged(p, damage).armor, isBroken := Damaged(p, damage).isBroken)
  {
  }
}
