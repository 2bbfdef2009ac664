/**
 * The first Go iteration (data_structures.go): a unit charges an idle gauge
 * to choose an action, charges the chosen part's action up to its charge
 * time, executes it, and cools down for the part's cooldown time before
 * charging idle again. Parts are keyed by slot-name strings.
 */
module DataStructures {
  import opened Optional

  datatype MedarotState =
    | IdleCharging
    | ReadyToSelectAction
    | ActionCharging
    | ReadyToExecuteAction
    | ActionCooldown
    | Broken

  datatype Medal = Medal(
    id: string, name: string, personality: string, medaforce: string, attribute: string,
    skillShoot: int, skillFight: int, skillScan: int, skillSupport: int)

  datatype Part = Part(
    id: string, name: string, category: string, subCategory: string, slot: string,
    hp: int, maxHp: int, charge: int, cooldown: int, isBroken: bool,
    movementType: string, accuracy: int, mobility: int, propulsion: int, defenseParam: int,
    setId: string)

  /** The slot names whose parts can act, in the order they are listed. */
  const ATTACK_SLOTS: seq<string> := ["head", "rightArm", "leftArm"]

  const GAUGE_CHARGE_RATE_MULTIPLIER: real := 1.0
  const PROPULSION_FACTOR: real := 0.05
  const MIN_CHARGE_RATE: real := 0.1

  /** GetPart: the part under `key`, or nothing when it is missing or broken. */
  function GetPart(parts: map<string, Part>, key: string): (r: Option<Part>)
    ensures r.None? <==> key !in parts || parts[key].isBroken
    ensures r.Some? ==> r.value == parts[key]
  {
    if key in parts && !parts[key].isBroken then Some(parts[key]) else None
  }

  /** The keys among `keys` whose parts are present and intact, in order. */
  function IntactKeys(parts: map<string, Part>, keys: seq<string>): (r: seq<string>)
    ensures |r| <= |keys|
    ensures forall i :: 0 <= i < |r| ==> GetPart(parts, r[i]).Some?
  {
    if keys == [] then []
    else
      var rest := IntactKeys(parts, keys[1..]);
      if GetPart(parts, keys[0]).Some? then [keys[0]] + rest else rest
  }

  /** A key is listed exactly when it is among `keys` and its part is intact; so legs are never offered for an action. */
  lemma {:induction false} IntactKeysExact(parts: map<string, Part>, keys: seq<string>)
    ensures forall k :: k in IntactKeys(parts, keys) <==> k in keys && GetPart(parts, k).Some?
  {
    if keys != [] {
      IntactKeysExact(parts, keys[1..]);
    }
  }

  lemma LegsNeverOffered(parts: map<string, Part>)
    ensures "legs" !in IntactKeys(parts, ATTACK_SLOTS)
  {
    IntactKeysExact(parts, ATTACK_SLOTS);
    assert "legs"[0] != "head"[0] && "legs"[0] != "rightArm"[0] && |"legs"| != |"leftArm"|;
  }

  /** Everything about a unit that its methods change. */
  datatype Snapshot = Snapshot(
    parts: map<string, Part>, state: MedarotState, gauge: real, maxGauge: real,
    currentActionCharge: real, currentActionCooldown: real, selectedPartKey: string)

  /**
   * The gauge gained per update: the speed plus 0.05 per point of intact
   * legs' propulsion, raised to 0.1 when it would not be positive.
   */
  function ChargeRate(speed: real, parts: map<string, Part>): (r: real)
    ensures r > 0.0
  {
    var base := speed * GAUGE_CHARGE_RATE_MULTIPLIER
      + (if "legs" in parts && !parts["legs"].isBroken then parts["legs"].propulsion as real * PROPULSION_FACTOR
         else 0.0);
    if base <= 0.0 then MIN_CHARGE_RATE else base
  }

  /** A cooldown's end, or a charge or cooldown without a time: back to idle charging from 0. */
  function Idle(s: Snapshot): Snapshot {
    s.(state := IdleCharging, gauge := 0.0)
  }

  /** Update: one tick of a unit. */
  function Updated(s: Snapshot, speed: real): Snapshot {
    if s.state == Broken then s
    else if "head" in s.parts && s.parts["head"].isBroken then s.(state := Broken, gauge := 0.0)
    else
      var rate := ChargeRate(speed, s.parts);
      match s.state
      case IdleCharging =>
        if s.gauge + rate >= s.maxGauge then s.(gauge := s.maxGauge, state := ReadyToSelectAction)
        else s.(gauge := s.gauge + rate)
      case ActionCharging =>
        if s.currentActionCharge <= 0.0 then Idle(s)
        else if s.gauge + rate >= s.currentActionCharge then
          s.(gauge := s.currentActionCharge, state := ReadyToExecuteAction)
        else s.(gauge := s.gauge + rate)
      case ActionCooldown =>
        if s.currentActionCooldown <= 0.0 then Idle(s)
        else if s.gauge + rate >= s.currentActionCooldown then
          Idle(s).(selectedPartKey := "", currentActionCharge := 0.0, currentActionCooldown := 0.0)
        else s.(gauge := s.gauge + rate)
      case _ => s
  }

  /**
   * One update: Broken units and units waiting for a choice or an execution
   * are left alone; a broken head stops the unit with an empty gauge; idle
   * charging stops at the maximum, ready to choose; action charging stops at
   * the charge time, ready to execute; a finished cooldown charges idle again
   * from 0 with the selection and both times cleared.
   */
  lemma UpdateEffect(s: Snapshot, speed: real)
    ensures var t := Updated(s, speed);
      var rate := ChargeRate(speed, s.parts);
      var headBroken := "head" in s.parts && s.parts["head"].isBroken;
      && t.parts == s.parts && t.maxGauge == s.maxGauge
      && (s.state in {Broken, ReadyToSelectAction, ReadyToExecuteAction} && !(s.state != Broken && headBroken) ==> t == s)
      && (s.state != Broken && headBroken ==> t == s.(state := Broken, gauge := 0.0))
      && (s.state == IdleCharging && !headBroken ==>
            if s.gauge + rate >= s.maxGauge then t.state == ReadyToSelectAction && t.gauge == s.maxGauge
            else t == s.(gauge := s.gauge + rate))
      && (s.state == ActionCharging && !headBroken && s.currentActionCharge > 0.0 ==>
            if s.gauge + rate >= s.currentActionCharge then
              t.state == ReadyToExecuteAction && t.gauge == s.currentActionCharge
            else t == s.(gauge := s.gauge + rate))
      && (s.state in {ActionCharging, ActionCooldown} && !headBroken &&
          (if s.state == ActionCharging then s.currentActionCharge else s.currentActionCooldown) <= 0.0 ==>
            t == s.(state := IdleCharging, gauge := 0.0))
      && (s.state == ActionCooldown && !headBroken && s.currentActionCooldown > 0.0 &&
          s.gauge + rate >= s.currentActionCooldown ==>
            t.state == IdleCharging && t.gauge == 0.0 && t.selectedPartKey == ""
            && t.currentActionCharge == 0.0 && t.currentActionCooldown == 0.0)
  {
  }

  /** `n` updates in a row. */
  function Updates(s: Snapshot, speed: real, n: nat): Snapshot {
    if n == 0 then s else Updated(Updates(s, speed, n - 1), speed)
  }

  /** The gauge gained by `n` updates at `rate` each. */
  function Gain(rate: real, n: nat): real {
    if n == 0 then 0.0 else Gain(rate, n - 1) + rate
  }

  /** One idle-charging update below the maximum only adds the charge rate. */
  lemma IdleStep(t: Snapshot, speed: real)
    requires t.state == IdleCharging && !("head" in t.parts && t.parts["head"].isBroken)
    requires t.gauge + ChargeRate(speed, t.parts) < t.maxGauge
    ensures Updated(t, speed) == t.(gauge := t.gauge + ChargeRate(speed, t.parts))
  {
  }

  /** Idle charging gains the charge rate on every update while it stays below the maximum. */
  lemma {:induction false} IdleChargeProgress(s: Snapshot, speed: real, n: nat)
    requires s.state == IdleCharging && !("head" in s.parts && s.parts["head"].isBroken)
    requires s.gauge + Gain(ChargeRate(speed, s.parts), n) < s.maxGauge
    ensures Updates(s, speed, n) == s.(gauge := s.gauge + Gain(ChargeRate(speed, s.parts), n))
  {
    if n > 0 {
      var rate := ChargeRate(speed, s.parts);
      IdleChargeProgress(s, speed, n - 1);
      IdleStep(s.(gauge := s.gauge + Gain(rate, n - 1)), speed);
    }
  }

  /**
   * Idle charging reaches the choice exactly at the first update whose gain
   * reaches the maximum: the unit is then ready to choose with a full gauge.
   */
  lemma IdleChargeCompletes(s: Snapshot, speed: real, n: nat)
    requires s.state == IdleCharging && !("head" in s.parts && s.parts["head"].isBroken)
    requires n >= 1
    requires s.gauge + Gain(ChargeRate(speed, s.parts), n - 1) < s.maxGauge
    requires s.gauge + Gain(ChargeRate(speed, s.parts), n) >= s.maxGauge
    ensures Updates(s, speed, n).state == ReadyToSelectAction
    ensures Updates(s, speed, n).gauge == s.maxGauge
  {
    IdleChargeProgress(s, speed, n - 1);
  }

  /** SelectAction can start: the unit waits for a choice and the part under `key` is intact with a positive charge. */
  predicate CanSelect(s: Snapshot, key: string) {
    s.state == ReadyToSelectAction && GetPart(s.parts, key).Some? && s.parts[key].charge > 0
  }

  /** SelectAction on success: the part's charge and cooldown times are kept, and its action charges from 0. */
  function Selected(s: Snapshot, key: string): Snapshot
    requires key in s.parts
  {
    s.(selectedPartKey := key, currentActionCharge := s.parts[key].charge as real,
       currentActionCooldown := s.parts[key].cooldown as real, state := ActionCharging, gauge := 0.0)
  }

  /** ExecuteAction: outside ReadyToExecuteAction nothing happens; a lost part resets to idle; otherwise the cooldown starts. */
  function Executed(s: Snapshot): (Snapshot, bool) {
    if s.state != ReadyToExecuteAction then (s, false)
    else if GetPart(s.parts, s.selectedPartKey).None? then
      (Idle(s).(selectedPartKey := "", currentActionCharge := 0.0, currentActionCooldown := 0.0), false)
    else (s.(state := ActionCooldown, gauge := 0.0), true)
  }

  /**
   * An execution succeeds exactly when the unit was ready and its part is
   * intact, and then cools down from 0 keeping the cooldown time; a lost
   * part clears the selection and both times.
   */
  lemma ExecutedEffect(s: Snapshot)
    ensures var (t, ok) := Executed(s);
      && (ok <==> s.state == ReadyToExecuteAction && GetPart(s.parts, s.selectedPartKey).Some?)
      && (s.state != ReadyToExecuteAction ==> t == s)
      && (ok ==> t.state == ActionCooldown && t.gauge == 0.0 && t.currentActionCooldown == s.currentActionCooldown
                 && t.selectedPartKey == s.selectedPartKey)
      && (s.state == ReadyToExecuteAction && !ok ==>
            t.state == IdleCharging && t.gauge == 0.0 && t.selectedPartKey == ""
            && t.currentActionCharge == 0.0 && t.currentActionCooldown == 0.0)
  {
  }

  /**
   * A whole action cycle: a successful choice, a charge to the charge time,
   * an execution, and a cooldown to the cooldown time lead back to idle
   * charging with nothing selected.
   */
  lemma ActionCycle(s: Snapshot, key: string, speed: real)
    requires CanSelect(s, key) && !("head" in s.parts && s.parts["head"].isBroken)
    requires ChargeRate(speed, s.parts) >= s.parts[key].charge as real
    requires ChargeRate(speed, s.parts) >= s.parts[key].cooldown as real && s.parts[key].cooldown > 0
    ensures var charged := Updated(Selected(s, key), speed);
      && charged.state == ReadyToExecuteAction
      && Executed(charged).1
      && var cooled := Updated(Executed(charged).0, speed);
      && cooled.state == IdleCharging && cooled.gauge == 0.0 && cooled.selectedPartKey == ""
  {
  }

  /** A unit of the first Go iteration. */
  class Medarot {
    const id: string
    const name: string
    const team: string
    const speed: real
    const medal: Medal
    const isLeader: bool
    var parts: map<string, Part>
    var state: MedarotState
    var gauge: real
    var maxGauge: real
    var currentActionCharge: real
    var currentActionCooldown: real
    var selectedPartKey: string

    function Snap(): Snapshot
      reads this
    {
      Snapshot(parts, state, gauge, maxGauge, currentActionCharge, currentActionCooldown, selectedPartKey)
    }

    /** NewMedarot: no parts yet, idle charging from 0 towards 100, nothing selected. */
    constructor (id: string, name: string, team: string, speed: real, medal: Medal, isLeader: bool)
      ensures this.id == id && this.name == name && this.team == team && this.speed == speed
      ensures this.medal == medal && this.isLeader == isLeader
      ensures Snap() == Snapshot(map[], IdleCharging, 0.0, 100.0, 0.0, 0.0, "")
    {
      this.id := id;
      this.name := name;
      this.team := team;
      this.speed := speed;
      this.medal := medal;
      this.isLeader := isLeader;
      parts := map[];
      state := IdleCharging;
      gauge := 0.0;
      maxGauge := 100.0;
      currentActionCharge := 0.0;
      currentActionCooldown := 0.0;
      selectedPartKey := "";
    }

    function GetPartAt(key: string): (r: Option<Part>)
      reads this
      ensures r.None? <==> key !in parts || parts[key].isBroken
    {
      GetPart(parts, key)
    }

    /** GetAvailableAttackParts: the intact head and arm parts, whatever their charge, in slot order. */
    function GetAvailableAttackParts(): (r: seq<Part>)
      reads this
      ensures |r| == |IntactKeys(parts, ATTACK_SLOTS)| <= 3
      ensures forall i :: 0 <= i < |r| ==>
        var k := IntactKeys(parts, ATTACK_SLOTS)[i];
        k in ATTACK_SLOTS && k in parts && r[i] == parts[k] && !r[i].isBroken
    {
      IntactKeysExact(parts, ATTACK_SLOTS);
      var ps := parts;
      var keys := IntactKeys(ps, ATTACK_SLOTS);
      seq(|keys|, i requires 0 <= i < |keys| => ps[keys[i]])
    }

    method Update()
      modifies this
      ensures Snap() == Updated(old(Snap()), speed)
    {
      if state == Broken {
        return;
      }
      if "head" in parts && parts["head"].isBroken {
        state := Broken;
        gauge := 0.0;
        return;
      }
      var chargeRate := speed * GAUGE_CHARGE_RATE_MULTIPLIER;
      if "legs" in parts && !parts["legs"].isBroken {
        chargeRate := chargeRate + parts["legs"].propulsion as real * PROPULSION_FACTOR;
      }
      if chargeRate <= 0.0 {
        chargeRate := MIN_CHARGE_RATE;
      }
      match state {
        case IdleCharging =>
          gauge := gauge + chargeRate;
          if gauge >= maxGauge {
            gauge := maxGauge;
            state := ReadyToSelectAction;
          }
        case ActionCharging =>
          if currentActionCharge <= 0.0 {
            state := IdleCharging;
            gauge := 0.0;
            return;
          }
          gauge := gauge + chargeRate;
          if gauge >= currentActionCharge {
            gauge := currentActionCharge;
            state := ReadyToExecuteAction;
          }
        case ActionCooldown =>
          if currentActionCooldown <= 0.0 {
            state := IdleCharging;
            gauge := 0.0;
            return;
          }
          gauge := gauge + chargeRate;
          if gauge >= currentActionCooldown {
            gauge := currentActionCooldown;
            state := IdleCharging;
            gauge := 0.0;
            selectedPartKey := "";
            currentActionCharge := 0.0;
            currentActionCooldown := 0.0;
          }
        case _ =>
          return;
      }
    }

    method SelectAction(partSlotKey: string) returns (ok: bool)
      modifies this
      ensures ok == CanSelect(old(Snap()), partSlotKey)
      ensures ok ==> Snap() == Selected(old(Snap()), partSlotKey)
      ensures !ok ==> Snap() == old(Snap())
    {
      if state != ReadyToSelectAction {
        return false;
      }
      if partSlotKey !in parts || parts[partSlotKey].isBroken {
        return false;
      }
      var partToUse := parts[partSlotKey];
      if partToUse.charge <= 0 {
        return false;
      }
      selectedPartKey := partSlotKey;
      currentActionCharge := partToUse.charge as real;
      currentActionCooldown := partToUse.cooldown as real;
      state := ActionCharging;
      gauge := 0.0;
      return true;
    }

    method ExecuteAction() returns (ok: bool)
      modifies this
      ensures (Snap(), ok) == Executed(old(Snap()))
    {
      if state != ReadyToExecuteAction {
        return false;
      }
      var selectedPart := GetPart(parts, selectedPartKey);
      if selectedPart.None? {
        state := IdleCharging;
        gauge := 0.0;
        selectedPartKey := "";
        currentActionCharge := 0.0;
        currentActionCooldown := 0.0;
        return false;
      }
      state := ActionCooldown;
      gauge := 0.0;
      return true;
    }
  }
}
