/**
 * The per-unit state machine of the browser engine: class Player of script.js.
 * A unit charges its gauge, waits for an action choice, charges that action,
 * waits for execution, and is knocked out for good once its head part breaks.
 */
module JsPlayer {
  import opened Optional

  const MAX_GAUGE: real := 100.0
  const PART_HP_BASE: int := 50
  const LEGS_HP_BONUS: int := 10
  const BASE_DAMAGE: int := 20

  /** The keys of a unit's parts object: head, rightArm, leftArm, legs. */
  datatype PartKey = Head | RightArm | LeftArm | Legs

  /** The property name under which a part is stored in a unit's parts object. */
  function KeyName(k: PartKey): string {
    match k
    case Head => "head"
    case RightArm => "rightArm"
    case LeftArm => "leftArm"
    case Legs => "legs"
  }

  /** Looks a property name up among the four part keys; any other name finds no part. */
  function KeyOf(name: string): (r: Option<PartKey>)
    ensures r.Some? ==> KeyName(r.value) == name
  {
    if name == "head" then Some(Head)
    else if name == "rightArm" then Some(RightArm)
    else if name == "leftArm" then Some(LeftArm)
    else if name == "legs" then Some(Legs)
    else None
  }

  /** Every key is found again under its own name. */
  lemma KeyRoundTrip(k: PartKey)
    ensures KeyOf(KeyName(k)) == Some(k)
  {
    match k
    case Head =>
    case RightArm => assert KeyName(k)[0] != "head"[0];
    case LeftArm => assert KeyName(k)[0] != "head"[0] && KeyName(k)[0] != "rightArm"[0];
    case Legs => assert KeyName(k)[0] != "head"[0] && KeyName(k)[0] != "rightArm"[0] && |KeyName(k)| != |"leftArm"|;
  }

  /** The part keys in the insertion order of a unit's parts object. */
  const PART_ORDER: seq<PartKey> := [Head, RightArm, LeftArm, Legs]
  /** The keys whose parts may be chosen as an attack. */
  const ATTACK_KEYS: seq<PartKey> := [Head, RightArm, LeftArm]

  datatype TeamId = Team1 | Team2

  datatype UnitState =
    | Charging
    | ReadySelect
    | SelectedCharging
    | ReadyExecute
    | CooldownComplete
    | Broken

  /** The states in which processTurn leaves the gauge alone. */
  const PAUSED: set<UnitState> := {ReadySelect, ReadyExecute, CooldownComplete, Broken}

  datatype Part = Part(name: string, hp: int, maxHp: int, action: string, isBroken: bool)

  /** An attack prepared for the execution dialog; it is applied when the dialog is confirmed. */
  datatype PreparedAttack = PreparedAttack(target: Player, partKey: PartKey, damage: int)

  /** The parts object: one part under each of the four keys. */
  datatype Parts = Parts(head: Part, rightArm: Part, leftArm: Part, legs: Part) {
    function Get(key: PartKey): Part {
      match key
      case Head => head
      case RightArm => rightArm
      case LeftArm => leftArm
      case Legs => legs
    }

    function With(key: PartKey, p: Part): (r: Parts)
      ensures r.Get(key) == p
      ensures forall k :: k != key ==> r.Get(k) == Get(k)
    {
      match key
      case Head => this.(head := p)
      case RightArm => this.(rightArm := p)
      case LeftArm => this.(leftArm := p)
      case Legs => this.(legs := p)
    }
  }

  /** Everything about a unit that its methods change. */
  datatype Snapshot = Snapshot(
    gauge: real,
    state: UnitState,
    selectedActionType: Option<string>,
    selectedPartKey: Option<PartKey>,
    preparedAttack: Option<PreparedAttack>,
    parts: Parts)

  function Max(a: int, b: int): int { if a >= b then a else b }

  /** Position of a part key in the parts object. */
  function Rank(key: PartKey): nat {
    match key
    case Head => 0
    case RightArm => 1
    case LeftArm => 2
    case Legs => 3
  }

  predicate RankIncreasing(keys: seq<PartKey>) {
    forall i, j :: 0 <= i < j < |keys| ==> Rank(keys[i]) < Rank(keys[j])
  }

  /** The keys of `keys` whose part exists and is intact, in the order given. */
  function IntactKeys(parts: Parts, keys: seq<PartKey>): (r: seq<PartKey>)
    ensures forall i :: 0 <= i < |r| ==> !parts.Get(r[i]).isBroken
    ensures |r| <= |keys|
  {
    if keys == [] then []
    else
      var rest := IntactKeys(parts, keys[1..]);
      if !parts.Get(keys[0]).isBroken then [keys[0]] + rest else rest
  }

  /** IntactKeys keeps exactly the intact parts among `keys`, and keeps them in part order. */
  lemma {:induction false} IntactKeysExact(parts: Parts, keys: seq<PartKey>)
    ensures forall k :: k in IntactKeys(parts, keys) <==> k in keys && !parts.Get(k).isBroken
    ensures RankIncreasing(keys) ==> RankIncreasing(IntactKeys(parts, keys))
  {
    if keys != [] {
      IntactKeysExact(parts, keys[1..]);
      var rest := IntactKeys(parts, keys[1..]);
      if RankIncreasing(keys) {
        forall k | k in rest ensures Rank(keys[0]) < Rank(k) {
          var j :| 1 <= j < |keys| && keys[j] == k;
        }
      }
    }
  }

  /**
   * A unit offers no attack part exactly when its head and both arms are
   * broken; a broken head already leaves the unit Broken after its next
   * turn, so the CPU's "no part" branch of handleActionSelection only meets
   * a unit that is out of the fight anyway, and it never ends the game.
   */
  lemma NoAttackPartMeansHeadBroken(s: Snapshot, speed: real)
    ensures IntactKeys(s.parts, ATTACK_KEYS) == []
        <==> s.parts.head.isBroken && s.parts.rightArm.isBroken && s.parts.leftArm.isBroken
    ensures IntactKeys(s.parts, ATTACK_KEYS) == [] ==> NextTurn(s, speed).state == Broken
  {
    IntactKeysExact(s.parts, ATTACK_KEYS);
    if !s.parts.head.isBroken {
      assert Head in IntactKeys(s.parts, ATTACK_KEYS);
    } else if !s.parts.rightArm.isBroken {
      assert RightArm in IntactKeys(s.parts, ATTACK_KEYS);
    } else if !s.parts.leftArm.isBroken {
      assert LeftArm in IntactKeys(s.parts, ATTACK_KEYS);
    } else {
      assert ATTACK_KEYS[1..] == [RightArm, LeftArm] && [RightArm, LeftArm][1..] == [LeftArm];
      assert IntactKeys(s.parts, [LeftArm]) == [];
      assert IntactKeys(s.parts, [RightArm, LeftArm]) == [];
    }
  }

  /** The parts object built by fullReset. */
  function FreshParts(): Parts {
    var hp := PART_HP_BASE;
    var legsHp := hp + LEGS_HP_BONUS;
    Parts(Part("Head", hp, hp, "Scan", false),
          Part("Right Arm", hp, hp, "Shoot", false),
          Part("Left Arm", hp, hp, "Fight", false),
          Part("Legs", legsHp, legsHp, "Move", false))
  }

  /** A unit right after fullReset. */
  function ResetSnapshot(): Snapshot {
    Snapshot(0.0, Charging, None, None, None, FreshParts())
  }

  lemma FreshUnit()
    ensures var s := ResetSnapshot();
      && s.gauge == 0.0 && s.state == Charging
      && s.selectedActionType == None && s.selectedPartKey == None && s.preparedAttack == None
      && s.parts.Get(Head).hp == s.parts.Get(Head).maxHp == 50
      && s.parts.Get(RightArm).hp == s.parts.Get(RightArm).maxHp == 50
      && s.parts.Get(LeftArm).hp == s.parts.Get(LeftArm).maxHp == 50
      && s.parts.Get(Legs).hp == s.parts.Get(Legs).maxHp == 60
      && (forall k :: !s.parts.Get(k).isBroken)
      && IntactKeys(s.parts, PART_ORDER) == PART_ORDER
  {
  }

  /** startCooldown: back to plain charging with every selection dropped. */
  function AfterCooldown(s: Snapshot): Snapshot {
    s.(gauge := 0.0, state := Charging, selectedActionType := None, selectedPartKey := None, preparedAttack := None)
  }

  /** selectAction: start charging the chosen part's action, caching that action's name. */
  function AfterSelect(s: Snapshot, key: PartKey): Snapshot {
    s.(selectedPartKey := Some(key), selectedActionType := Some(s.parts.Get(key).action),
       gauge := 0.0, state := SelectedCharging)
  }

  /** Whether applyDamage reports a destroyed head. */
  predicate DestroysHead(s: Snapshot, damage: int, key: PartKey) {
    key == Head && Max(0, s.parts.Get(key).hp - damage) == 0
  }

  /** applyDamage: the part loses `damage` HP, never going below 0; at 0 it is broken. */
  function AfterDamage(s: Snapshot, damage: int, key: PartKey): Snapshot {
    var p := s.parts.Get(key);
    var hp := Max(0, p.hp - damage);
    var q := p.(hp := hp, isBroken := if hp == 0 then true else p.isBroken);
    s.(parts := s.parts.With(key, q), state := if hp == 0 && key == Head then Broken else s.state)
  }

  /**
   * A hit changes only the hit part and, when a head reaches 0 HP, the state;
   * HP never goes below 0 and a part is broken once it is at 0.
   */
  lemma DamageEffect(s: Snapshot, damage: int, key: PartKey)
    ensures var t := AfterDamage(s, damage, key);
      && (forall k :: k != key ==> t.parts.Get(k) == s.parts.Get(k))
      && t.parts.Get(key).hp >= 0
      && t.parts.Get(key).hp == Max(0, s.parts.Get(key).hp - damage)
      && t.parts.Get(key).maxHp == s.parts.Get(key).maxHp
      && (t.parts.Get(key).isBroken <==> s.parts.Get(key).isBroken || t.parts.Get(key).hp == 0)
      && t.state == (if DestroysHead(s, damage, key) then Broken else s.state)
      && t.gauge == s.gauge && t.selectedPartKey == s.selectedPartKey
      && t.selectedActionType == s.selectedActionType && t.preparedAttack == s.preparedAttack
  {
  }

  predicate HeadBroken(s: Snapshot) {
    s.parts.head.isBroken
  }

  /** processTurn: one tick of the unit's own clock. */
  function NextTurn(s: Snapshot, speed: real): Snapshot {
    var s1 := if HeadBroken(s) && s.state != Broken then s.(state := Broken) else s;
    if s1.state in PAUSED then s1
    else
      var g := s1.gauge + speed;
      if g >= MAX_GAUGE then
        s1.(gauge := MAX_GAUGE,
            state := if s1.state == Charging then CooldownComplete
                     else if s1.state == SelectedCharging then ReadyExecute
                     else s1.state)
      else s1.(gauge := g)
  }

  /**
   * A turn only moves the gauge and the state: a broken head knocks the unit out for good,
   * paused units keep their gauge, the gauge stays within [0, MAX_GAUGE], and a full gauge
   * finishes charging (to cooldown_complete) or an action (to ready_execute).
   */
  lemma TurnEffect(s: Snapshot, speed: real)
    ensures var t := NextTurn(s, speed);
      && t.parts == s.parts && t.preparedAttack == s.preparedAttack
      && t.selectedPartKey == s.selectedPartKey && t.selectedActionType == s.selectedActionType
      && (s.state == Broken || HeadBroken(s) ==> t == s.(state := Broken))
      && (s.state in PAUSED ==> t.gauge == s.gauge)
      && (s.state in PAUSED && !HeadBroken(s) ==> t == s)
      && (0.0 <= s.gauge <= MAX_GAUGE && 0.0 <= speed ==> 0.0 <= t.gauge <= MAX_GAUGE)
      && (t.state == Broken <==> s.state == Broken || HeadBroken(s))
      && (!HeadBroken(s) && s.state == Charging ==>
            t.state == (if s.gauge + speed >= MAX_GAUGE then CooldownComplete else Charging))
      && (!HeadBroken(s) && s.state == SelectedCharging ==>
            t.state == (if s.gauge + speed >= MAX_GAUGE then ReadyExecute else SelectedCharging))
  {
  }

  /** `n` consecutive calls of processTurn. */
  function Turns(s: Snapshot, speed: real, n: nat): Snapshot {
    if n == 0 then s else NextTurn(Turns(s, speed, n - 1), speed)
  }

  /** At speed 1.0 a freshly charging unit needs exactly MAX_GAUGE (100) turns to finish charging. */
  lemma {:induction false} ChargeTakesHundredTurns(s: Snapshot, n: nat)
    requires s.state == Charging && s.gauge == 0.0 && !HeadBroken(s)
    requires n <= 100
    ensures n < 100 ==> Turns(s, 1.0, n) == s.(gauge := n as real)
    ensures n == 100 ==> Turns(s, 1.0, n) == s.(gauge := MAX_GAUGE, state := CooldownComplete)
  {
    if n > 0 {
      ChargeTakesHundredTurns(s, n - 1);
    }
  }

  /** A unit that is broken, or whose head is broken, stays broken whatever happens on later turns. */
  lemma {:induction false} BrokenIsForever(s: Snapshot, speed: real, n: nat)
    requires s.state == Broken || HeadBroken(s)
    requires n > 0
    ensures Turns(s, speed, n) == s.(state := Broken)
  {
    if n > 1 {
      BrokenIsForever(s, speed, n - 1);
    }
  }

  /** `n` hits of the same damage on one part. */
  function Hits(s: Snapshot, damage: int, key: PartKey, n: nat): Snapshot {
    if n == 0 then s else AfterDamage(Hits(s, damage, key, n - 1), damage, key)
  }

  /**
   * Repeated hits take a positive damage off an intact part until it reaches 0;
   * the part is broken exactly from the first hit that brings it to 0, never earlier.
   */
  lemma {:induction false} RepeatedHits(s: Snapshot, damage: int, key: PartKey, n: nat)
    requires !s.parts.Get(key).isBroken && s.parts.Get(key).hp > 0
    requires damage > 0
    ensures Hits(s, damage, key, n).parts.Get(key).hp == Max(0, s.parts.Get(key).hp - n * damage)
    ensures Hits(s, damage, key, n).parts.Get(key).isBroken <==> s.parts.Get(key).hp - n * damage <= 0
  {
    if n > 0 {
      RepeatedHits(s, damage, key, n - 1);
      assert (n - 1) * damage + damage == n * damage;
    }
  }

  /** With BASE_DAMAGE 20 a 50-HP part survives two hits at 10 HP and breaks on the third. */
  lemma ThreeHitsBreakAFreshArm()
    ensures Hits(ResetSnapshot(), BASE_DAMAGE, RightArm, 2).parts.rightArm.hp == 10
    ensures !Hits(ResetSnapshot(), BASE_DAMAGE, RightArm, 2).parts.rightArm.isBroken
    ensures Hits(ResetSnapshot(), BASE_DAMAGE, RightArm, 3).parts.rightArm.hp == 0
    ensures Hits(ResetSnapshot(), BASE_DAMAGE, RightArm, 3).parts.rightArm.isBroken
  {
    RepeatedHits(ResetSnapshot(), BASE_DAMAGE, RightArm, 2);
    RepeatedHits(ResetSnapshot(), BASE_DAMAGE, RightArm, 3);
  }

  class Player {
    const num: nat
    const team: TeamId
    const speed: real
    const isLeader: bool

    var gauge: real
    var state: UnitState
    var selectedActionType: Option<string>
    var selectedPartKey: Option<PartKey>
    var preparedAttack: Option<PreparedAttack>
    var parts: Parts

    function Snap(): Snapshot
      reads this
    {
      Snapshot(gauge, state, selectedActionType, selectedPartKey, preparedAttack, parts)
    }

    constructor (num: nat, team: TeamId, speed: real, isLeader: bool)
      ensures this.num == num && this.team == team && this.speed == speed && this.isLeader == isLeader
      ensures Snap() == ResetSnapshot()
    {
      this.num := num;
      this.team := team;
      this.speed := speed;
      this.isLeader := isLeader;
      new;
      FullReset();
    }

    method FullReset()
      modifies this
      ensures Snap() == ResetSnapshot()
    {
      gauge := 0.0;
      state := Charging;
      selectedActionType := None;
      selectedPartKey := None;
      preparedAttack := None;
      parts := FreshParts();
    }

    method StartCooldown()
      modifies this
      ensures Snap() == AfterCooldown(old(Snap()))
    {
      gauge := 0.0;
      state := Charging;
      selectedActionType := None;
      selectedPartKey := None;
      preparedAttack := None;
    }

    method SelectAction(partKey: PartKey)
      modifies this
      ensures Snap() == AfterSelect(old(Snap()), partKey)
    {
      selectedPartKey := Some(partKey);
      selectedActionType := Some(parts.Get(partKey).action);
      gauge := 0.0;
      state := SelectedCharging;
    }

    /** The intact head/arm keys, in part order; legs never attack. */
    function GetAvailableAttackParts(): (r: seq<PartKey>)
      reads this
      ensures forall i :: 0 <= i < |r| ==> r[i] != Legs && !parts.Get(r[i]).isBroken
      ensures |r| <= 3
    {
      IntactKeysExact(parts, ATTACK_KEYS);
      IntactKeys(parts, ATTACK_KEYS)
    }

    /** isReadyForSelection: waiting for a first choice, or back from a cooldown. */
    predicate IsReadyForSelection()
      reads this
    {
      state == ReadySelect || state == CooldownComplete
    }

    /** applyDamage: a name that is not a part key hits nothing and reports false. */
    method ApplyDamage(damage: int, partName: string) returns (headDestroyed: bool)
      modifies this
      ensures KeyOf(partName) == None ==> !headDestroyed && Snap() == old(Snap())
      ensures KeyOf(partName).Some? ==>
        && headDestroyed == DestroysHead(old(Snap()), damage, KeyOf(partName).value)
        && Snap() == AfterDamage(old(Snap()), damage, KeyOf(partName).value)
    {
      var key := KeyOf(partName);
      if key.None? {
        return false;
      }
      var partKey := key.value;
      var part := parts.Get(partKey);
      var hp := Max(0, part.hp - damage);
      part := part.(hp := hp);
      parts := parts.With(partKey, part);
      if hp == 0 {
        part := part.(isBroken := true);
        parts := parts.With(partKey, part);
        if partKey == Head {
          state := Broken;
          return true;
        }
      }
      return false;
    }

    method ProcessTurn()
      modifies this
      ensures Snap() == NextTurn(old(Snap()), speed)
    {
      if parts.head.isBroken && state != Broken {
        state := Broken;
      }
      if state in PAUSED {
        return;
      }
      gauge := gauge + speed;
      if gauge >= MAX_GAUGE {
        gauge := MAX_GAUGE;
        if state == Charging {
          state := CooldownComplete;
        } else if state == SelectedCharging {
          state := ReadyExecute;
        }
      }
    }
  }
}
