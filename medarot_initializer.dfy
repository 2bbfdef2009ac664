/**
 * The unit set-up of the ECS iteration (medarot_initializer.go): every
 * unit gets a medal and a loadout of four parts from the game data, with a
 * fallback medal and placeholder parts where the data has none, starts
 * ready to choose with a full gauge, and is player-controlled on Team1 and
 * AI-controlled on Team2. The random loadout and medal picks are
 * parameters.
 */
module MedarotInitializer {
  import opened Optional
  import opened Models
  import opened EcsWorld
  import opened Decimal

  const PLAYERS_PER_TEAM: nat := 3

  /** The part ids of a loadout, one per slot. */
  datatype Loadout = Loadout(head: string, rightArm: string, leftArm: string, legs: string)

  const DEFAULT_LOADOUTS: seq<Loadout> := [
    Loadout("H-001", "RA-001", "LA-001", "L-001"),
    Loadout("H-002", "RA-002", "LA-002", "L-002"),
    Loadout("H-003", "RA-003", "LA-003", "L-003"),
    Loadout("H-004", "RA-004", "LA-004", "L-004"),
    Loadout("H-005", "RA-005", "LA-005", "L-005"),
    Loadout("H-006", "RA-006", "LA-006", "L-006")
  ]

  /** The id the loadout names for a slot. */
  function LoadoutPart(l: Loadout, slot: Slot): string {
    match slot
    case HeadSlot => l.head
    case RightArmSlot => l.rightArm
    case LeftArmSlot => l.leftArm
    case LegsSlot => l.legs
  }

  /** The game data the set-up reads: the medals in order, and every part by id. */
  datatype GameData = GameData(medals: seq<Medal>, allParts: map<string, Part>)

  /** The medal used when none was found. */
  const FALLBACK_MEDAL: Medal := Medal("M_FALLBACK", "Fallback", "", "", "", 5, 5, 0, 0)

  /** The leader of Team1's medal. */
  const LEADER_MEDAL_ID: string := "M001"

  /** findPartByID: a copy of the part with the id, or nothing when the data has no such part. */
  function FindPartByID(allParts: map<string, Part>, id: string): (r: Option<Part>)
    ensures r.None? <==> id !in allParts
    ensures r.Some? ==> r.value == allParts[id]
  {
    if id in allParts then Some(allParts[id]) else None
  }

  /** The index of the first medal with the id at or after `from`. */
  function MedalIndex(medals: seq<Medal>, id: string, from: nat): (r: Option<nat>)
    ensures r.Some? ==>
      && from <= r.value < |medals| && medals[r.value].id == id
      && forall j :: from <= j < r.value ==> medals[j].id != id
    ensures r.None? ==> forall j :: from <= j < |medals| ==> medals[j].id != id
    decreases |medals| - from
  {
    if from >= |medals| then None
    else if medals[from].id == id then Some(from)
    else MedalIndex(medals, id, from + 1)
  }

  /** The first medal with the id, if any. */
  function FirstMedal(medals: seq<Medal>, id: string): Option<Medal> {
    match MedalIndex(medals, id, 0)
    case None => None
    case Some(i) => Some(medals[i])
  }

  /**
   * The first medal with the id is found exactly when some medal has it,
   * and then it is the earliest one.
   */
  lemma FirstMedalRules(medals: seq<Medal>, id: string)
    ensures FirstMedal(medals, id).Some? <==> exists i :: 0 <= i < |medals| && medals[i].id == id
    ensures FirstMedal(medals, id).Some? ==>
      exists i :: 0 <= i < |medals| && FirstMedal(medals, id).value == medals[i] && medals[i].id == id
                  && forall j :: 0 <= j < i ==> medals[j].id != id
  {
  }

  /** findMedalByID: the loop over the medals. */
  method FindMedalByID(medals: seq<Medal>, id: string) returns (r: Option<Medal>)
    ensures r == FirstMedal(medals, id)
  {
    var i := 0;
    while i < |medals|
      invariant 0 <= i <= |medals|
      invariant MedalIndex(medals, id, i) == MedalIndex(medals, id, 0)
    {
      if medals[i].id == id {
        return Some(medals[i]);
      }
      i := i + 1;
    }
    return None;
  }

  /** The stand-in for a part missing from the data: broken, with 1 of 1 armor, typed by its slot. */
  function Placeholder(slot: Slot): Part {
    Part("placeholder", "Missing", SlotNamed(slot), NoCategory, NoTrait, "", 1, 1, 0, 0, 0, 0, 0, 0, 0, true, "")
  }

  /** Team1's leader always takes the first loadout; everyone else the picked one. */
  function LoadoutFor(team: TeamId, isLeader: bool, loadoutPick: nat): Loadout {
    if team == TEAM1 && isLeader then DEFAULT_LOADOUTS[0] else DEFAULT_LOADOUTS[loadoutPick % |DEFAULT_LOADOUTS|]
  }

  /** The medal found for a unit, before the fallback: M001 for Team1's leader, a picked medal for anyone else. */
  function FoundMedal(team: TeamId, isLeader: bool, medals: seq<Medal>, medalPick: nat): Option<Medal> {
    if team == TEAM1 && isLeader then FirstMedal(medals, LEADER_MEDAL_ID)
    else if |medals| > 0 then Some(medals[medalPick % |medals|])
    else None
  }

  /** The medal a unit gets. */
  function MedalFor(team: TeamId, isLeader: bool, medals: seq<Medal>, medalPick: nat): Medal {
    match FoundMedal(team, isLeader, medals, medalPick)
    case None => FALLBACK_MEDAL
    case Some(m) => m
  }

  /** The parts a loadout gives: each slot's part from the data, or its placeholder. */
  function PartsFor(l: Loadout, allParts: map<string, Part>): PartMap {
    map slot | slot in ALL_SLOTS ::
      match FindPartByID(allParts, LoadoutPart(l, slot))
      case None => Placeholder(slot)
      case Some(p) => p
  }

  /** The loop that fills the parts map. */
  method BuildParts(l: Loadout, allParts: map<string, Part>) returns (parts: PartMap)
    ensures parts == PartsFor(l, allParts)
  {
    parts := map[];
    var slots := ALL_SLOTS;
    var i := 0;
    while i < |slots|
      invariant 0 <= i <= |slots|
      invariant parts.Keys == set k | k in slots[..i]
      invariant forall k :: k in parts ==> parts[k] == PartsFor(l, allParts)[k]
    {
      var slot := slots[i];
      var p := FindPartByID(allParts, LoadoutPart(l, slot));
      if p.Some? {
        parts := parts[slot := p.value];
      } else {
        parts := parts[slot := Placeholder(slot)];
      }
      assert slots[..i + 1] == slots[..i] + [slot];
      i := i + 1;
    }
    assert slots[..i] == slots;
  }

  /** The unit createMedarotEntity builds. */
  function NewMedarot(team: TeamId, number: nat, isLeader: bool, data: GameData, drawIndex: int,
                      loadoutPick: nat, medalPick: nat): Unit {
    Unit(Identity("p" + NatToString(number), "機体 " + NatToString(number), team, isLeader),
         MedalFor(team, isLeader, data.medals, medalPick),
         PartsFor(LoadoutFor(team, isLeader, loadoutPick), data.allParts),
         Status(ReadyToSelectAction, 100.0, false, false),
         Action(None, NO_ENTITY, NoMessage),
         drawIndex,
         Tags(false, false, false, false),
         if team == TEAM1 then PlayerControlled else AiControlled)
  }

  /**
   * A new unit is ready to choose with a full gauge, no flags, no action
   * and no tags; Team1 is player-controlled and every other team
   * AI-controlled. It has all four slots, each holding the data's part for
   * its loadout id or, when the data lacks it, a broken placeholder with 1
   * of 1 armor typed by its slot. Team1's leader has the first loadout and
   * M001 when the data has it; the fallback medal is used exactly when no
   * medal was found.
   */
  lemma NewMedarotRules(team: TeamId, number: nat, isLeader: bool, data: GameData, drawIndex: int,
                        loadoutPick: nat, medalPick: nat)
    ensures var u := NewMedarot(team, number, isLeader, data, drawIndex, loadoutPick, medalPick);
      var l := LoadoutFor(team, isLeader, loadoutPick);
      && u.status.state == ReadyToSelectAction && u.status.gauge == 100.0
      && !u.status.isEvasionDisabled && !u.status.isDefenseDisabled
      && u.action.selectedPartKey.None? && u.action.targetedMedarot == NO_ENTITY
      && u.tags == Tags(false, false, false, false)
      && (u.control == PlayerControlled <==> team == TEAM1) && (u.control == AiControlled <==> team != TEAM1)
      && u.parts.Keys == {HeadSlot, RightArmSlot, LeftArmSlot, LegsSlot}
      && (forall slot :: slot in u.parts ==>
            if LoadoutPart(l, slot) in data.allParts then u.parts[slot] == data.allParts[LoadoutPart(l, slot)]
            else u.parts[slot].isBroken && u.parts[slot].armor == 1 && u.parts[slot].maxArmor == 1
                 && u.parts[slot].partType == SlotNamed(slot))
      && (team == TEAM1 && isLeader ==> l == DEFAULT_LOADOUTS[0])
      && (team == TEAM1 && isLeader && (exists i :: 0 <= i < |data.medals| && data.medals[i].id == LEADER_MEDAL_ID) ==>
            u.medal.id == LEADER_MEDAL_ID && u.medal in data.medals)
      && (u.medal == FALLBACK_MEDAL <== FoundMedal(team, isLeader, data.medals, medalPick).None?)
      && (FoundMedal(team, isLeader, data.medals, medalPick).Some? ==> u.medal in data.medals)
      && (FoundMedal(team, isLeader, data.medals, medalPick).None? <==>
            (if team == TEAM1 && isLeader then forall i :: 0 <= i < |data.medals| ==> data.medals[i].id != LEADER_MEDAL_ID
             else data.medals == []))
  {
    FirstMedalRules(data.medals, LEADER_MEDAL_ID);
    var found := FoundMedal(team, isLeader, data.medals, medalPick);
    if found.Some? && !(team == TEAM1 && isLeader) {
      assert data.medals[medalPick % |data.medals|] in data.medals;
    }
  }

  /** The units of the first n rounds of the set-up loop: each round adds a Team1 unit, then a Team2 unit. */
  function Roster(data: GameData, loadoutPicks: seq<nat>, medalPicks: seq<nat>, n: nat): (r: seq<Unit>)
    requires n <= PLAYERS_PER_TEAM && |loadoutPicks| == |medalPicks| == 2 * PLAYERS_PER_TEAM
    ensures |r| == 2 * n
  {
    if n == 0 then []
    else
      var i := n - 1;
      Roster(data, loadoutPicks, medalPicks, i)
        + [NewMedarot(TEAM1, i + 1, i == 0, data, i, loadoutPicks[2 * i], medalPicks[2 * i]),
           NewMedarot(TEAM2, PLAYERS_PER_TEAM + i + 1, i == 0, data, i, loadoutPicks[2 * i + 1], medalPicks[2 * i + 1])]
  }

  /** Round i of the set-up loop built the units at 2i and 2i + 1. */
  lemma {:induction false} RosterAt(data: GameData, loadoutPicks: seq<nat>, medalPicks: seq<nat>, n: nat, i: nat)
    requires i < n <= PLAYERS_PER_TEAM && |loadoutPicks| == |medalPicks| == 2 * PLAYERS_PER_TEAM
    ensures var r := Roster(data, loadoutPicks, medalPicks, n);
      && r[2 * i] == NewMedarot(TEAM1, i + 1, i == 0, data, i, loadoutPicks[2 * i], medalPicks[2 * i])
      && r[2 * i + 1] == NewMedarot(TEAM2, PLAYERS_PER_TEAM + i + 1, i == 0, data, i,
                                    loadoutPicks[2 * i + 1], medalPicks[2 * i + 1])
  {
    if i < n - 1 {
      RosterAt(data, loadoutPicks, medalPicks, n - 1, i);
    }
  }

  /** The unit number the set-up gives the unit at position k. */
  function UnitNumber(k: nat): nat {
    if k % 2 == 0 then k / 2 + 1 else PLAYERS_PER_TEAM + k / 2 + 1
  }

  /** The unit at position k of the roster: its team, leadership, draw index, control and id. */
  lemma RosterUnit(data: GameData, loadoutPicks: seq<nat>, medalPicks: seq<nat>, k: nat)
    requires k < 2 * PLAYERS_PER_TEAM && |loadoutPicks| == |medalPicks| == 2 * PLAYERS_PER_TEAM
    ensures var u := Roster(data, loadoutPicks, medalPicks, PLAYERS_PER_TEAM)[k];
      && u.identity.team == (if k % 2 == 0 then TEAM1 else TEAM2)
      && (u.identity.isLeader <==> k < 2)
      && u.drawIndex == k / 2
      && u.control == (if k % 2 == 0 then PlayerControlled else AiControlled)
      && u.identity.id == "p" + NatToString(UnitNumber(k))
  {
    RosterAt(data, loadoutPicks, medalPicks, PLAYERS_PER_TEAM, k / 2);
  }

  /**
   * The set-up builds three units per team, alternating Team1 and Team2;
   * the first of each team is its only leader; each team's draw indices
   * run 0, 1, 2; Team1 is player-controlled and Team2 AI-controlled; and
   * the units' ids p1 to p6 are all different.
   */
  lemma RosterRules(data: GameData, loadoutPicks: seq<nat>, medalPicks: seq<nat>)
    requires |loadoutPicks| == |medalPicks| == 2 * PLAYERS_PER_TEAM
    ensures var r := Roster(data, loadoutPicks, medalPicks, PLAYERS_PER_TEAM);
      && |r| == 6
      && (forall k :: 0 <= k < 6 ==>
            && (r[k].identity.team == (if k % 2 == 0 then TEAM1 else TEAM2))
            && (r[k].identity.isLeader <==> k < 2)
            && r[k].drawIndex == k / 2
            && r[k].control == (if k % 2 == 0 then PlayerControlled else AiControlled)
            && r[k].identity.id == "p" + NatToString(UnitNumber(k)))
      && (forall j, k :: 0 <= j < k < 6 ==> r[j].identity.id != r[k].identity.id)
  {
    var r := Roster(data, loadoutPicks, medalPicks, PLAYERS_PER_TEAM);
    forall k | 0 <= k < 6
      ensures && (r[k].identity.team == (if k % 2 == 0 then TEAM1 else TEAM2))
              && (r[k].identity.isLeader <==> k < 2)
              && r[k].drawIndex == k / 2
              && r[k].control == (if k % 2 == 0 then PlayerControlled else AiControlled)
              && r[k].identity.id == "p" + NatToString(UnitNumber(k))
    {
      RosterUnit(data, loadoutPicks, medalPicks, k);
    }
    forall j, k | 0 <= j < k < 6
      ensures r[j].identity.id != r[k].identity.id
    {
      RosterUnit(data, loadoutPicks, medalPicks, j);
      RosterUnit(data, loadoutPicks, medalPicks, k);
      NatToStringInjective(UnitNumber(j), UnitNumber(k));
      assert ("p" + NatToString(UnitNumber(j)))[1..] == NatToString(UnitNumber(j));
      assert ("p" + NatToString(UnitNumber(k)))[1..] == NatToString(UnitNumber(k));
    }
  }

  /** createMedarotEntity: a new entity at the end of the world holding the unit. */
  method CreateMedarotEntity(w: World, team: TeamId, number: nat, isLeader: bool, data: GameData, drawIndex: int,
                             loadoutPick: nat, medalPick: nat) returns (e: EntityId)
    modifies w
    ensures w.units == old(w.units) + [NewMedarot(team, number, isLeader, data, drawIndex, loadoutPick, medalPick)]
    ensures e == |w.units| && ValidEntity(w.units, e)
    ensures w.gameState == old(w.gameState) && w.actionSelect == old(w.actionSelect) && w.config == old(w.config)
  {
    var partsConfig := DEFAULT_LOADOUTS[loadoutPick % |DEFAULT_LOADOUTS|];
    var selectedMedal: Option<Medal> := None;
    if team == TEAM1 && isLeader {
      selectedMedal := FindMedalByID(data.medals, LEADER_MEDAL_ID);
      partsConfig := DEFAULT_LOADOUTS[0];
    } else if |data.medals| > 0 {
      selectedMedal := Some(data.medals[medalPick % |data.medals|]);
    }
    if selectedMedal.None? {
      selectedMedal := Some(FALLBACK_MEDAL);
    }
    var parts := BuildParts(partsConfig, data.allParts);
    var control := if team == TEAM1 then PlayerControlled else AiControlled;
    var u := Unit(Identity("p" + NatToString(number), "機体 " + NatToString(number), team, isLeader),
                  selectedMedal.value, parts, Status(ReadyToSelectAction, 100.0, false, false),
                  Action(None, NO_ENTITY, NoMessage), drawIndex, Tags(false, false, false, false), control);
    w.units := w.units + [u];
    e := |w.units|;
  }

  /** InitializeAllMedarotEntities: three rounds, each creating a Team1 unit, then a Team2 unit. */
  method InitializeAllMedarotEntities(w: World, data: GameData, loadoutPicks: seq<nat>, medalPicks: seq<nat>)
    requires |loadoutPicks| == |medalPicks| == 2 * PLAYERS_PER_TEAM
    modifies w
    ensures w.units == old(w.units) + Roster(data, loadoutPicks, medalPicks, PLAYERS_PER_TEAM)
    ensures w.gameState == old(w.gameState) && w.actionSelect == old(w.actionSelect) && w.config == old(w.config)
  {
    var team1Count := 0;
    var team2Count := 0;
    var i := 0;
    while i < PLAYERS_PER_TEAM
      invariant 0 <= i <= PLAYERS_PER_TEAM && team1Count == i && team2Count == i
      invariant w.units == old(w.units) + Roster(data, loadoutPicks, medalPicks, i)
      invariant w.gameState == old(w.gameState) && w.actionSelect == old(w.actionSelect) && w.config == old(w.config)
    {
      var e1 := CreateMedarotEntity(w, TEAM1, i + 1, i == 0, data, team1Count, loadoutPicks[2 * i], medalPicks[2 * i]);
      team1Count := team1Count + 1;
      var e2 := CreateMedarotEntity(w, TEAM2, PLAYERS_PER_TEAM + i + 1, i == 0, data, team2Count,
                                    loadoutPicks[2 * i + 1], medalPicks[2 * i + 1]);
      team2Count := team2Count + 1;
      ghost var before := old(w.units) + Roster(data, loadoutPicks, medalPicks, i);
      ghost var pair := Roster(data, loadoutPicks, medalPicks, i + 1)[2 * i..];
      assert Roster(data, loadoutPicks, medalPicks, i + 1) == Roster(data, loadoutPicks, medalPicks, i) + pair;
      assert w.units == before + pair;
      i := i + 1;
    }
  }
}
