/**
 * The ECS rule system (game_rule_system.go): a team whose leader exists and
 * is broken loses. Team1's leader is looked at first; every unit not on
 * Team1 counts for the second side.
 */
module GameRuleSystem {
  import opened Optional
  import opened Models
  import opened EcsWorld

  /** Whether a team is on the first side (Team1) or, when `first` is false, on the second (any other team). */
  predicate OnSide(team: TeamId, first: bool) {
    if first then team == TEAM1 else team != TEAM1
  }

  /** Some unit is a leader of the side. */
  predicate LeaderExists(units: seq<Unit>, first: bool) {
    exists i :: 0 <= i < |units| && units[i].identity.isLeader && OnSide(units[i].identity.team, first)
  }

  /** Some leader of the side is not in the Broken state. */
  predicate LeaderAlive(units: seq<Unit>, first: bool) {
    exists i :: 0 <= i < |units| && units[i].identity.isLeader && OnSide(units[i].identity.team, first)
                && !IsBroken(units[i].status)
  }

  /** The side has a leader and all its leaders are broken. */
  predicate Defeated(units: seq<Unit>, first: bool) {
    LeaderExists(units, first) && !LeaderAlive(units, first)
  }

  /** The winning team, if any: Team2 when Team1 is defeated, else Team1 when the other side is. */
  function Verdict(units: seq<Unit>): Option<TeamId> {
    if Defeated(units, true) then Some(TEAM2)
    else if Defeated(units, false) then Some(TEAM1)
    else None
  }

  /** The game state after the check: a verdict ends the game with the victory message. */
  function Judged(gs: GameStateRec, units: seq<Unit>): GameStateRec {
    if gs.currentState == GameOver || Verdict(units).None? then gs
    else gs.(winner := Verdict(units).value, message := Victory(Verdict(units).value), currentState := GameOver)
  }

  /**
   * The verdict: Team2 wins exactly when Team1 has a leader and every Team1
   * leader is broken; otherwise Team1 wins exactly when some unit off Team1
   * leads and every such leader is broken. While each side has a leader
   * that is not broken, there is no verdict, and a finished game stays as
   * it is.
   */
  lemma VerdictRules(gs: GameStateRec, units: seq<Unit>)
    ensures Verdict(units) == Some(TEAM2) <==>
      (exists i :: 0 <= i < |units| && units[i].identity.isLeader && units[i].identity.team == TEAM1)
      && (forall i :: 0 <= i < |units| && units[i].identity.isLeader && units[i].identity.team == TEAM1 ==>
            IsBroken(units[i].status))
    ensures Verdict(units) == Some(TEAM1) <==>
      !Defeated(units, true)
      && (exists i :: 0 <= i < |units| && units[i].identity.isLeader && units[i].identity.team != TEAM1)
      && (forall i :: 0 <= i < |units| && units[i].identity.isLeader && units[i].identity.team != TEAM1 ==>
            IsBroken(units[i].status))
    ensures LeaderAlive(units, true) && LeaderAlive(units, false) ==> Verdict(units).None?
    ensures gs.currentState == GameOver ==> Judged(gs, units) == gs
    ensures Judged(gs, units).currentState == GameOver <==> gs.currentState == GameOver || Verdict(units).Some?
    ensures Judged(gs, units).currentState != GameOver ==> Judged(gs, units) == gs
  {
  }

  /** The leader scan of Update: whether each side has a leader and whether one of them is alive. */
  method ScanLeaders(units: seq<Unit>) returns (team1Exists: bool, team1Alive: bool, team2Exists: bool, team2Alive: bool)
    ensures team1Exists == LeaderExists(units, true) && team1Alive == LeaderAlive(units, true)
    ensures team2Exists == LeaderExists(units, false) && team2Alive == LeaderAlive(units, false)
  {
    team1Exists, team1Alive, team2Exists, team2Alive := false, false, false, false;
    var i := 0;
    while i < |units|
      invariant 0 <= i <= |units|
      invariant team1Exists == LeaderExists(units[..i], true) && team1Alive == LeaderAlive(units[..i], true)
      invariant team2Exists == LeaderExists(units[..i], false) && team2Alive == LeaderAlive(units[..i], false)
    {
      var identity := units[i].identity;
      var isAlive := !IsBroken(units[i].status);
      if identity.isLeader {
        if identity.team == TEAM1 {
          team1Exists := true;
          if isAlive {
            team1Alive := true;
          }
        } else {
          team2Exists := true;
          if isAlive {
            team2Alive := true;
          }
        }
      }
      assert units[..i + 1] == units[..i] + [units[i]];
      i := i + 1;
    }
    assert units[..i] == units;
  }

  /** GameRuleSystem.Update: with a game that is not over, a verdict ends it. */
  method Update(w: World)
    modifies w
    ensures w.units == old(w.units) && w.actionSelect == old(w.actionSelect) && w.config == old(w.config)
    ensures old(w.gameState).None? ==> w.gameState == old(w.gameState)
    ensures old(w.gameState).Some? ==> w.gameState == Some(Judged(old(w.gameState).value, w.units))
  {
    if w.gameState.None? {
      return;
    }
    var gs := w.gameState.value;
    if gs.currentState == GameOver {
      return;
    }
    var team1Exists, team1Alive, team2Exists, team2Alive := ScanLeaders(w.units);
    var winnerFound := false;
    if team1Exists && !team1Alive {
      gs := gs.(winner := TEAM2, message := Victory(TEAM2));
      winnerFound := true;
    } else if team2Exists && !team2Alive {
      gs := gs.(winner := TEAM1, message := Victory(TEAM1));
      winnerFound := true;
    }
    if winnerFound {
      gs := gs.(currentState := GameOver);
      w.gameState := Some(gs);
    }
  }
}
