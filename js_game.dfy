/**
 * The browser engine's turn manager: class GameManager of script.js.
 * It owns the six units, decides on every tick who acts next, and asks the
 * page for dialogs; the dialog the page is showing is recorded in `modal`,
 * and whether the interval timer is installed in `running`.
 */
module JsGame {
  import opened Optional
  import opened JsPlayer

  const PLAYERS_PER_TEAM: nat := 3
  const TEAM1_BASE_SPEED: real := 1.0
  const TEAM2_BASE_SPEED: real := 0.9
  /** Math.random() * 0.2 lies in [0, SPEED_JITTER). */
  const SPEED_JITTER: real := 0.2

  datatype Phase = Idle | InitialSelection | BattleStartConfirm | Battle | GameOver

  /** The dialog the engine has asked the page to show. */
  datatype Modal =
    | Hidden
    | SelectionModal(actor: Player)
    | ExecutionModal(actor: Player)
    | BattleStartModal
    | GameOverModal(winningTeam: TeamId)

  /** Team of the k-th unit built by createPlayers. */
  function TeamAt(k: nat): TeamId {
    if k < PLAYERS_PER_TEAM then Team1 else Team2
  }

  function BaseSpeed(t: TeamId): real {
    if t == Team1 then TEAM1_BASE_SPEED else TEAM2_BASE_SPEED
  }

  /** Math.floor(r * n) for a draw r of Math.random(). */
  function Pick(r: real, n: nat): (i: nat)
    requires 0.0 <= r < 1.0 && n > 0
    ensures i < n
  {
    assert 0.0 <= r * (n as real) < n as real;
    (r * (n as real)).Floor
  }

  /** players.find(p => states includes p.state), as an index. */
  function FindIndex(ps: seq<Player>, states: set<UnitState>): (r: Option<nat>)
    reads ps
    ensures r.Some? ==> r.value < |ps| && ps[r.value].state in states
    ensures r.Some? ==> forall j :: 0 <= j < r.value ==> ps[j].state !in states
    ensures r.None? ==> forall j :: 0 <= j < |ps| ==> ps[j].state !in states
  {
    if ps == [] then None
    else if ps[0].state in states then Some(0)
    else match FindIndex(ps[1..], states)
      case None => None
      case Some(i) => Some(i + 1)
  }

  /**
   * players.find(p => p.isReadyForSelection()): the states gameLoop's
   * selection step looks for pick out exactly the first unit that is ready
   * for selection, and none when no unit is.
   */
  lemma ReadyForSelectionFound(ps: seq<Player>)
    ensures var r := FindIndex(ps, {ReadySelect, CooldownComplete});
      && (r.Some? ==> r.value < |ps| && ps[r.value].IsReadyForSelection()
                      && forall j :: 0 <= j < r.value ==> !ps[j].IsReadyForSelection())
      && (r.None? <==> forall j :: 0 <= j < |ps| ==> !ps[j].IsReadyForSelection())
  {
  }

  predicate IsEnemy(p: Player, team: TeamId)
    reads p
  {
    p.team != team && p.state != Broken
  }

  /** players.filter(p => p.team !== team && p.state !== 'broken'). */
  function Enemies(ps: seq<Player>, team: TeamId): (r: seq<Player>)
    reads ps
    ensures forall i :: 0 <= i < |r| ==> r[i] in ps && IsEnemy(r[i], team)
  {
    if ps == [] then []
    else
      var rest := Enemies(ps[1..], team);
      if IsEnemy(ps[0], team) then [ps[0]] + rest else rest
  }

  /** Enemies keeps every standing opponent, and the first one it keeps is the first in list order. */
  lemma {:induction false} EnemiesExact(ps: seq<Player>, team: TeamId)
    ensures forall p :: p in ps && IsEnemy(p, team) ==> p in Enemies(ps, team)
    ensures Enemies(ps, team) != [] ==>
      exists i :: 0 <= i < |ps| && ps[i] == Enemies(ps, team)[0] && forall j :: 0 <= j < i ==> !IsEnemy(ps[j], team)
  {
    if ps != [] {
      EnemiesExact(ps[1..], team);
      var rest := Enemies(ps[1..], team);
      forall p | p in ps && IsEnemy(p, team) ensures p in Enemies(ps, team) {
        if p != ps[0] {
          var k :| 0 <= k < |ps| && ps[k] == p;
          assert ps[1..][k - 1] == p;
        }
      }
      if !IsEnemy(ps[0], team) && rest != [] {
        var i :| 0 <= i < |ps[1..]| && ps[1..][i] == rest[0] && forall j :: 0 <= j < i ==> !IsEnemy(ps[1..][j], team);
        assert ps[i + 1] == rest[0];
        forall j | 0 <= j < i + 1 ensures !IsEnemy(ps[j], team) {
          if j > 0 { assert ps[j] == ps[1..][j - 1]; }
        }
      }
    }
  }

  /** enemies.find(e => e.isLeader). */
  function FirstLeader(es: seq<Player>): (r: Option<Player>)
    ensures r.Some? ==> r.value in es && r.value.isLeader
    ensures r.None? ==> forall i :: 0 <= i < |es| ==> !es[i].isLeader
  {
    if es == [] then None
    else if es[0].isLeader then Some(es[0])
    else FirstLeader(es[1..])
  }

  /** findEnemyTarget: the opposing leader while it stands, else the first standing opponent in list order. */
  function FindEnemyTarget(ps: seq<Player>, attacker: Player): (r: Player?)
    reads ps
    ensures r != null ==> r in ps && IsEnemy(r, attacker.team)
  {
    var enemies := Enemies(ps, attacker.team);
    if enemies == [] then null
    else match FirstLeader(enemies)
      case Some(leader) => leader
      case None => enemies[0]
  }

  /**
   * findEnemyTarget finds nobody exactly when no opponent stands; it prefers a standing leader;
   * and otherwise it picks the first standing opponent in list order.
   */
  lemma FindEnemyTargetChoice(ps: seq<Player>, attacker: Player)
    ensures FindEnemyTarget(ps, attacker) == null <==> forall p :: p in ps ==> !IsEnemy(p, attacker.team)
    ensures (exists p :: p in ps && IsEnemy(p, attacker.team) && p.isLeader) ==>
      FindEnemyTarget(ps, attacker) != null && FindEnemyTarget(ps, attacker).isLeader
    ensures FindEnemyTarget(ps, attacker) != null && !FindEnemyTarget(ps, attacker).isLeader ==>
      exists i :: 0 <= i < |ps| && ps[i] == FindEnemyTarget(ps, attacker)
                  && forall j :: 0 <= j < i ==> !IsEnemy(ps[j], attacker.team)
  {
    EnemiesExact(ps, attacker.team);
    var es := Enemies(ps, attacker.team);
    if p :| p in ps && IsEnemy(p, attacker.team) && p.isLeader {
      assert p in es;
    }
  }

  /** A unit's prepared attack, if any, aims at a unit of `ps` on the other team. */
  ghost predicate LegalAttack(ps: seq<Player>, u: Player)
    reads u
  {
    u.preparedAttack.Some? ==> u.preparedAttack.value.target in ps && u.preparedAttack.value.target.team != u.team
  }

  class GameManager {
    var players: seq<Player>
    var activePlayer: Player?
    var phase: Phase
    var running: bool
    var modal: Modal

    ghost predicate Valid()
      reads this, players
    {
      && (forall i, j :: 0 <= i < j < |players| ==> players[i] != players[j])
      && (activePlayer != null ==> activePlayer in players)
      && (forall p :: p in players ==> LegalAttack(players, p))
    }

    /** The units handed a turn while nothing is pending: no dialog owner, and a phase with a clock. */
    predicate Live()
      reads this
    {
      activePlayer == null && (phase == InitialSelection || phase == Battle)
    }

    twostate predicate NothingChanged()
      reads this, players
    {
      && players == old(players) && activePlayer == old(activePlayer) && phase == old(phase)
      && running == old(running) && modal == old(modal)
      && forall p :: p in old(players) ==> p.Snap() == old(p.Snap())
    }

    /** The k-th unit as createPlayers builds it: id k + 1, fresh parts, and the first of each team leads. */
    ghost predicate BuiltAt(p: Player, k: nat, jitter: seq<real>)
      requires k < |jitter|
      reads p
    {
      && p.num == k + 1
      && p.team == TeamAt(k)
      && (p.isLeader <==> k % PLAYERS_PER_TEAM == 0)
      && p.speed == BaseSpeed(TeamAt(k)) + jitter[k]
      && p.Snap() == ResetSnapshot()
    }

    /** constructor + createPlayers: team 1's three units, then team 2's. */
    constructor (jitter: seq<real>)
      requires |jitter| == 2 * PLAYERS_PER_TEAM
      requires forall k :: 0 <= k < |jitter| ==> 0.0 <= jitter[k] < SPEED_JITTER
      ensures Valid() && phase == Idle && activePlayer == null && !running && modal == Hidden
      ensures |players| == 2 * PLAYERS_PER_TEAM
      ensures forall k :: 0 <= k < |players| ==> fresh(players[k]) && BuiltAt(players[k], k, jitter)
      ensures forall k :: 0 <= k < |players| ==> players[k].speed > 0.0
    {
      players := [];
      activePlayer := null;
      phase := Idle;
      running := false;
      modal := Hidden;
      new;
      var teamIndex := 0;
      while teamIndex < 2
        invariant 0 <= teamIndex <= 2
        invariant |players| == teamIndex * PLAYERS_PER_TEAM
        invariant phase == Idle && activePlayer == null && !running && modal == Hidden
        invariant forall i, j :: 0 <= i < j < |players| ==> players[i] != players[j]
        invariant forall k :: 0 <= k < |players| ==> fresh(players[k]) && BuiltAt(players[k], k, jitter)
      {
        var team := if teamIndex == 0 then Team1 else Team2;
        var i := 0;
        while i < PLAYERS_PER_TEAM
          invariant 0 <= i <= PLAYERS_PER_TEAM
          invariant |players| == teamIndex * PLAYERS_PER_TEAM + i
          invariant phase == Idle && activePlayer == null && !running && modal == Hidden
          invariant forall i, j :: 0 <= i < j < |players| ==> players[i] != players[j]
          invariant forall k :: 0 <= k < |players| ==> fresh(players[k]) && BuiltAt(players[k], k, jitter)
        {
          var id := teamIndex * PLAYERS_PER_TEAM + i + 1;
          var p := new Player(id, team, BaseSpeed(team) + jitter[id - 1], i == 0);
          players := players + [p];
          i := i + 1;
        }
        teamIndex := teamIndex + 1;
      }
    }

    /** What prepareAndShowExecutionModal does to the unit `x` holding the turn, given the draw `r`. */
    twostate predicate ExecutionPrepared(x: Player, r: real)
      requires 0.0 <= r < 1.0
      reads this, players, x
    {
      var t := old(FindEnemyTarget(players, x));
      if t == null || old(IntactKeys(t.parts, PART_ORDER)) == [] then
        x.Snap() == AfterCooldown(old(x.Snap())) && modal == old(modal)
      else
        var keys := old(IntactKeys(t.parts, PART_ORDER));
        && x.Snap() == old(x.Snap()).(preparedAttack := Some(PreparedAttack(t, keys[Pick(r, |keys|)], BASE_DAMAGE)))
        && modal == ExecutionModal(x)
    }

    /** Valid survives a change to the units in `changed` that keeps their prepared attacks legal. */
    twostate lemma ValidAfterUnitsChange(changed: set<Player>)
      requires old(Valid()) && players == old(players) && forall u :: u in changed ==> u in players
      requires activePlayer != null ==> activePlayer in players
      requires forall u :: u in changed ==> LegalAttack(players, u)
      requires forall p :: p in players && p !in changed ==> p.preparedAttack == old(p.preparedAttack)
      ensures Valid()
    {
      forall p | p in players
        ensures LegalAttack(players, p)
      {
        if p !in changed {
          assert old(LegalAttack(players, p));
        }
      }
    }

    method PrepareAndShowExecutionModal(x: Player, r: real)
      requires Valid() && x in players && 0.0 <= r < 1.0
      modifies this, x
      ensures Valid() && players == old(players) && activePlayer == old(activePlayer)
      ensures phase == old(phase) && running == old(running)
      ensures ExecutionPrepared(x, r)
      ensures x.preparedAttack.Some? ==>
        var a := x.preparedAttack.value;
        && a.target in players && IsEnemy(a.target, x.team)
        && !a.target.parts.Get(a.partKey).isBroken
        && a.damage == BASE_DAMAGE
    {
      var target := FindEnemyTarget(players, x);
      if target == null {
        x.StartCooldown();
        ValidAfterUnitsChange({x});
        return;
      }
      var available := IntactKeys(target.parts, PART_ORDER);
      if |available| == 0 {
        x.StartCooldown();
        ValidAfterUnitsChange({x});
        return;
      }
      var key := available[Pick(r, |available|)];
      x.preparedAttack := Some(PreparedAttack(target, key, BASE_DAMAGE));
      modal := ExecutionModal(x);
      ValidAfterUnitsChange({x});
    }

    method HandleActionExecution(x: Player, r: real)
      requires Valid() && x in players && 0.0 <= r < 1.0
      modifies this, x
      ensures Valid() && players == old(players) && phase == old(phase)
      ensures activePlayer == x && !running
      ensures ExecutionPrepared(x, r)
    {
      // The source sets activePlayer and pauses first; the preparation reads neither, so the order is immaterial.
      PrepareAndShowExecutionModal(x, r);
      activePlayer := x;
      running := false;
    }

    /** What handleActionSelection does to the unit `x` whose selection turn it is. */
    twostate predicate SelectionHandled(x: Player)
      reads this, players, x
    {
      if x.team == Team2 then
        var normal := old(x.Snap()).(state := ReadySelect);
        var keys := old(x.GetAvailableAttackParts());
        && activePlayer == old(activePlayer) && running == old(running) && modal == old(modal)
        && (if old(FindEnemyTarget(players, x)) != null && keys != [] then
              x.Snap() == AfterSelect(normal, keys[0])
            else x.Snap() == old(x.Snap()).(state := Broken))
      else
        && x.Snap() == old(x.Snap()).(state := ReadySelect)
        && activePlayer == x && !running && modal == SelectionModal(x)
    }

    method HandleActionSelection(x: Player)
      requires Valid() && x in players
      modifies this, x
      ensures Valid() && players == old(players) && phase == old(phase)
      ensures SelectionHandled(x)
    {
      // The source normalises the state before looking for a target; the target search
      // only reads opponents, so it is made first here.
      var target := FindEnemyTarget(players, x);
      x.state := ReadySelect;
      if x.team == Team2 {
        var keys := x.GetAvailableAttackParts();
        if target != null && |keys| > 0 {
          x.SelectAction(keys[0]);
        } else {
          x.state := Broken;
        }
      } else {
        activePlayer := x;
        running := false;
        modal := SelectionModal(x);
      }
      ValidAfterUnitsChange({x});
    }

    /** One call of every unit's processTurn, in list order. */
    method ProcessAllTurns()
      requires Valid()
      modifies players
      ensures Valid()
      ensures forall p :: p in players ==> p.Snap() == NextTurn(old(p.Snap()), p.speed)
    {
      var i := 0;
      while i < |players|
        invariant 0 <= i <= |players|
        invariant forall j :: 0 <= j < i ==> players[j].Snap() == NextTurn(old(players[j].Snap()), players[j].speed)
        invariant forall j :: i <= j < |players| ==> players[j].Snap() == old(players[j].Snap())
        invariant forall j :: 0 <= j < |players| ==>
          players[j].preparedAttack == old(players[j].preparedAttack)
      {
        TurnEffect(players[i].Snap(), players[i].speed);
        players[i].ProcessTurn();
        i := i + 1;
      }
      ValidAfterUnitsChange({});
    }

    /**
     * What one call of gameLoop does: nothing while a dialog is open or the
     * phase has no clock; otherwise a ready execution is prepared, else a
     * ready selection is handled, else the selection round ends or, in
     * battle, every unit takes a turn.
     */
    twostate predicate LoopStepped(r: real)
      requires 0.0 <= r < 1.0
      reads this, players
    {
      && players == old(players)
      && (!old(Live()) ==> NothingChanged())
      && (old(Live()) && old(FindIndex(players, {ReadyExecute})).Some? ==>
          var x := players[old(FindIndex(players, {ReadyExecute})).value];
          && activePlayer == x && !running && phase == old(phase)
          && ExecutionPrepared(x, r)
          && forall p :: p in players && p != x ==> p.Snap() == old(p.Snap()))
      && (old(Live()) && old(FindIndex(players, {ReadyExecute})).None?
                            && old(FindIndex(players, {ReadySelect, CooldownComplete})).Some? ==>
          var x := players[old(FindIndex(players, {ReadySelect, CooldownComplete})).value];
          && phase == old(phase) && SelectionHandled(x)
          && forall p :: p in players && p != x ==> p.Snap() == old(p.Snap()))
      && (old(Live()) && old(FindIndex(players, {ReadyExecute})).None?
                            && old(FindIndex(players, {ReadySelect, CooldownComplete})).None? ==>
          if old(phase) == InitialSelection then
            && phase == BattleStartConfirm && !running && modal == BattleStartModal && activePlayer == null
            && forall p :: p in players ==> p.Snap() == old(p.Snap())
          else
            && phase == Battle && running == old(running) && modal == old(modal) && activePlayer == null
            && forall p :: p in players ==> p.Snap() == NextTurn(old(p.Snap()), p.speed))
    }

    /**
     * gameLoop: a ready execution goes first, then a ready selection; with neither, the
     * selection round ends (every unit has chosen) or, in battle, every unit takes a turn.
     */
    method GameLoop(r: real)
      requires Valid() && 0.0 <= r < 1.0
      modifies this, players
      ensures Valid() && players == old(players)
      ensures LoopStepped(r)
    {
      if activePlayer != null || !(phase == InitialSelection || phase == Battle) {
        return;
      }
      var execute := FindIndex(players, {ReadyExecute});
      if execute.Some? {
        HandleActionExecution(players[execute.value], r);
        return;
      }
      var select := FindIndex(players, {ReadySelect, CooldownComplete});
      if select.Some? {
        HandleActionSelection(players[select.value]);
        return;
      }
      if phase == InitialSelection {
        if forall p :: p in players ==> p.state != ReadySelect {
          phase := BattleStartConfirm;
          running := false;
          modal := BattleStartModal;
        }
      } else {
        ProcessAllTurns();
      }
    }

    /** One firing of the interval timer, which calls gameLoop only while it is installed. */
    method Tick(r: real)
      requires Valid() && 0.0 <= r < 1.0
      modifies this, players
      ensures Valid() && players == old(players)
      ensures !old(running) ==> NothingChanged()
      ensures old(running) ==> LoopStepped(r)
    {
      if running {
        GameLoop(r);
      }
    }

    /** start: only from IDLE; every unit is put straight into action selection with a full gauge. */
    method Start()
      requires Valid()
      modifies this, players
      ensures Valid() && players == old(players) && activePlayer == old(activePlayer) && modal == old(modal)
      ensures old(phase) != Idle ==> NothingChanged()
      ensures old(phase) == Idle ==>
        && phase == InitialSelection && running
        && forall p :: p in players ==> p.Snap() == old(p.Snap()).(gauge := MAX_GAUGE, state := ReadySelect)
    {
      if phase != Idle {
        return;
      }
      phase := InitialSelection;
      var i := 0;
      while i < |players|
        invariant 0 <= i <= |players|
        invariant players == old(players) && activePlayer == old(activePlayer) && modal == old(modal)
        invariant phase == InitialSelection
        invariant forall j :: 0 <= j < i ==> players[j].Snap() == old(players[j].Snap()).(gauge := MAX_GAUGE, state := ReadySelect)
        invariant forall j :: i <= j < |players| ==> players[j].Snap() == old(players[j].Snap())
      {
        players[i].gauge := MAX_GAUGE;
        players[i].state := ReadySelect;
        i := i + 1;
      }
      running := true;
    }

    /** reset: stop the clock, hide the dialog and give every unit fresh parts. */
    method Reset()
      requires Valid()
      modifies this, players
      ensures Valid() && players == old(players)
      ensures phase == Idle && activePlayer == null && !running && modal == Hidden
      ensures forall p :: p in players ==> p.Snap() == ResetSnapshot()
    {
      running := false;
      phase := Idle;
      activePlayer := null;
      modal := Hidden;
      var i := 0;
      while i < |players|
        invariant 0 <= i <= |players|
        invariant players == old(players)
        invariant phase == Idle && activePlayer == null && !running && modal == Hidden
        invariant forall j :: 0 <= j < i ==> players[j].Snap() == ResetSnapshot() 
        invariant forall j :: i <= j < |players| ==> players[j].Snap() == old(players[j].Snap())
      {
        players[i].FullReset();
        i := i + 1;
      }
      ValidAfterUnitsChange(set p | p in players);
    }

    /** handlePartSelection: the dialog's owner starts charging the chosen part's action. */
    method HandlePartSelection(partKey: PartKey)
      requires Valid()
      modifies this, activePlayer
      ensures Valid() && players == old(players) && phase == old(phase)
      ensures old(activePlayer) == null ==> NothingChanged()
      ensures old(activePlayer) != null ==>
        && old(activePlayer).Snap() == AfterSelect(old(activePlayer.Snap()), partKey)
        && activePlayer == null && modal == Hidden && running
    {
      if activePlayer == null {
        return;
      }
      activePlayer.SelectAction(partKey);
      activePlayer := null;
      modal := Hidden;
      running := true;
    }

    /** handleBattleStartConfirm: the battle begins with one turn for every unit. */
    method HandleBattleStartConfirm()
      requires Valid()
      modifies this, players
      ensures Valid() && players == old(players) && activePlayer == old(activePlayer)
      ensures phase == Battle && modal == Hidden && running
      ensures forall p :: p in players ==> p.Snap() == NextTurn(old(p.Snap()), p.speed)
    {
      phase := Battle;
      ProcessAllTurns();
      modal := Hidden;
      running := true;
    }

    /** The units a confirmation may touch: the dialog owner and the target of its prepared attack. */
    function ConfirmFrame(): set<Player>
      reads this, activePlayer
    {
      if activePlayer == null then {}
      else if activePlayer.preparedAttack.None? then {activePlayer}
      else {activePlayer, activePlayer.preparedAttack.value.target}
    }

    /**
     * The battle half of handleModalConfirm: the dialog owner's prepared attack lands, and
     * destroying the head of the opposing leader ends the game; otherwise the owner cools down.
     */
    method ConfirmAttack()
      requires Valid() && activePlayer != null
      modifies this, ConfirmFrame()
      ensures Valid() && players == old(players)
      ensures old(activePlayer.preparedAttack).None? ==>
        && old(activePlayer).Snap() == AfterCooldown(old(activePlayer.Snap()))
        && activePlayer == null && modal == Hidden && running && phase == old(phase)
      ensures old(activePlayer.preparedAttack).Some? ==>
        var a := old(activePlayer);
        var pa := old(activePlayer.preparedAttack).value;
        var over := DestroysHead(old(pa.target.Snap()), pa.damage, pa.partKey) && pa.target.isLeader;
        && pa.target != a
        && pa.target.Snap() == AfterDamage(old(pa.target.Snap()), pa.damage, pa.partKey)
        && (over ==> phase == GameOver && modal == GameOverModal(a.team) && !running
                     && activePlayer == a && a.Snap() == old(a.Snap()))
        && (!over ==> phase == old(phase) && a.Snap() == AfterCooldown(old(a.Snap()))
                      && activePlayer == null && modal == Hidden && running)
    {
      var attacker := activePlayer;
      if attacker.preparedAttack.Some? {
        var pa := attacker.preparedAttack.value;
        DamageEffect(pa.target.Snap(), pa.damage, pa.partKey);
        KeyRoundTrip(pa.partKey);
        var headDestroyed := pa.target.ApplyDamage(pa.damage, KeyName(pa.partKey));
        if headDestroyed && pa.target.isLeader {
          phase := GameOver;
          modal := GameOverModal(attacker.team);
          running := false;
        } else {
          attacker.StartCooldown();
          activePlayer := null;
          modal := Hidden;
          running := true;
        }
        ValidAfterUnitsChange({attacker, pa.target});
      } else {
        attacker.StartCooldown();
        activePlayer := null;
        modal := Hidden;
        running := true;
        ValidAfterUnitsChange({attacker});
      }
    }

    /** handleModalConfirm: after GAME_OVER the dialog's button resets the game; otherwise the attack is confirmed. */
    method HandleModalConfirm()
      requires Valid()
      modifies this, players
      ensures Valid() && players == old(players)
      ensures old(phase) == GameOver ==>
        && phase == Idle && activePlayer == null && !running && modal == Hidden
        && forall p :: p in players ==> p.Snap() == ResetSnapshot()
      ensures old(phase) != GameOver && old(activePlayer) == null ==> NothingChanged()
      ensures old(phase) != GameOver && old(activePlayer) != null ==>
        forall p :: p in players && p !in old(ConfirmFrame()) ==> p.Snap() == old(p.Snap())
      ensures old(phase) != GameOver && phase == GameOver ==>
        match modal
        case GameOverModal(w) =>
          exists p :: p in players && p.isLeader && p.team != w && p.state == Broken && HeadBroken(p.Snap())
        case _ => false
    {
      if phase == GameOver {
        Reset();
        return;
      }
      if activePlayer == null {
        return;
      }
      ConfirmAttack();
    }
  }
}
