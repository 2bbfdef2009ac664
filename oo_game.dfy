/**
 * The object-oriented Go game (game.go): a tick updates every standing unit,
 * hands ready executions to a message step, queues the player's ready units
 * for a choice and lets the AI choose for the others, then checks whether a
 * leader has fallen and whether the player must choose.
 */
module OoGame {
  import opened Optional
  import opened Models
  import opened MedarotLogic

  /** The continuation run when a message is dismissed. */
  datatype Callback = NoCallback | ExecuteFor(actor: Medarot) | ReturnToPlaying

  /** The message window's text, as the cases that build it. */
  datatype GameMessage =
    | NoMessage
    | Announce(actorName: string, partName: string, category: ActionCategory, targetName: Option<string>)
    | Victory(winner: TeamId)

  /** The team a unit attacks: Team1 for Team2, Team2 for every other team. */
  function OpponentOf(t: TeamId): TeamId {
    if t == TEAM2 then TEAM1 else TEAM2
  }

  predicate IsCandidate(m: Medarot, opponent: TeamId)
    reads m
  {
    m.team == opponent && m.state != Broken
  }

  /** The standing units of `opponent`, in list order. */
  function Candidates(ms: seq<Medarot>, opponent: TeamId): (r: seq<Medarot>)
    reads ms
    ensures |r| <= |ms|
    ensures forall i :: 0 <= i < |r| ==> r[i] in ms && IsCandidate(r[i], opponent)
  {
    if ms == [] then []
    else
      var last := ms[|ms| - 1];
      Candidates(ms[..|ms| - 1], opponent) + (if IsCandidate(last, opponent) then [last] else [])
  }

  /** A unit is a candidate exactly when it is listed, on the opposing team and not Broken. */
  lemma {:induction false} CandidatesExact(ms: seq<Medarot>, opponent: TeamId)
    ensures forall m :: m in Candidates(ms, opponent) <==> m in ms && IsCandidate(m, opponent)
  {
    if ms != [] {
      var init := ms[..|ms| - 1];
      CandidatesExact(init, opponent);
      assert ms == init + [ms[|ms| - 1]];
    }
  }

  /** No unit is ever its own target candidate. */
  lemma NeverOwnCandidate(m: Medarot)
    ensures !IsCandidate(m, OpponentOf(m.team))
  {
  }

  /** One of `c`, chosen by `pick`, or none when `c` is empty. */
  function PickFrom(c: seq<Medarot>, pick: nat): Medarot? {
    if c == [] then null else c[pick % |c|]
  }

  /** selectAutomaticTarget: one of the candidates, chosen by `pick`, or none when there are none. */
  function SelectTarget(ms: seq<Medarot>, acting: Medarot, pick: nat): (r: Medarot?)
    reads ms
  {
    PickFrom(Candidates(ms, OpponentOf(acting.team)), pick)
  }

  /** Every unit's state, in list order. */
  function Snaps(ms: seq<Medarot>): (r: seq<Snapshot>)
    reads ms
    ensures |r| == |ms| && forall i :: 0 <= i < |ms| ==> r[i] == ms[i].Snap()
  {
    seq(|ms|, i reads ms requires 0 <= i < |ms| => ms[i].Snap())
  }

  /** The candidates of `opponent` when the units' states are `snaps`. */
  function CandidatesIn(ms: seq<Medarot>, snaps: seq<Snapshot>, opponent: TeamId): (r: seq<Medarot>)
    requires |snaps| == |ms|
    ensures forall k :: 0 <= k < |r| ==> r[k] in ms && r[k].team == opponent
  {
    if ms == [] then []
    else
      var n := |ms| - 1;
      var init := CandidatesIn(ms[..n], snaps[..n], opponent);
      assert forall k :: 0 <= k < |init| ==> init[k] in ms;
      init + (if ms[n].team == opponent && snaps[n].state != Broken then [ms[n]] else [])
  }

  /** The candidates read from the heap are those of the units' current states. */
  lemma {:induction false} CandidatesView(ms: seq<Medarot>, opponent: TeamId)
    ensures Candidates(ms, opponent) == CandidatesIn(ms, Snaps(ms), opponent)
  {
    if ms != [] {
      var n := |ms| - 1;
      CandidatesView(ms[..n], opponent);
      assert Snaps(ms)[..n] == Snaps(ms[..n]);
    }
  }

  /** The automatic target is missing exactly when no opponent stands, and is otherwise a standing opponent. */
  lemma SelectTargetChoice(ms: seq<Medarot>, acting: Medarot, pick: nat)
    ensures SelectTarget(ms, acting, pick) == null <==>
      forall m :: m in ms ==> !IsCandidate(m, OpponentOf(acting.team))
    ensures SelectTarget(ms, acting, pick) != null ==>
      SelectTarget(ms, acting, pick) in ms && IsCandidate(SelectTarget(ms, acting, pick), OpponentOf(acting.team))
      && SelectTarget(ms, acting, pick) != acting
  {
    CandidatesExact(ms, OpponentOf(acting.team));
    var c := Candidates(ms, OpponentOf(acting.team));
    if c != [] {
      assert c[0] in c;
    }
  }

  /**
   * handleAIAction on a unit's state: among its available parts `avail`, the
   * pick chooses one; the target is set first; a shooting part without a
   * target stops there; otherwise the slot named by the part's type is selected.
   */
  function AfterAiAction(s: Snapshot, avail: seq<Part>, target: Medarot?, partPick: nat): Snapshot {
    if s.state != ReadyToSelectAction || avail == [] then s
    else
      var part := avail[partPick % |avail|];
      var t := s.(targetedMedarot := target);
      if target == null && part.category == Shoot then t
      else
        var key := AttackSlotOfType(part.partType);
        if CanSelect(t, key) then Selected(t, key.value) else t
  }

  /**
   * The AI changes nothing unless the unit waits for a choice with a part
   * available; a shooter without a target only records the missing target;
   * a committed choice charges an intact, chargeable head or arm from 0.
   */
  lemma AiActionEffect(s: Snapshot, avail: seq<Part>, target: Medarot?, partPick: nat)
    ensures var t := AfterAiAction(s, avail, target, partPick);
      && (s.state != ReadyToSelectAction || avail == [] ==> t == s)
      && (s.state == ReadyToSelectAction && avail != [] ==>
            t.targetedMedarot == target && t.parts == s.parts
            && (t.state == ReadyToSelectAction ==> t == s.(targetedMedarot := target))
            && (t.state != ReadyToSelectAction ==>
                  && t.state == ActionCharging && t.gauge == 0.0 && t.selectedPartKey.Some?
                  && t.selectedPartKey.value in ATTACK_SLOTS
                  && GetPart(s.parts, t.selectedPartKey.value).Some?
                  && s.parts[t.selectedPartKey.value].charge > 0
                  && !(target == null && avail[partPick % |avail|].category == Shoot)))
  {
  }

  /** No two queued units share an ID. */
  predicate UniqueIds(q: seq<Medarot>) {
    forall a, b :: 0 <= a < b < |q| ==> q[a].id != q[b].id
  }

  predicate HasId(q: seq<Medarot>, id: string) {
    exists k :: 0 <= k < |q| && q[k].id == id
  }

  predicate Distinct(ms: seq<Medarot>) {
    forall i, j :: 0 <= i < j < |ms| ==> ms[i] != ms[j]
  }

  /** Team1 units count on one side, every other team on the other. */
  function Side(m: Medarot): bool {
    m.team == TEAM1
  }

  /** The number of units on `side` among the first `n`. */
  function CountSide(ms: seq<Medarot>, n: nat, side: bool): (c: nat)
    requires n <= |ms|
    ensures c <= n
  {
    if n == 0 then 0 else CountSide(ms, n - 1, side) + (if Side(ms[n - 1]) == side then 1 else 0)
  }

  /** Go's byte-wise string order: a proper prefix, or a smaller character at the first difference. */
  predicate StrLess(a: string, b: string) {
    if a == [] then b != []
    else if b == [] then false
    else if a[0] != b[0] then a[0] < b[0]
    else StrLess(a[1..], b[1..])
  }

  /** The drawing order: by team, then by ID. */
  predicate DrawBefore(a: Medarot, b: Medarot) {
    a.team < b.team || (a.team == b.team && StrLess(a.id, b.id))
  }

  predicate SortedForDraw(ms: seq<Medarot>) {
    forall i, j :: 0 <= i < j < |ms| ==> !DrawBefore(ms[j], ms[i])
  }

  /** The draw index NewGame gives the unit at position `p` of the drawing order: how many of its side come before it. */
  function DrawIndexAt(ms: seq<Medarot>, p: nat): nat
    requires p < |ms|
  {
    CountSide(ms, p, Side(ms[p]))
  }

  /**
   * Within a side, a unit later in the drawing order gets a larger index, and
   * every index is below the side's unit count: the indices of a side are 0, 1, 2, ...
   */
  lemma {:induction false} DrawIndexOrder(ms: seq<Medarot>, p: nat, q: nat)
    requires p < q < |ms| && Side(ms[p]) == Side(ms[q])
    ensures DrawIndexAt(ms, p) < DrawIndexAt(ms, q)
    ensures DrawIndexAt(ms, q) < CountSide(ms, |ms|, Side(ms[q]))
  {
    CountSideGrows(ms, p + 1, q, Side(ms[p]));
    CountSideGrows(ms, q + 1, |ms|, Side(ms[q]));
  }

  lemma {:induction false} CountSideGrows(ms: seq<Medarot>, a: nat, b: nat, side: bool)
    requires a <= b <= |ms|
    ensures CountSide(ms, a, side) <= CountSide(ms, b, side)
  {
    if a < b {
      CountSideGrows(ms, a, b - 1, side);
    }
  }

  /** The leader cached for `side`: the last leader of that side in the list. */
  function LastLeader(ms: seq<Medarot>, side: bool): (r: Medarot?)
    ensures r != null ==> r in ms && r.isLeader && Side(r) == side
  {
    if ms == [] then null
    else
      var last := ms[|ms| - 1];
      if last.isLeader && Side(last) == side then last else LastLeader(ms[..|ms| - 1], side)
  }

  /** The game's own state. */
  datatype GameSnap = GameSnap(
    state: GameState, actionQueue: seq<Medarot>, message: GameMessage, callback: Callback,
    winner: TeamId, playerActionTarget: Medarot?)

  /** The announcement setupActionExecution shows for `m`, in state `s`, about to use `part`. */
  function Announcement(m: Medarot, s: Snapshot, part: Part): GameMessage {
    Announce(m.name, part.partName, part.category,
             if part.category == Shoot && s.targetedMedarot != null then Some(s.targetedMedarot.name) else None)
  }

  /**
   * checkAndHandleMedarotState for `m` in state `s`: a unit ready to execute
   * is announced, or goes back to choosing when its part is gone; a unit
   * waiting for a choice whose ID is not queued joins the queue when it is the
   * player's and lets the AI choose, aiming at `target`, otherwise.
   */
  function Handled(m: Medarot, s: Snapshot, g: GameSnap, playerTeam: TeamId, target: Medarot?, partPick: nat)
    : (Snapshot, GameSnap)
  {
    if s.state == ReadyToExecuteAction then
      if SelectedPart(s).None? then (WithState(s, ReadyToSelectAction), g)
      else (s, g.(state := ShowingMessage, callback := ExecuteFor(m),
                  message := Announcement(m, s, SelectedPart(s).value)))
    else if s.state != ReadyToSelectAction || HasId(g.actionQueue, m.id) then (s, g)
    else if m.team == playerTeam then (s, g.(actionQueue := g.actionQueue + [m]))
    else (AfterAiAction(s, AttackParts(s.parts), target, partPick), g)
  }

  /** The units' states and the game's state, between two turns of updatePlaying. */
  datatype World = World(snaps: seq<Snapshot>, game: GameSnap)

  /**
   * The turn of unit `i` in updatePlaying: a Broken unit is skipped; any other
   * is updated and then handled, an AI choice aiming at the opponents standing
   * at that moment, as `picks` chooses.
   */
  function TurnAt(ms: seq<Medarot>, w: World, i: nat, cfg: BalanceConfig, playerTeam: TeamId, picks: (nat, nat))
    : (r: World)
    requires ValidBalance(cfg) && |w.snaps| == |ms| && i < |ms|
    ensures |r.snaps| == |ms|
  {
    if w.snaps[i].state == Broken then w
    else HandledAt(ms, w.(snaps := w.snaps[i := Updated(w.snaps[i], cfg)]), i, playerTeam, picks)
  }

  /** The handling of unit `i` after its update, the AI aiming at the opponents standing in `w`. */
  function HandledAt(ms: seq<Medarot>, w: World, i: nat, playerTeam: TeamId, picks: (nat, nat)): (r: World)
    requires |w.snaps| == |ms| && i < |ms|
    ensures |r.snaps| == |ms|
  {
    var target := PickFrom(CandidatesIn(ms, w.snaps, OpponentOf(ms[i].team)), picks.1);
    var h := Handled(ms[i], w.snaps[i], w.game, playerTeam, target, picks.0);
    World(w.snaps[i := h.0], h.1)
  }

  /** The first `n` turns of updatePlaying, in list order. */
  function Turns(ms: seq<Medarot>, w: World, n: nat, cfg: BalanceConfig, playerTeam: TeamId, picks: seq<(nat, nat)>)
    : (r: World)
    requires ValidBalance(cfg) && |w.snaps| == |ms| && n <= |ms| && |picks| == |ms|
    ensures |r.snaps| == |ms|
  {
    if n == 0 then w else TurnAt(ms, Turns(ms, w, n - 1, cfg, playerTeam, picks), n - 1, cfg, playerTeam, picks[n - 1])
  }

  lemma TurnsNext(ms: seq<Medarot>, w: World, i: nat, cfg: BalanceConfig, playerTeam: TeamId,
                  picks: seq<(nat, nat)>, before: World, after: World)
    requires ValidBalance(cfg) && |w.snaps| == |ms| && i < |ms| && |picks| == |ms|
    requires before == Turns(ms, w, i, cfg, playerTeam, picks)
    requires after == TurnAt(ms, before, i, cfg, playerTeam, picks[i])
    ensures after == Turns(ms, w, i + 1, cfg, playerTeam, picks)
  {
  }

  /**
   * What the turn of unit `i` may do, taking `a` to `b`: no other unit
   * changes; a Broken unit changes nothing; the queue is kept or gains unit
   * `i`, a player unit left waiting for a choice whose ID was not queued; the
   * game's state changes, if at all, to showing a message.
   */
  predicate TurnShape(ms: seq<Medarot>, a: World, b: World, i: nat, playerTeam: TeamId) {
    && |a.snaps| == |ms| && |b.snaps| == |ms| && i < |ms|
    && (forall j :: 0 <= j < |ms| && j != i ==> b.snaps[j] == a.snaps[j])
    && (a.snaps[i].state == Broken ==> b == a)
    && (b.game.actionQueue == a.game.actionQueue
        || (b.game.actionQueue == a.game.actionQueue + [ms[i]] && ms[i].team == playerTeam
            && b.snaps[i].state == ReadyToSelectAction && !HasId(a.game.actionQueue, ms[i].id)))
    && (b.game.state != a.game.state ==> b.game.state == ShowingMessage)
  }

  /** Every turn has that shape. */
  lemma TurnHasShape(ms: seq<Medarot>, w: World, i: nat, cfg: BalanceConfig, playerTeam: TeamId, picks: (nat, nat))
    requires ValidBalance(cfg) && |w.snaps| == |ms| && i < |ms|
    ensures TurnShape(ms, w, TurnAt(ms, w, i, cfg, playerTeam, picks), i, playerTeam)
  {
  }

  /**
   * The turn of unit `i` makes of it exactly what updatePlaying's loop body
   * does: a Broken unit is unchanged; any other is Updated, then a unit ready
   * to execute keeps that state when its part is intact and goes back to
   * choosing when it is gone, an AI unit waiting for a choice whose ID is not
   * queued chooses as handleAIAction does, aiming at an opponent or at
   * nothing, and every other unit keeps its updated state.
   */
  lemma TurnUnitEffect(ms: seq<Medarot>, w: World, i: nat, cfg: BalanceConfig, playerTeam: TeamId, picks: (nat, nat))
    requires ValidBalance(cfg) && |w.snaps| == |ms| && i < |ms|
    ensures var s := w.snaps[i];
      var u := Updated(s, cfg);
      var r := TurnAt(ms, w, i, cfg, playerTeam, picks).snaps[i];
      var queued := HasId(w.game.actionQueue, ms[i].id);
      && (s.state == Broken ==> r == s)
      && (s.state != Broken && u.state == ReadyToExecuteAction ==>
            r == (if SelectedPart(u).None? then WithState(u, ReadyToSelectAction) else u))
      && ((s.state != Broken && u.state != ReadyToExecuteAction
           && (u.state != ReadyToSelectAction || queued || ms[i].team == playerTeam)) ==> r == u)
      && (s.state != Broken && u.state == ReadyToSelectAction && !queued && ms[i].team != playerTeam ==>
            exists t: Medarot? :: (t == null || (t in ms && t.team == OpponentOf(ms[i].team)))
                                  && r == AfterAiAction(u, AttackParts(u.parts), t, picks.0))
  {
    var s := w.snaps[i];
    if s.state != Broken {
      var now := w.snaps[i := Updated(s, cfg)];
      var c := CandidatesIn(ms, now, OpponentOf(ms[i].team));
      var t := PickFrom(c, picks.1);
      assert t == null || t in c;
    }
  }

  /** A sequence of worlds, each the one before after the next unit's turn. */
  predicate IsRound(ms: seq<Medarot>, ws: seq<World>, playerTeam: TeamId) {
    && 0 < |ws| <= |ms| + 1 && (forall k :: 0 <= k < |ws| ==> |ws[k].snaps| == |ms|)
    && forall k :: 0 <= k < |ws| - 1 ==> TurnShape(ms, ws[k], ws[k + 1], k, playerTeam)
  }

  /** The worlds after 0, 1, ..., n turns. */
  function RoundWorlds(ms: seq<Medarot>, w: World, n: nat, cfg: BalanceConfig, playerTeam: TeamId,
                       picks: seq<(nat, nat)>): (ws: seq<World>)
    requires ValidBalance(cfg) && |w.snaps| == |ms| && n <= |ms| && |picks| == |ms|
    ensures |ws| == n + 1 && forall k :: 0 <= k <= n ==> ws[k] == Turns(ms, w, k, cfg, playerTeam, picks)
  {
    seq(n + 1, k requires 0 <= k <= n => Turns(ms, w, k, cfg, playerTeam, picks))
  }

  lemma RoundWorldsIsRound(ms: seq<Medarot>, w: World, n: nat, cfg: BalanceConfig, playerTeam: TeamId,
                           picks: seq<(nat, nat)>)
    requires ValidBalance(cfg) && |w.snaps| == |ms| && n <= |ms| && |picks| == |ms|
    ensures IsRound(ms, RoundWorlds(ms, w, n, cfg, playerTeam, picks), playerTeam)
  {
    var ws := RoundWorlds(ms, w, n, cfg, playerTeam, picks);
    forall k | 0 <= k < n ensures TurnShape(ms, ws[k], ws[k + 1], k, playerTeam) {
      assert ws[k + 1] == TurnAt(ms, ws[k], k, cfg, playerTeam, picks[k]);
      TurnHasShape(ms, ws[k], k, cfg, playerTeam, picks[k]);
    }
  }

  /** Along a round, a unit not yet reached is untouched, and one already reached stays as its own turn left it. */
  lemma {:induction false} ChainSettle(ms: seq<Medarot>, ws: seq<World>, playerTeam: TeamId, j: nat)
    requires IsRound(ms, ws, playerTeam) && j < |ms|
    ensures |ws[|ws| - 1].snaps| == |ms|
    ensures j >= |ws| - 1 ==> ws[|ws| - 1].snaps[j] == ws[0].snaps[j]
    ensures j < |ws| - 1 ==> ws[|ws| - 1].snaps[j] == ws[j + 1].snaps[j] && ws[j].snaps[j] == ws[0].snaps[j]
    ensures ws[0].snaps[j].state == Broken ==> ws[|ws| - 1].snaps[j] == ws[0].snaps[j]
  {
    if |ws| > 1 {
      var init := ws[..|ws| - 1];
      assert IsRound(ms, init, playerTeam) by {
        forall k | 0 <= k < |init| - 1 ensures TurnShape(ms, init[k], init[k + 1], k, playerTeam) {
          assert init[k] == ws[k] && init[k + 1] == ws[k + 1];
        }
      }
      ChainSettle(ms, init, playerTeam, j);
      if j < |ws| - 1 {
        ChainSettle(ms, ws[..j + 1], playerTeam, j);
        assert ws[..j + 1][j] == ws[j];
      }
      assert TurnShape(ms, ws[|ws| - 2], ws[|ws| - 1], |ws| - 2, playerTeam);
    }
  }

  /** Appending a unit whose ID is not queued keeps the IDs distinct. */
  lemma AppendUnique(q: seq<Medarot>, m: Medarot)
    requires UniqueIds(q) && !HasId(q, m.id)
    ensures UniqueIds(q + [m])
  {
    forall a, b | 0 <= a < b < |q| + 1 ensures (q + [m])[a].id != (q + [m])[b].id {
      if b == |q| {
        assert (q + [m])[a] == q[a];
      }
    }
  }

  /**
   * Along a round the queue only grows at its end and stays free of duplicate
   * IDs, and the game's state changes, if at all, to showing a message.
   */
  lemma {:induction false} ChainQueue(ms: seq<Medarot>, ws: seq<World>, playerTeam: TeamId)
    requires IsRound(ms, ws, playerTeam)
    ensures var q0, q := ws[0].game.actionQueue, ws[|ws| - 1].game.actionQueue;
      && |q0| <= |q| && q[..|q0|] == q0
      && (UniqueIds(q0) ==> UniqueIds(q))
      && (ws[|ws| - 1].game.state != ws[0].game.state ==> ws[|ws| - 1].game.state == ShowingMessage)
  {
    if |ws| > 1 {
      var init := ws[..|ws| - 1];
      assert IsRound(ms, init, playerTeam) by {
        forall k | 0 <= k < |init| - 1 ensures TurnShape(ms, init[k], init[k + 1], k, playerTeam) {
          assert init[k] == ws[k] && init[k + 1] == ws[k + 1];
        }
      }
      ChainQueue(ms, init, playerTeam);
      var a, b := ws[|ws| - 2], ws[|ws| - 1];
      assert TurnShape(ms, a, b, |ws| - 2, playerTeam);
      if b.game.actionQueue != a.game.actionQueue && UniqueIds(ws[0].game.actionQueue) {
        AppendUnique(a.game.actionQueue, ms[|ws| - 2]);
      }
    }
  }

  /** `x` is one of the first `n` units, a player unit that `r` leaves waiting for a choice. */
  predicate WaitingPlayer(ms: seq<Medarot>, r: World, playerTeam: TeamId, x: Medarot, n: nat) {
    exists j :: 0 <= j < n && j < |ms| && j < |r.snaps| && ms[j] == x && x.team == playerTeam
                && r.snaps[j].state == ReadyToSelectAction
  }

  /** Every unit that joins the queue along a round is a player unit left waiting for a choice. */
  lemma {:induction false} ChainJoiners(ms: seq<Medarot>, ws: seq<World>, playerTeam: TeamId)
    requires IsRound(ms, ws, playerTeam)
    ensures var q0, r := ws[0].game.actionQueue, ws[|ws| - 1];
      forall k :: |q0| <= k < |r.game.actionQueue| ==> WaitingPlayer(ms, r, playerTeam, r.game.actionQueue[k], |ws| - 1)
  {
    if |ws| > 1 {
      var init := ws[..|ws| - 1];
      assert IsRound(ms, init, playerTeam) by {
        forall k | 0 <= k < |init| - 1 ensures TurnShape(ms, init[k], init[k + 1], k, playerTeam) {
          assert init[k] == ws[k] && init[k + 1] == ws[k + 1];
        }
      }
      ChainJoiners(ms, init, playerTeam);
      ChainQueue(ms, init, playerTeam);
      var n := |ws| - 1;
      var p, r := ws[n - 1], ws[n];
      assert TurnShape(ms, p, r, n - 1, playerTeam);
      var q0, pq, q := ws[0].game.actionQueue, p.game.actionQueue, r.game.actionQueue;
      forall k | |q0| <= k < |q| ensures WaitingPlayer(ms, r, playerTeam, q[k], n) {
        if k < |pq| {
          assert WaitingPlayer(ms, p, playerTeam, pq[k], n - 1);
          var j :| 0 <= j < n - 1 && ms[j] == pq[k] && pq[k].team == playerTeam
                   && p.snaps[j].state == ReadyToSelectAction;
          assert q[k] == pq[k];
          assert r.snaps[j] == p.snaps[j];
        } else {
          assert q[k] == ms[n - 1];
        }
      }
    }
  }

  /**
   * After a whole round each unit is what its own turn made of it (as
   * `TurnUnitEffect` states), a Broken unit included.
   */
  lemma RoundUnitEffect(ms: seq<Medarot>, w: World, cfg: BalanceConfig, playerTeam: TeamId,
                        picks: seq<(nat, nat)>, j: nat)
    requires ValidBalance(cfg) && |w.snaps| == |ms| == |picks| && j < |ms|
    ensures var before := Turns(ms, w, j, cfg, playerTeam, picks);
      && before.snaps[j] == w.snaps[j]
      && Turns(ms, w, |ms|, cfg, playerTeam, picks).snaps[j] == TurnAt(ms, before, j, cfg, playerTeam, picks[j]).snaps[j]
  {
    var ws := RoundWorlds(ms, w, |ms|, cfg, playerTeam, picks);
    RoundWorldsIsRound(ms, w, |ms|, cfg, playerTeam, picks);
    ChainSettle(ms, ws, playerTeam, j);
  }

  /**
   * Over a whole round broken units never change; the queue only grows at
   * its end, with player units left waiting for a choice, and stays free of
   * duplicate IDs; the game's state changes, if at all, to showing a message.
   */
  lemma RoundQueue(ms: seq<Medarot>, w: World, cfg: BalanceConfig, playerTeam: TeamId, picks: seq<(nat, nat)>)
    requires ValidBalance(cfg) && |w.snaps| == |ms| == |picks|
    ensures var r := Turns(ms, w, |ms|, cfg, playerTeam, picks);
      forall j :: 0 <= j < |ms| && w.snaps[j].state == Broken ==> r.snaps[j] == w.snaps[j]
    ensures var q0, q := w.game.actionQueue, Turns(ms, w, |ms|, cfg, playerTeam, picks).game.actionQueue;
      |q0| <= |q| && q[..|q0|] == q0
    ensures var r := Turns(ms, w, |ms|, cfg, playerTeam, picks);
      forall k :: |w.game.actionQueue| <= k < |r.game.actionQueue| ==>
        WaitingPlayer(ms, r, playerTeam, r.game.actionQueue[k], |ms|)
    ensures var q0, q := w.game.actionQueue, Turns(ms, w, |ms|, cfg, playerTeam, picks).game.actionQueue;
      UniqueIds(q0) ==> UniqueIds(q)
    ensures var r := Turns(ms, w, |ms|, cfg, playerTeam, picks);
      r.game.state != w.game.state ==> r.game.state == ShowingMessage
  {
    var ws := RoundWorlds(ms, w, |ms|, cfg, playerTeam, picks);
    RoundWorldsIsRound(ms, w, |ms|, cfg, playerTeam, picks);
    assert ws[0] == w && ws[|ms|] == Turns(ms, w, |ms|, cfg, playerTeam, picks);
    ChainQueue(ms, ws, playerTeam);
    ChainJoiners(ms, ws, playerTeam);
    forall j | 0 <= j < |ms| && w.snaps[j].state == Broken
      ensures Turns(ms, w, |ms|, cfg, playerTeam, picks).snaps[j] == w.snaps[j]
    {
      ChainSettle(ms, ws, playerTeam, j);
    }
  }

  /** checkGameEnd on the game's state, given which leaders have fallen: Team1's fall is checked first. */
  function EndChecked(g: GameSnap, leader1Down: bool, leader2Down: bool): GameSnap {
    if g.state == GameOver then g
    else if leader1Down then g.(winner := TEAM2, state := GameOver, message := Victory(TEAM2))
    else if leader2Down then g.(winner := TEAM1, state := GameOver, message := Victory(TEAM1))
    else g
  }

  class Game {
    const medarots: seq<Medarot>
    const balance: BalanceConfig
    const playerTeam: TeamId
    const team1Leader: Medarot?
    const team2Leader: Medarot?
    var state: GameState
    var actionQueue: seq<Medarot>
    var message: GameMessage
    var callback: Callback
    var winner: TeamId
    var playerActionTarget: Medarot?

    function GSnap(): GameSnap
      reads this
    {
      GameSnap(state, actionQueue, message, callback, winner, playerActionTarget)
    }

    /**
     * NewGame, given the units and their drawing order (the result of the
     * sort): the leaders are cached, and each side's units are numbered
     * 0, 1, 2, ... in drawing order.
     */
    constructor (medarots: seq<Medarot>, balance: BalanceConfig, sorted: seq<Medarot>)
      requires |medarots| > 0
      requires Distinct(medarots)
      requires multiset(sorted) == multiset(medarots) && SortedForDraw(sorted)
      modifies sorted
      ensures this.medarots == medarots && this.balance == balance && playerTeam == TEAM1
      ensures GSnap() == GameSnap(Playing, [], NoMessage, NoCallback, 0, null)
      ensures team1Leader == LastLeader(medarots, true) && team2Leader == LastLeader(medarots, false)
      ensures forall p {:trigger DrawIndexAt(sorted, p)} :: 0 <= p < |sorted| ==> sorted[p].drawIndex == DrawIndexAt(sorted, p)
      ensures forall m :: m in medarots ==> m.Snap() == old(m.Snap()).(drawIndex := m.drawIndex)
    {
      this.medarots := medarots;
      this.balance := balance;
      playerTeam := TEAM1;
      var leader1: Medarot? := null;
      var leader2: Medarot? := null;
      var i := 0;
      while i < |medarots|
        invariant 0 <= i <= |medarots|
        invariant leader1 == LastLeader(medarots[..i], true) && leader2 == LastLeader(medarots[..i], false)
      {
        var m := medarots[i];
        if m.isLeader {
          if m.team == TEAM1 {
            leader1 := m;
          } else {
            leader2 := m;
          }
        }
        assert medarots[..i + 1][..i] == medarots[..i];
        i := i + 1;
      }
      assert medarots[..i] == medarots;
      team1Leader := leader1;
      team2Leader := leader2;
      state := Playing;
      actionQueue := [];
      message := NoMessage;
      callback := NoCallback;
      winner := 0;
      playerActionTarget := null;
      new;
      SortedDistinct(sorted, medarots);
      AssignDrawIndices(sorted);
      forall m | m in medarots ensures m.Snap() == old(m.Snap()).(drawIndex := m.drawIndex) {
        assert m in multiset(sorted);
        var p :| 0 <= p < |sorted| && sorted[p] == m;
      }
    }

    /** getTargetCandidates: the standing units of the opposing team, in list order. */
    method GetTargetCandidates(acting: Medarot) returns (candidates: seq<Medarot>)
      ensures candidates == Candidates(medarots, OpponentOf(acting.team))
    {
      candidates := [];
      var opponentTeamId := TEAM2;
      if acting.team == TEAM2 {
        opponentTeamId := TEAM1;
      }
      var i := 0;
      while i < |medarots|
        invariant 0 <= i <= |medarots|
        invariant candidates == Candidates(medarots[..i], opponentTeamId)
      {
        var m := medarots[i];
        if m.team == opponentTeamId && m.state != Broken {
          candidates := candidates + [m];
        }
        assert medarots[..i + 1][..i] == medarots[..i];
        i := i + 1;
      }
      assert medarots[..i] == medarots;
    }

    method SelectAutomaticTarget(acting: Medarot, pick: nat) returns (r: Medarot?)
      ensures r == SelectTarget(medarots, acting, pick)
    {
      var candidates := GetTargetCandidates(acting);
      if |candidates| == 0 {
        return null;
      }
      return candidates[pick % |candidates|];
    }

    method HandleAIAction(m: Medarot, partPick: nat, targetPick: nat)
      modifies m
      ensures m.Snap() == AfterAiAction(old(m.Snap()), old(m.GetAvailableAttackParts()),
                                        old(SelectTarget(medarots, m, targetPick)), partPick)
    {
      if m.state != ReadyToSelectAction {
        return;
      }
      var availableParts := m.GetAvailableAttackParts();
      if |availableParts| == 0 {
        return;
      }
      var selectedPart := availableParts[partPick % |availableParts|];
      var target := SelectAutomaticTarget(m, targetPick);
      m.targetedMedarot := target;
      if m.targetedMedarot == null && selectedPart.category == Shoot {
        return;
      }
      var slotKey := AttackSlotOfType(selectedPart.partType);
      var _ := m.SelectAction(slotKey);
    }

    /** queueUpActionableMedarot: a unit waiting for a choice is queued once if it is the player's, else the AI chooses. */
    method QueueUpActionableMedarot(m: Medarot, partPick: nat, targetPick: nat)
      modifies this, m
      ensures old(m.state) != ReadyToSelectAction || HasId(old(actionQueue), m.id) ==>
        GSnap() == old(GSnap()) && m.Snap() == old(m.Snap())
      ensures old(m.state) == ReadyToSelectAction && !HasId(old(actionQueue), m.id) && m.team == playerTeam ==>
        GSnap() == old(GSnap()).(actionQueue := old(actionQueue) + [m]) && m.Snap() == old(m.Snap())
      ensures old(m.state) == ReadyToSelectAction && !HasId(old(actionQueue), m.id) && m.team != playerTeam ==>
        GSnap() == old(GSnap())
        && m.Snap() == AfterAiAction(old(m.Snap()), old(m.GetAvailableAttackParts()),
                                     old(SelectTarget(medarots, m, targetPick)), partPick)
    {
      if m.state != ReadyToSelectAction {
        return;
      }
      var i := 0;
      while i < |actionQueue|
        invariant 0 <= i <= |actionQueue|
        invariant forall k :: 0 <= k < i ==> actionQueue[k].id != m.id
      {
        if actionQueue[i].id == m.id {
          return;
        }
        i := i + 1;
      }
      if m.team == playerTeam {
        actionQueue := actionQueue + [m];
      } else {
        HandleAIAction(m, partPick, targetPick);
      }
    }

    /** showMessage: show `msg` and run `cb` when it is dismissed. */
    method ShowMessage(msg: GameMessage, cb: Callback)
      modifies this
      ensures GSnap() == old(GSnap()).(message := msg, callback := cb, state := ShowingMessage)
    {
      message := msg;
      callback := cb;
      state := ShowingMessage;
    }

    /** setupActionExecution: a unit whose part is gone goes back to choosing; otherwise its action is announced, to execute on dismissal. */
    method SetupActionExecution(m: Medarot)
      modifies this, m
      ensures old(SelectedPart(m.Snap())).None? ==>
        m.Snap() == WithState(old(m.Snap()), ReadyToSelectAction) && GSnap() == old(GSnap())
      ensures old(SelectedPart(m.Snap())).Some? ==>
        var part := old(SelectedPart(m.Snap())).value;
        && m.Snap() == old(m.Snap())
        && GSnap() == old(GSnap()).(state := ShowingMessage, callback := ExecuteFor(m),
             message := Announce(m.name, part.partName, part.category,
                                 if part.category == Shoot && m.targetedMedarot != null
                                 then Some(m.targetedMedarot.name) else None))
    {
      var part: Option<Part> := None;
      if m.selectedPartKey.Some? {
        part := GetPart(m.parts, m.selectedPartKey.value);
      }
      if part.None? {
        m.ChangeState(ReadyToSelectAction);
        return;
      }
      var targetInfo: Option<string> := None;
      if part.value.category == Shoot && m.targetedMedarot != null {
        targetInfo := Some(m.targetedMedarot.name);
      }
      ShowMessage(Announce(m.name, part.value.partName, part.value.category, targetInfo), ExecuteFor(m));
    }

    /** checkAndHandleMedarotState: execution for a ready unit, the queue for the others. */
    method CheckAndHandleMedarotState(m: Medarot, partPick: nat, targetPick: nat)
      modifies this, m
      ensures old(m.state) == ReadyToExecuteAction ==> old(GSnap()).actionQueue == actionQueue
      ensures old(m.state) != ReadyToExecuteAction ==>
        GSnap() == old(GSnap()).(actionQueue := actionQueue)
        && (actionQueue == old(actionQueue) || actionQueue == old(actionQueue) + [m])
      ensures actionQueue != old(actionQueue) ==>
        old(m.state) == ReadyToSelectAction && m.state == ReadyToSelectAction && m.team == playerTeam
        && !HasId(old(actionQueue), m.id)
      ensures state != old(state) ==> state == ShowingMessage
      ensures (m.Snap(), GSnap())
           == Handled(m, old(m.Snap()), old(GSnap()), playerTeam, old(SelectTarget(medarots, m, targetPick)), partPick)
    {
      if m.state == ReadyToExecuteAction {
        SetupActionExecution(m);
        return;
      }
      QueueUpActionableMedarot(m, partPick, targetPick);
    }

    /** checkGameEnd: a fallen Team1 leader loses first, then a fallen Team2 leader. */
    method CheckGameEnd()
      modifies this
      ensures old(state) == GameOver ==> GSnap() == old(GSnap())
      ensures old(state) != GameOver ==>
        if team1Leader != null && team1Leader.state == Broken then
          GSnap() == old(GSnap()).(winner := TEAM2, state := GameOver, message := Victory(TEAM2))
        else if team2Leader != null && team2Leader.state == Broken then
          GSnap() == old(GSnap()).(winner := TEAM1, state := GameOver, message := Victory(TEAM1))
        else GSnap() == old(GSnap())
    {
      if state == GameOver {
        return;
      }
      if team1Leader != null && team1Leader.state == Broken {
        winner := TEAM2;
        state := GameOver;
        message := Victory(TEAM2);
      } else if team2Leader != null && team2Leader.state == Broken {
        winner := TEAM1;
        state := GameOver;
        message := Victory(TEAM1);
      }
    }

    /** tryEnterActionSelect: while playing, a queue headed by a player unit opens the choice, keeping a standing target. */
    method TryEnterActionSelect(pick: nat)
      modifies this
      ensures !(old(state) == Playing && |old(actionQueue)| > 0 && old(actionQueue)[0].team == playerTeam) ==>
        GSnap() == old(GSnap())
      ensures old(state) == Playing && |old(actionQueue)| > 0 && old(actionQueue)[0].team == playerTeam ==>
        GSnap() == old(GSnap()).(state := PlayerActionSelect,
          playerActionTarget := if old(playerActionTarget) == null || old(playerActionTarget.state) == Broken
                                then SelectTarget(medarots, old(actionQueue)[0], pick)
                                else old(playerActionTarget))
    {
      if state == Playing && |actionQueue| > 0 && actionQueue[0].team == playerTeam {
        var actingMedarot := actionQueue[0];
        if playerActionTarget == null || playerActionTarget.state == Broken {
          playerActionTarget := SelectAutomaticTarget(actingMedarot, pick);
        }
        state := PlayerActionSelect;
      }
    }

    /** updatePlayerActionSelect: with nobody of the player's at the head of the queue, play resumes without a target. */
    method UpdatePlayerActionSelect()
      modifies this
      ensures |old(actionQueue)| == 0 || old(actionQueue)[0].team != playerTeam ==>
        GSnap() == old(GSnap()).(state := Playing, playerActionTarget := null)
      ensures |old(actionQueue)| > 0 && old(actionQueue)[0].team == playerTeam ==> GSnap() == old(GSnap())
    {
      if |actionQueue| == 0 || actionQueue[0].team != playerTeam {
        state := Playing;
        playerActionTarget := null;
      }
    }

    /** The loop body of updatePlaying for the unit at position `i`: its turn, as `TurnAt` describes. */
    method PlayUnit(i: nat, picks: (nat, nat))
      requires ValidBalance(balance) && Distinct(medarots) && i < |medarots|
      modifies this, medarots[i]
      ensures World(Snaps(medarots), GSnap())
           == TurnAt(medarots, old(World(Snaps(medarots), GSnap())), i, balance, playerTeam, picks)
    {
      if medarots[i].state != Broken {
        UpdateUnit(i);
        HandleUnit(i, picks);
      }
    }

    /** The update of the unit at position `i`, which no other unit sees. */
    method UpdateUnit(i: nat)
      requires ValidBalance(balance) && Distinct(medarots) && i < |medarots|
      modifies medarots[i]
      ensures Snaps(medarots) == old(Snaps(medarots))[i := Updated(old(medarots[i].Snap()), balance)]
    {
      var m := medarots[i];
      m.Update(balance);
      forall j | 0 <= j < |medarots| && j != i ensures Snaps(medarots)[j] == old(Snaps(medarots))[j] {
        assert medarots[j] != m;
      }
    }

    /** checkAndHandleMedarotState for the unit at position `i`, as `HandledAt` describes. */
    method HandleUnit(i: nat, picks: (nat, nat))
      requires Distinct(medarots) && i < |medarots|
      modifies this, medarots[i]
      ensures World(Snaps(medarots), GSnap())
           == HandledAt(medarots, old(World(Snaps(medarots), GSnap())), i, playerTeam, picks)
    {
      var m := medarots[i];
      ghost var before := Snaps(medarots);
      CandidatesView(medarots, OpponentOf(m.team));
      CheckAndHandleMedarotState(m, picks.0, picks.1);
      forall j | 0 <= j < |medarots| && j != i ensures Snaps(medarots)[j] == before[j] {
        assert medarots[j] != m;
      }
      assert Snaps(medarots) == before[i := m.Snap()];
    }

    /** The loop of updatePlaying: every unit takes its turn, in list order. */
    method PlayRound(picks: seq<(nat, nat)>)
      requires ValidBalance(balance) && Distinct(medarots) && |picks| == |medarots|
      modifies this, medarots
      ensures World(Snaps(medarots), GSnap())
           == Turns(medarots, old(World(Snaps(medarots), GSnap())), |medarots|, balance, playerTeam, picks)
    {
      ghost var w0 := World(Snaps(medarots), GSnap());
      var i := 0;
      while i < |medarots|
        invariant 0 <= i <= |medarots|
        invariant World(Snaps(medarots), GSnap()) == Turns(medarots, w0, i, balance, playerTeam, picks)
      {
        PlayNext(i, picks, w0);
        i := i + 1;
      }
    }

    /** The turn of the unit at position `i`, after those before it. */
    method PlayNext(i: nat, picks: seq<(nat, nat)>, ghost w0: World)
      requires ValidBalance(balance) && Distinct(medarots) && i < |medarots| == |picks| == |w0.snaps|
      requires World(Snaps(medarots), GSnap()) == Turns(medarots, w0, i, balance, playerTeam, picks)
      modifies this, medarots
      ensures World(Snaps(medarots), GSnap()) == Turns(medarots, w0, i + 1, balance, playerTeam, picks)
    {
      ghost var before := World(Snaps(medarots), GSnap());
      PlayUnit(i, picks[i]);
      TurnsNext(medarots, w0, i, balance, playerTeam, picks, before, World(Snaps(medarots), GSnap()));
    }

    /**
     * updatePlaying: every unit takes its turn, in list order, as `Turns`
     * describes; then the end of the game is checked, then whether the player
     * must choose. `picks[i]` stands for the AI's random choices for unit i.
     */
    method UpdatePlaying(picks: seq<(nat, nat)>, pick: nat)
      requires ValidBalance(balance) && Distinct(medarots) && |picks| == |medarots|
      modifies this, medarots
      ensures var r := Turns(medarots, old(World(Snaps(medarots), GSnap())), |medarots|, balance, playerTeam, picks);
        var g := EndChecked(r.game, team1Leader != null && team1Leader.state == Broken,
                            team2Leader != null && team2Leader.state == Broken);
        && Snaps(medarots) == r.snaps
        && (g.state == Playing && |g.actionQueue| > 0 && g.actionQueue[0].team == playerTeam ==>
              GSnap() == g.(state := PlayerActionSelect,
                            playerActionTarget := if g.playerActionTarget == null || g.playerActionTarget.state == Broken
                                                  then SelectTarget(medarots, g.actionQueue[0], pick)
                                                  else g.playerActionTarget))
        && (!(g.state == Playing && |g.actionQueue| > 0 && g.actionQueue[0].team == playerTeam) ==> GSnap() == g)
      ensures forall i :: 0 <= i < |medarots| && old(medarots[i].state) == Broken ==>
        medarots[i].Snap() == old(medarots[i].Snap())
      ensures |old(actionQueue)| <= |actionQueue| && actionQueue[..|old(actionQueue)|] == old(actionQueue)
      ensures forall k :: |old(actionQueue)| <= k < |actionQueue| ==>
        actionQueue[k] in medarots && actionQueue[k].team == playerTeam && actionQueue[k].state == ReadyToSelectAction
      ensures UniqueIds(old(actionQueue)) ==> UniqueIds(actionQueue)
      ensures old(state) != GameOver && team1Leader != null && team1Leader.state == Broken ==>
        state == GameOver && winner == TEAM2
      ensures old(state) != GameOver && !(team1Leader != null && team1Leader.state == Broken)
              && team2Leader != null && team2Leader.state == Broken ==>
        state == GameOver && winner == TEAM1
    {
      ghost var w0 := World(Snaps(medarots), GSnap());
      PlayRound(picks);
      ghost var r := World(Snaps(medarots), GSnap());
      RoundQueue(medarots, w0, balance, playerTeam, picks);
      CloseRound(pick);
    }

    /** The tail of updatePlaying: checkGameEnd, then tryEnterActionSelect. */
    method CloseRound(pick: nat)
      modifies this
      ensures var g := EndChecked(old(GSnap()), team1Leader != null && team1Leader.state == Broken,
                                  team2Leader != null && team2Leader.state == Broken);
        && (g.state == Playing && |g.actionQueue| > 0 && g.actionQueue[0].team == playerTeam ==>
              GSnap() == g.(state := PlayerActionSelect,
                            playerActionTarget := if g.playerActionTarget == null || g.playerActionTarget.state == Broken
                                                  then SelectTarget(medarots, g.actionQueue[0], pick)
                                                  else g.playerActionTarget))
        && (!(g.state == Playing && |g.actionQueue| > 0 && g.actionQueue[0].team == playerTeam) ==> GSnap() == g)
    {
      CheckGameEnd();
      TryEnterActionSelect(pick);
    }
  }

  /** The numbering loop of NewGame: each side's units get 0, 1, 2, ... in the given order. */
  method AssignDrawIndices(sorted: seq<Medarot>)
    requires Distinct(sorted)
    modifies sorted
    ensures forall p {:trigger DrawIndexAt(sorted, p)} :: 0 <= p < |sorted| ==> sorted[p].drawIndex == DrawIndexAt(sorted, p)
    ensures forall p :: 0 <= p < |sorted| ==>
      sorted[p].Snap() == old(sorted[p].Snap()).(drawIndex := sorted[p].drawIndex)
  {
    var team1Count, team2Count := 0, 0;
    var k := 0;
    while k < |sorted|
      invariant 0 <= k <= |sorted|
      invariant team1Count == CountSide(sorted, k, true) && team2Count == CountSide(sorted, k, false)
      invariant forall p {:trigger DrawIndexAt(sorted, p)} :: 0 <= p < k ==> sorted[p].drawIndex == DrawIndexAt(sorted, p)
      invariant forall p :: 0 <= p < |sorted| ==>
        sorted[p].Snap() == old(sorted[p].Snap()).(drawIndex := sorted[p].drawIndex)
    {
      var m := sorted[k];
      assert forall p :: 0 <= p < |sorted| && p != k ==> sorted[p] != m;
      if m.team == TEAM1 {
        m.drawIndex := team1Count;
        team1Count := team1Count + 1;
      } else {
        m.drawIndex := team2Count;
        team2Count := team2Count + 1;
      }
      k := k + 1;
    }
  }

  /** A sorted copy of distinct units holds distinct units. */
  lemma SortedDistinct(sorted: seq<Medarot>, ms: seq<Medarot>)
    requires multiset(sorted) == multiset(ms) && Distinct(ms)
    ensures Distinct(sorted)
  {
    forall i, j | 0 <= i < j < |sorted| ensures sorted[i] != sorted[j] {
      if sorted[i] == sorted[j] {
        var x := sorted[i];
        assert multiset(sorted)[x] >= 2 by {
          assert sorted == sorted[..i] + [x] + sorted[i + 1..j] + [x] + sorted[j + 1..];
        }
        MultiplicityOfDistinct(ms, x);
      }
    }
  }

  /** In a list of distinct units each occurs at most once. */
  lemma {:induction false} MultiplicityOfDistinct(ms: seq<Medarot>, x: Medarot)
    requires Distinct(ms)
    ensures multiset(ms)[x] <= 1
  {
    if ms != [] {
      var init := ms[..|ms| - 1];
      assert ms == init + [ms[|ms| - 1]];
      MultiplicityOfDistinct(init, x);
      if ms[|ms| - 1] == x {
        assert x !in init;
      }
    }
  }
}
