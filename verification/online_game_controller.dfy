/** The decision logic of the online message handlers
    (controller/online/OnlineGameController.java): what each request does to
    the registry and which messages it sends. Sending is modelled as the list
    of messages a handler returns. */
module GameController {
  import opened Wrappers
  import opened MancalaGame
  import opened OnlineGame
  import GameService
  import GameManager

  /** The state clients receive. */
  datatype Snapshot = Snapshot(
    gameId: GameId,
    board: seq<int>,
    currentPlayer: int,
    gameOver: bool,
    winner: int,
    gameStatus: string,
    player1WantsRematch: bool,
    player2WantsRematch: bool)

  /** Projects a session onto the wire format: a 14-entry non-negative
      board, a player of 0 or 1, a winner of -1, 0 or 1, and the status by
      its enum name, from which the status can be read back. */
  function SnapshotOf(s: Session): (dto: Snapshot)
    ensures dto.gameId == s.gameId && dto.board == s.game.board
    ensures |dto.board| == Cells && forall i :: 0 <= i < |dto.board| ==> dto.board[i] >= 0
    ensures 0 <= dto.currentPlayer <= 1 && dto.currentPlayer == s.game.currentPlayer
    ensures -1 <= dto.winner <= 1 && dto.winner == s.game.winner && dto.gameOver == s.game.gameOver
    ensures ParseStatus(dto.gameStatus) == Some(s.status)
    ensures dto.player1WantsRematch == s.player1WantsRematch && dto.player2WantsRematch == s.player2WantsRematch
  {
    StatusNameRoundTrip(s.status);
    Snapshot(s.gameId, s.game.board, s.game.currentPlayer, s.game.gameOver, s.game.winner,
             StatusName(s.status), s.player1WantsRematch, s.player2WantsRematch)
  }

  datatype ErrorReason = JoinRejected | MoveRejected(e: GameService.MoveError)

  datatype Event =
    | Broadcast(gameId: GameId, state: Snapshot)
      // to every subscriber of the game's topic
    | GameDetails(to: SessionId, state: Snapshot, assignedRole: int)
      // reply to the requester only
    | Error(to: SessionId, reason: ErrorReason)
      // to the requester's error queue only

  datatype Outcome = Outcome(registry: GameManager.Registry, events: seq<Event>)

  /** The registry invariant plus: every live game has its host seated. The
      handlers keep this; a bare CreateGame does not, which is why a join
      can always report role 1. */
  predicate Valid(r: GameManager.Registry) {
    && GameManager.Valid(r)
    && forall gid :: gid in r.activeGames ==> r.activeGames[gid].player1.Some?
  }

  /** Creates a game under a fresh id, seats the caller and tells the caller
      it holds role 0. */
  function HostGame(r: GameManager.Registry, gid: GameId, sid: SessionId, now: int): (o: Outcome)
    ensures gid in o.registry.activeGames && o.registry.activeGames[gid].player1 == Some(sid)
    ensures o.registry.activeGames[gid].status == WaitingForPlayer
    ensures o.registry.activeGames == r.activeGames[gid := NewSession(gid, now).(player1 := Some(sid))]
    ensures o.registry.sessionToGame == r.sessionToGame[sid := gid]
    ensures GameManager.GetPlayerRoleInGame(o.registry, gid, sid) == 0
    ensures o.events == [GameDetails(sid, SnapshotOf(o.registry.activeGames[gid]), 0)]
    ensures Valid(r) && GameManager.IsFreshId(r, gid) ==> Valid(o.registry)
  {
    var (_, created) := GameManager.CreateGame(r, gid, now);
    var (_, joined) := GameManager.AddPlayerToGame(created, gid, sid);
    Outcome(joined, [GameDetails(sid, SnapshotOf(joined.activeGames[gid]), 0)])
  }

  /** Seats the caller in an existing game. A refusal is reported to the
      caller alone and changes nothing; a success is broadcast and the caller
      is told it holds role 1. */
  function JoinGame(r: GameManager.Registry, gid: GameId, sid: SessionId): (o: Outcome)
    ensures GameManager.AddPlayerToGame(r, gid, sid).0.None? ==>
      o == Outcome(r, [Error(sid, JoinRejected)])
    ensures GameManager.AddPlayerToGame(r, gid, sid).0.Some? ==>
      && gid in o.registry.activeGames
      && IsParticipant(o.registry.activeGames[gid], sid)
      && o.registry.activeGames == r.activeGames[gid := AddPlayer(r.activeGames[gid], sid).1]
      && o.registry.sessionToGame == r.sessionToGame[sid := gid]
      && var state := SnapshotOf(o.registry.activeGames[gid]);
         o.events == [Broadcast(gid, state), GameDetails(sid, state, 1)]
    ensures Valid(r) ==> Valid(o.registry)
  {
    var (joined, after) := GameManager.AddPlayerToGame(r, gid, sid);
    match joined
    case None => Outcome(r, [Error(sid, JoinRejected)])
    case Some(s) =>
      var state := SnapshotOf(s);
      Outcome(after, [Broadcast(gid, state), GameDetails(sid, state, 1)])
  }

  /** Records the caller's rematch vote (a non-participant's vote is
      ignored) and restarts the match once both have voted. Any request for a
      known game is answered with a broadcast, reset or not. */
  function RequestRematch(r: GameManager.Registry, gid: GameId, sid: SessionId): (o: Outcome)
    ensures gid !in r.activeGames ==> o == Outcome(r, [])
    ensures gid in r.activeGames ==>
      var before := r.activeGames[gid];
      var role := GameManager.GetPlayerRoleInGame(r, gid, sid);
      var voted := SetPlayerWantsRematch(before, role);
      && gid in o.registry.activeGames
      && var after := o.registry.activeGames[gid];
      && o.registry == r.(activeGames := r.activeGames[gid := after])
      && o.events == [Broadcast(gid, SnapshotOf(after))]
      && (BothPlayersWantRematch(voted) ==>
            after.game == NewGame() && after.status == InProgress
            && !after.player1WantsRematch && !after.player2WantsRematch
            && after.gameId == before.gameId && after.player1 == before.player1
            && after.player2 == before.player2 && after.creationTime == before.creationTime)
      && (!BothPlayersWantRematch(voted) ==> after == voted)
      && (role == -1 && !BothPlayersWantRematch(before) ==> after == before)
    ensures Valid(r) ==> Valid(o.registry)
  {
    if gid !in r.activeGames then Outcome(r, [])
    else
      var role := GameManager.GetPlayerRoleInGame(r, gid, sid);
      var voted := SetPlayerWantsRematch(r.activeGames[gid], role);
      var after := if BothPlayersWantRematch(voted) then ResetForRematch(voted) else voted;
      Outcome(r.(activeGames := r.activeGames[gid := after]), [Broadcast(gid, SnapshotOf(after))])
  }

  /** Plays the caller's move under the caller's role. A played move is
      broadcast; an invalid pit is reported to the caller alone; a refused
      move (wrong turn, not in progress, game over) is silent. Only a played
      move changes the registry. */
  function MakeMove(r: GameManager.Registry, gid: GameId, sid: SessionId, pit: int): (o: Outcome)
    ensures gid !in r.activeGames ==> o == Outcome(r, [])
    ensures o.events == [] || |o.events| == 1
    ensures o.events == [] ==> o.registry == r
    ensures |o.events| == 1 && o.events[0].Error? ==> o.registry == r && o.events[0].to == sid
    ensures gid in r.activeGames ==>
      var m := OnlineGame.MakeMove(r.activeGames[gid], pit, GameManager.GetPlayerRoleInGame(r, gid, sid));
      && (m.Failure? ==> o == Outcome(r, [Error(sid, MoveRejected(m.error))]))
      && (m.Success? && !m.value.0 ==> o == Outcome(r, []))
      && (m.Success? && m.value.0 ==> |o.events| == 1 && o.events[0].Broadcast?)
    ensures |o.events| == 1 && !o.events[0].Error? ==>
      && gid in r.activeGames && gid in o.registry.activeGames
      && var after := o.registry.activeGames[gid];
         var role := GameManager.GetPlayerRoleInGame(r, gid, sid);
         && o.registry == r.(activeGames := r.activeGames[gid := after])
         && OnlineGame.MakeMove(r.activeGames[gid], pit, role) == Success((true, after))
         && o.events == [Broadcast(gid, SnapshotOf(after))]
  {
    if gid !in r.activeGames then Outcome(r, [])
    else
      var role := GameManager.GetPlayerRoleInGame(r, gid, sid);
      match OnlineGame.MakeMove(r.activeGames[gid], pit, role)
      case Failure(e) => Outcome(r, [Error(sid, MoveRejected(e))])
      case Success((moved, after)) =>
        if moved then Outcome(r.(activeGames := r.activeGames[gid := after]), [Broadcast(gid, SnapshotOf(after))])
        else Outcome(r, [])
  }

  /** Replacing a live session by a valid one with the same id and the same
      seats keeps the handlers' invariant. */
  lemma ReplaceSessionPreservesValid(r: GameManager.Registry, gid: GameId, after: Session)
    requires Valid(r) && gid in r.activeGames
    requires after.gameId == gid && OnlineGame.Valid(after)
    requires after.player1 == r.activeGames[gid].player1 && after.player2 == r.activeGames[gid].player2
    ensures Valid(r.(activeGames := r.activeGames[gid := after]))
  {
    var r2 := r.(activeGames := r.activeGames[gid := after]);
    forall sid | sid in r2.sessionToGame && r2.sessionToGame[sid] in r2.activeGames
      ensures IsParticipant(r2.activeGames[r2.sessionToGame[sid]], sid)
    {
      assert IsParticipant(r.activeGames[r.sessionToGame[sid]], sid);
    }
  }

  /** A move, played or not, keeps the handlers' invariant. */
  lemma MakeMovePreservesValid(r: GameManager.Registry, gid: GameId, sid: SessionId, pit: int)
    requires Valid(r)
    ensures Valid(MakeMove(r, gid, sid, pit).registry)
  {
    if gid in r.activeGames {
      var before := r.activeGames[gid];
      var role := GameManager.GetPlayerRoleInGame(r, gid, sid);
      var m := OnlineGame.MakeMove(before, pit, role);
      if m.Success? && m.value.0 {
        var after := m.value.1;
        assert after.gameId == gid && OnlineGame.Valid(after);
        ReplaceSessionPreservesValid(r, gid, after);
      }
    }
  }

  /** A dropped connection leaves its game; a cancellation is broadcast on
      the game's topic with the cancelled state. */
  function HandleDisconnect(r: GameManager.Registry, sid: SessionId): (o: Outcome)
    ensures o.registry == GameManager.RemovePlayer(r, sid).1
    ensures |o.events| <= 1
    ensures |o.events| == 1 <==> GameManager.RemovePlayer(r, sid).0.Some?
    ensures |o.events| == 1 ==>
      && sid in r.sessionToGame && r.sessionToGame[sid] in r.activeGames
      && o.events[0] == Broadcast(r.sessionToGame[sid],
           SnapshotOf(OnlineGame.RemovePlayer(r.activeGames[r.sessionToGame[sid]], sid).1))
    ensures |o.events| == 1 ==>
      o.events[0].Broadcast? && o.events[0].gameId !in o.registry.activeGames
      && ParseStatus(o.events[0].state.gameStatus) == Some(Cancelled)
    ensures Valid(r) ==> Valid(o.registry)
  {
    var (cancelled, after) := GameManager.RemovePlayer(r, sid);
    match cancelled
    case None => Outcome(after, [])
    case Some(c) => Outcome(after, [Broadcast(c.gameId, SnapshotOf(c.session))])
  }

  /** The stale sweep keeps the handlers' invariant too. */
  lemma SweepPreservesValid(r: GameManager.Registry, now: int)
    requires Valid(r)
    ensures Valid(GameManager.CleanupStaleGames(r, now))
  {
  }

  /** The role 1 a successful join reports is the role the joiner holds. */
  lemma JoinReportsActualRole(r: GameManager.Registry, gid: GameId, sid: SessionId)
    requires Valid(r)
    requires GameManager.AddPlayerToGame(r, gid, sid).0.Some?
    ensures GameManager.GetPlayerRoleInGame(JoinGame(r, gid, sid).registry, gid, sid) == 1
  {
    GameManager.RoleAfterJoin(r, gid, sid);
  }

  /** A connection that holds no seat in the game can never move in it. */
  lemma NonParticipantCannotMove(r: GameManager.Registry, gid: GameId, sid: SessionId, pit: int)
    requires GameManager.GetPlayerRoleInGame(r, gid, sid) == -1
    ensures MakeMove(r, gid, sid, pit) == Outcome(r, [])
  {
  }
}
