/** One online match (online/OnlineMancalaGame.java): a rule-engine game, two
    participant slots, a lifecycle status and the two rematch votes. */
module OnlineGame {
  import opened Wrappers
  import opened MancalaGame
  import GameService

  type GameId = string
  /** A connection's session id; never null in the source's callers. */
  type SessionId = string

  datatype Session = Session(
    gameId: GameId,
    game: Game,
    player1: Option<SessionId>,
    player2: Option<SessionId>,
    status: GameStatus,
    creationTime: int,
    player1WantsRematch: bool,
    player2WantsRematch: bool)

  predicate IsParticipant(s: Session, sid: SessionId) {
    s.player1 == Some(sid) || s.player2 == Some(sid)
  }

  predicate IsFull(s: Session) {
    s.player1.Some? && s.player2.Some?
  }

  /** What every session built by these operations satisfies: the 48 stones
      are all on the board (and in the stores once the game is over), no one
      holds both slots, a finished session has a finished game, and a session
      still waiting has no second participant. */
  predicate Valid(s: Session) {
    && Sum(s.game.board) == InitialStones
    && GameService.Settled(s.game)
    && (IsFull(s) ==> s.player1 != s.player2)
    && (s.status == Finished ==> s.game.gameOver)
    && (s.status == WaitingForPlayer ==> s.player2.None?)
  }

  /** A new session: waiting, both slots empty, no votes, a fresh game. The
      id and the clock reading are inputs here. */
  function NewSession(id: GameId, now: int): (s: Session)
    ensures s.gameId == id && s.creationTime == now
    ensures s.status == WaitingForPlayer && s.player1.None? && s.player2.None?
    ensures s.game == NewGame() && !s.player1WantsRematch && !s.player2WantsRematch
    ensures Valid(s)
  {
    Session(id, NewGame(), None, None, WaitingForPlayer, now, false, false)
  }

  /** Records a vote for the given role; any role other than 0 or 1 is
      ignored, and the status is not consulted. */
  function SetPlayerWantsRematch(s: Session, role: int): (r: Session)
    ensures r.player1WantsRematch == (s.player1WantsRematch || role == 0)
    ensures r.player2WantsRematch == (s.player2WantsRematch || role == 1)
    ensures r.(player1WantsRematch := s.player1WantsRematch, player2WantsRematch := s.player2WantsRematch) == s
    ensures Valid(s) ==> Valid(r)
  {
    if role == 0 then s.(player1WantsRematch := true)
    else if role == 1 then s.(player2WantsRematch := true)
    else s
  }

  /** Both participants have voted: exactly when no further vote, by either
      role, would change the session. */
  function BothPlayersWantRematch(s: Session): (both: bool)
    ensures both <==> forall role :: 0 <= role <= 1 ==> SetPlayerWantsRematch(s, role) == s
  {
    assert SetPlayerWantsRematch(s, 0) == s <==> s.player1WantsRematch;
    assert SetPlayerWantsRematch(s, 1) == s <==> s.player2WantsRematch;
    s.player1WantsRematch && s.player2WantsRematch
  }

  /** Starts the match again with the same two participants. */
  function ResetForRematch(s: Session): (r: Session)
    ensures r.game == NewGame() && r.status == InProgress
    ensures !r.player1WantsRematch && !r.player2WantsRematch
    ensures r.gameId == s.gameId && r.player1 == s.player1 && r.player2 == s.player2
    ensures r.creationTime == s.creationTime
    ensures Valid(s) ==> Valid(r)
  {
    s.(game := NewGame(), status := InProgress, player1WantsRematch := false, player2WantsRematch := false)
  }

  /** Seats a participant: slot 0 first, then slot 1, which starts the game.
      Returns the role given, or -1 for a repeat or a full session. */
  function AddPlayer(s: Session, sid: SessionId): (r: (int, Session))
    ensures -1 <= r.0 <= 1
    ensures r.0 == -1 <==> IsParticipant(s, sid) || IsFull(s)
    ensures r.0 == -1 ==> r.1 == s
    ensures r.0 == 0 ==> s.player1.None? && r.1 == s.(player1 := Some(sid))
    ensures r.0 == 1 ==> s.player1.Some? && s.player2.None? && r.1 == s.(player2 := Some(sid), status := InProgress)
    ensures r.0 != -1 ==> IsParticipant(r.1, sid)
    ensures Valid(s) ==> Valid(r.1)
  {
    if s.player1 == Some(sid) || s.player2 == Some(sid) then (-1, s)
    else if s.player1.None? then (0, s.(player1 := Some(sid)))
    else if s.player2.None? then (1, s.(player2 := Some(sid), status := InProgress))
    else (-1, s)
  }

  /** A participant leaves: their slot is cleared and the session is
      cancelled, whatever its status. Anyone else changes nothing. */
  function RemovePlayer(s: Session, sid: SessionId): (r: (bool, Session))
    ensures r.0 <==> IsParticipant(s, sid)
    ensures !r.0 ==> r.1 == s
    ensures r.0 && s.player1 == Some(sid) ==> r.1 == s.(player1 := None, status := Cancelled)
    ensures r.0 && s.player1 != Some(sid) ==> r.1 == s.(player2 := None, status := Cancelled)
    ensures Valid(s) ==> Valid(r.1) && !IsParticipant(r.1, sid)
  {
    if s.player1 == Some(sid) then (true, s.(player1 := None, status := Cancelled))
    else if s.player2 == Some(sid) then (true, s.(player2 := None, status := Cancelled))
    else (false, s)
  }

  /** A guarded move: only while in progress, only by the player to move;
      then the rule engine decides, and a move that ends the game finishes
      the session. An invalid pit propagates the engine's error. */
  function MakeMove(s: Session, pit: int, role: int): (r: Result<(bool, Session), GameService.MoveError>)
    ensures s.game.gameOver || s.status != InProgress || role != s.game.currentPlayer ==> r == Success((false, s))
    ensures r.Failure? ==>
      && r.error == GameService.InvalidMove(pit, s.game.currentPlayer)
      && !(IsOwnPit(s.game.currentPlayer, pit) && s.game.board[pit] > 0)
    ensures r.Success? ==> r.value.1 == s.(game := r.value.1.game, status := r.value.1.status)
    ensures r.Success? ==> r.value.1.status == (if r.value.0 && r.value.1.game.gameOver then Finished else s.status)
    ensures r.Success? ==> Sum(r.value.1.game.board) == Sum(s.game.board)
    ensures r.Success? && r.value.0 ==>
      GameService.MakeMove(s.game, pit) == Success(GameService.MoveResult(true, r.value.1.game))
    ensures !(s.game.gameOver || s.status != InProgress || role != s.game.currentPlayer) ==>
      && (r.Failure? <==> GameService.MakeMove(s.game, pit).Failure?)
      && (r.Success? ==> r.value.0)
    ensures r.Success? && Valid(s) ==> Valid(r.value.1)
  {
    if s.game.gameOver || s.status != InProgress then Success((false, s))
    else if s.game.currentPlayer != role then Success((false, s))
    else
      match GameService.MakeMove(s.game, pit)
      case Failure(e) => Failure(e)
      case Success(m) =>
        var status := if m.success && m.game.gameOver then Finished else s.status;
        EngineMoveKeepsValid(s, pit, m);
        Success((m.success, s.(game := m.game, status := status)))
  }

  /** Installing the engine's result, and finishing the session when the move
      ended the game, keeps a session consistent. */
  lemma EngineMoveKeepsValid(s: Session, pit: int, m: GameService.MoveResult)
    requires !s.game.gameOver && s.status == InProgress
    requires GameService.MakeMove(s.game, pit) == Success(m)
    ensures Valid(s) ==>
      Valid(s.(game := m.game, status := if m.success && m.game.gameOver then Finished else s.status))
  {
  }

  /** Leaving twice is the same as leaving once: the second call finds no
      slot to clear and cancels nothing again. */
  lemma RemovePlayerIdempotent(s: Session, sid: SessionId)
    requires Valid(s)
    ensures RemovePlayer(RemovePlayer(s, sid).1, sid) == (false, RemovePlayer(s, sid).1)
  {
  }

  /** Joining again with a seated id is rejected and changes nothing. */
  lemma JoinTwiceRejected(s: Session, sid: SessionId)
    requires AddPlayer(s, sid).0 != -1
    ensures AddPlayer(AddPlayer(s, sid).1, sid) == (-1, AddPlayer(s, sid).1)
  {
  }

  /** Host, then joiner, then a third party: roles 0, 1, then -1; only the
      second join starts the game. */
  lemma JoinOrder(id: GameId, now: int, host: SessionId, guest: SessionId, third: SessionId)
    requires host != guest && third != host && third != guest
    ensures var (r0, s0) := AddPlayer(NewSession(id, now), host);
      var (r1, s1) := AddPlayer(s0, guest);
      var (r2, s2) := AddPlayer(s1, third);
      && r0 == 0 && s0.status == WaitingForPlayer
      && r1 == 1 && s1.status == InProgress
      && r2 == -1 && s2 == s1
  {
  }

  /** A move that is not the mover's turn (or from a non-participant) is
      refused without touching the session. */
  lemma OutOfTurnRejected(s: Session, pit: int, role: int)
    requires role != s.game.currentPlayer
    ensures MakeMove(s, pit, role) == Success((false, s))
  {
  }
}
