/** The state of one game of Kalah: fourteen cells, whose turn it is, whether
    the game has ended and who won, with the validating accessors of
    game/MancalaGame.java. */
module MancalaGame {
  import opened Wrappers

  /** Cells on the board: pits 0-5 and 7-12, stores 6 and 13. */
  const Cells := 14
  const Player1Store := 6
  const Player2Store := 13
  const PitsPerSide := 6
  const StonesPerPit := 4
  /** Stones on a fresh board: four in each of the twelve pits. */
  const InitialStones := 48

  type Index = i: int | 0 <= i < 14
  type Board = b: seq<nat> | |b| == 14 witness seq(14, _ => 0)
  /** 0 is the host (Player 1), 1 the joiner (Player 2). */
  type Player = p: int | 0 <= p <= 1
  /** -1 means a draw or a game still undecided. */
  type Winner = w: int | -1 <= w <= 1

  predicate IsStore(i: int) {
    i == Player1Store || i == Player2Store
  }

  function Store(p: Player): Index {
    if p == 0 then Player1Store else Player2Store
  }

  function OpponentStore(p: Player): Index {
    Store(1 - p)
  }

  function FirstPit(p: Player): Index {
    if p == 0 then 0 else 7
  }

  /** Pit i lies on player p's side of the board (stores excluded). */
  predicate IsOwnPit(p: Player, i: int) {
    FirstPit(p) <= i < FirstPit(p) + PitsPerSide
  }

  function Sum(s: seq<nat>): nat {
    if |s| == 0 then 0 else s[0] + Sum(s[1..])
  }

  /** Stones still in the six pits of player p. */
  function SideStones(b: Board, p: Player): nat {
    Sum(b[FirstPit(p)..FirstPit(p) + PitsPerSide])
  }

  lemma {:induction false} SumConcat(a: seq<nat>, b: seq<nat>)
    ensures Sum(a + b) == Sum(a) + Sum(b)
  {
    if |a| == 0 {
      assert a + b == b;
    } else {
      assert (a + b)[1..] == a[1..] + b;
      SumConcat(a[1..], b);
    }
  }

  /** Replacing one entry changes the sum by the difference. */
  lemma {:induction false} SumUpdate(s: seq<nat>, i: int, v: nat)
    requires 0 <= i < |s|
    ensures Sum(s[i := v]) + s[i] == Sum(s) + v
  {
    if i == 0 {
      assert s[i := v][1..] == s[1..];
    } else {
      assert s[i := v][1..] == s[1..][i - 1 := v];
      SumUpdate(s[1..], i - 1, v);
    }
  }

  lemma {:induction false} SumZero(s: seq<nat>)
    ensures Sum(s) == 0 <==> forall i :: 0 <= i < |s| ==> s[i] == 0
  {
    if |s| > 0 {
      SumZero(s[1..]);
      if Sum(s) == 0 {
        forall i | 0 <= i < |s| ensures s[i] == 0 {
          if i > 0 {
            assert s[i] == s[1..][i - 1];
          }
        }
      } else if s[0] == 0 {
        var j :| 0 <= j < |s[1..]| && s[1..][j] != 0;
        assert s[j + 1] != 0;
      }
    }
  }

  lemma {:induction false} SumConstant(s: seq<nat>, c: nat)
    requires forall i :: 0 <= i < |s| ==> s[i] == c
    ensures Sum(s) == c * |s|
  {
    if |s| > 0 {
      SumConstant(s[1..], c);
    }
  }

  /** The total splits into the two sides and the two stores. */
  lemma TotalSplit(b: Board)
    ensures Sum(b) == SideStones(b, 0) + b[Player1Store] + SideStones(b, 1) + b[Player2Store]
  {
    assert b == b[0..6] + [b[6]] + b[7..13] + [b[13]];
    SumConcat(b[0..6] + [b[6]] + b[7..13], [b[13]]);
    SumConcat(b[0..6] + [b[6]], b[7..13]);
    SumConcat(b[0..6], [b[6]]);
  }

  /** A side holds no stones exactly when each of its six pits is empty. */
  lemma SideStonesZero(b: Board, p: Player)
    ensures SideStones(b, p) == 0 <==> forall i :: FirstPit(p) <= i < FirstPit(p) + PitsPerSide ==> b[i] == 0
  {
    var side := b[FirstPit(p)..FirstPit(p) + PitsPerSide];
    SumZero(side);
    if SideStones(b, p) != 0 {
      var k :| 0 <= k < |side| && side[k] != 0;
      assert b[FirstPit(p) + k] != 0;
    } else {
      forall i | FirstPit(p) <= i < FirstPit(p) + PitsPerSide ensures b[i] == 0 {
        assert b[i] == side[i - FirstPit(p)];
      }
    }
  }

  /** Overall status of an online session; a closed set of named states. */
  datatype GameStatus = WaitingForPlayer | InProgress | Finished | Cancelled

  /** The Java enum constant's name, as sent in snapshots: a non-empty word of
      capital letters and underscores. Distinct statuses have distinct names
      (StatusNameRoundTrip). */
  function StatusName(s: GameStatus): (name: string)
    ensures |name| > 0
    ensures forall i :: 0 <= i < |name| ==> 'A' <= name[i] <= 'Z' || name[i] == '_'
  {
    match s
    case WaitingForPlayer => "WAITING_FOR_PLAYER"
    case InProgress => "IN_PROGRESS"
    case Finished => "FINISHED"
    case Cancelled => "CANCELLED"
  }

  /** Reads a status back from its name; the inverse of StatusName. */
  function ParseStatus(name: string): (r: Option<GameStatus>)
    ensures r.Some? ==> StatusName(r.value) == name
  {
    if name == "WAITING_FOR_PLAYER" then Some(WaitingForPlayer)
    else if name == "IN_PROGRESS" then Some(InProgress)
    else if name == "FINISHED" then Some(Finished)
    else if name == "CANCELLED" then Some(Cancelled)
    else None
  }

  lemma StatusNameRoundTrip(s: GameStatus)
    ensures ParseStatus(StatusName(s)) == Some(s)
  {
  }

  datatype Game = Game(board: Board, currentPlayer: Player, gameOver: bool, winner: Winner)

  datatype GameError =
    | InvalidBoard
    | InvalidCurrentPlayer(player: int)
    | InvalidWinner(winner: int)
    | InvalidPitIndex(pit: int)

  /** A fresh game: four stones in every pit, empty stores, Player 1 to move. */
  function NewGame(): (g: Game)
    ensures forall i :: 0 <= i < Cells ==> g.board[i] == (if IsStore(i) then 0 else StonesPerPit)
    ensures Sum(g.board) == InitialStones
    ensures g.currentPlayer == 0 && !g.gameOver && g.winner == -1
  {
    var board: Board := seq(Cells, i => if IsStore(i) then 0 else StonesPerPit);
    TotalSplit(board);
    SumConstant(board[0..6], StonesPerPit);
    SumConstant(board[7..13], StonesPerPit);
    Game(board, 0, false, -1)
  }

  /** Puts the game back into its initial state, filling each side's pits in
      turn as the source's two loops do. */
  method Reset(g: Game) returns (r: Game)
    ensures r == NewGame()
  {
    var board: Board := seq(Cells, _ => 0);
    var i := FirstPit(0);
    while i < FirstPit(0) + PitsPerSide
      invariant 0 <= i <= 6
      invariant forall k :: 0 <= k < Cells ==> board[k] == (if k < i then StonesPerPit else 0)
    {
      board := board[i := StonesPerPit];
      i := i + 1;
    }
    i := FirstPit(1);
    while i < FirstPit(1) + PitsPerSide
      invariant 7 <= i <= 13
      invariant forall k :: 0 <= k < Cells ==>
        board[k] == (if k < 6 || 7 <= k < i then StonesPerPit else 0)
    {
      board := board[i := StonesPerPit];
      i := i + 1;
    }
    board := board[Player1Store := 0][Player2Store := 0];
    r := Game(board, 0, false, -1);
    assert r.board == NewGame().board;
  }

  /** Installs a new board after checking it is present, has fourteen cells
      and holds no negative count; otherwise the game keeps its board. */
  function SetBoard(g: Game, board: Option<seq<int>>): (r: Result<Game, GameError>)
    ensures r.Success? <==>
      board.Some? && |board.value| == Cells && forall i :: 0 <= i < |board.value| ==> board.value[i] >= 0
    ensures r.Failure? ==> r.error == InvalidBoard
    ensures r.Success? ==>
      r.value.board == board.value && r.value.currentPlayer == g.currentPlayer
      && r.value.gameOver == g.gameOver && r.value.winner == g.winner
  {
    if board.None? || |board.value| != Cells then Failure(InvalidBoard)
    else if exists i :: 0 <= i < Cells && board.value[i] < 0 then Failure(InvalidBoard)
    else Success(g.(board := seq(Cells, i requires 0 <= i < Cells => board.value[i] as nat)))
  }

  function SetCurrentPlayer(g: Game, player: int): (r: Result<Game, GameError>)
    ensures r.Success? <==> player == 0 || player == 1
    ensures r.Failure? ==> r.error == InvalidCurrentPlayer(player)
    ensures r.Success? ==> r.value.currentPlayer == player && r.value.(currentPlayer := g.currentPlayer) == g
  {
    if player != 0 && player != 1 then Failure(InvalidCurrentPlayer(player))
    else Success(g.(currentPlayer := player))
  }

  function SetWinner(g: Game, winner: int): (r: Result<Game, GameError>)
    ensures r.Success? <==> winner == -1 || winner == 0 || winner == 1
    ensures r.Failure? ==> r.error == InvalidWinner(winner)
    ensures r.Success? ==> r.value.winner == winner && r.value.(winner := g.winner) == g
  {
    if winner != -1 && winner != 0 && winner != 1 then Failure(InvalidWinner(winner))
    else Success(g.(winner := winner))
  }

  function GetStonesInPit(g: Game, pit: int): (r: Result<nat, GameError>)
    ensures r.Success? <==> 0 <= pit < Cells
    ensures r.Success? ==> r.value == g.board[pit]
    ensures r.Failure? ==> r.error == InvalidPitIndex(pit)
  {
    if 0 <= pit < |g.board| then Success(g.board[pit]) else Failure(InvalidPitIndex(pit))
  }
}
