/** The move rules of Service/MancalaGameService.java: sowing, capture,
    end-of-game sweep, winner and turn passing. */
module GameService {
  import opened Wrappers
  import opened MancalaGame

  /** A mover sows into every cell except the opponent's store: thirteen cells. */
  const RingSize := 13

  /** Position of cell i among the cells player p sows into, counted from pit 0. */
  function Rank(p: Player, i: Index): (k: int)
    requires i != OpponentStore(p)
    ensures 0 <= k < RingSize
  {
    if p == 1 && i > Player1Store then i - 1 else i
  }

  function Unrank(p: Player, k: int): (i: Index)
    requires 0 <= k < RingSize
    ensures i != OpponentStore(p) && Rank(p, i) == k
  {
    if p == 1 && k >= Player1Store then k + 1 else k
  }

  /** The rank after k, wrapping from the last cell of the ring to the first. */
  function NextRank(k: int): int {
    if k == RingSize - 1 then 0 else k + 1
  }

  /** The cell after i in counter-clockwise order, stepping over the
      opponent's store so that a skip never uses up a stone. */
  function Next(p: Player, i: Index): (j: Index)
    ensures j != OpponentStore(p)
    ensures i != OpponentStore(p) ==> Rank(p, j) == NextRank(Rank(p, i))
  {
    var j := (i + 1) % Cells;
    if j == OpponentStore(p) then (j + 1) % Cells else j
  }

  /** Drops n stones one at a time into the cells after `at`; returns the
      board and the cell that received the last stone. */
  function Sow(b: Board, p: Player, at: Index, n: nat): (r: (Board, Index))
    ensures Sum(r.0) == Sum(b) + n
    ensures r.0[OpponentStore(p)] == b[OpponentStore(p)]
    ensures forall i :: 0 <= i < Cells ==> r.0[i] >= b[i]
    ensures n > 0 ==> r.1 != OpponentStore(p)
    decreases n
  {
    if n == 0 then (b, at)
    else
      var next := Next(p, at);
      SumUpdate(b, next, b[next] + 1);
      Sow(b[next := b[next] + 1], p, next, n - 1)
  }

  /** How far cell rank r lies after rank k going round the ring: 1 for the
      next cell, up to 13 for k itself. */
  function Distance(k: int, r: int): int {
    if r > k then r - k else r - k + RingSize
  }

  /** Closed form of sowing: how many of n stones sown after `from` land in
      cell i. Each full lap of thirteen cells gives every cell one stone; the
      remainder goes to the cells nearest after `from`. */
  function Drops(p: Player, from: Index, n: nat, i: Index): nat
    requires from != OpponentStore(p)
  {
    if i == OpponentStore(p) then 0
    else (n + RingSize - Distance(Rank(p, from), Rank(p, i))) / RingSize
  }

  /** Closed form of the cell that receives the last of n stones. */
  function Landing(p: Player, from: Index, n: nat): Index
    requires from != OpponentStore(p)
  {
    Unrank(p, (Rank(p, from) + n) % RingSize)
  }

  lemma DropsStep(p: Player, from: Index, n: nat, i: Index)
    requires from != OpponentStore(p) && n > 0
    ensures Drops(p, from, n, i) == (if i == Next(p, from) then 1 else 0) + Drops(p, Next(p, from), n - 1, i)
  {
    var j := Next(p, from);
    if i != OpponentStore(p) {
      var a := Rank(p, from);
      var r := Rank(p, i);
      assert Rank(p, j) == NextRank(a);
      assert i == j <==> r == NextRank(a) by {
        assert Unrank(p, Rank(p, i)) == i;
        assert Unrank(p, Rank(p, j)) == j;
      }
      if i == j {
        assert Distance(a, r) == 1 && Distance(NextRank(a), r) == RingSize;
        assert (n + RingSize - 1) / RingSize == 1 + (n - 1) / RingSize;
      } else {
        assert Distance(a, r) == Distance(NextRank(a), r) + 1;
      }
    }
  }

  lemma LandingStep(p: Player, from: Index, n: nat)
    requires from != OpponentStore(p) && n > 0
    ensures Landing(p, Next(p, from), n - 1) == Landing(p, from, n)
  {
    var a := Rank(p, from);
    if a == RingSize - 1 {
      assert (n - 1 + RingSize) % RingSize == (n - 1) % RingSize;
    }
    assert (NextRank(a) + (n - 1)) % RingSize == (a + n) % RingSize;
  }

  /** The last stone of a sowing lands where the closed form says. */
  lemma {:induction false} SowLanding(b: Board, p: Player, from: Index, n: nat)
    requires from != OpponentStore(p)
    ensures Sow(b, p, from, n).1 == Landing(p, from, n)
    decreases n
  {
    if n == 0 {
      assert Unrank(p, Rank(p, from)) == from;
    } else {
      var j := Next(p, from);
      SowLanding(b[j := b[j] + 1], p, j, n - 1);
      LandingStep(p, from, n);
    }
  }

  /** Every cell gains exactly the number of stones the closed form gives. */
  lemma {:induction false} SowDrops(b: Board, p: Player, from: Index, n: nat)
    requires from != OpponentStore(p)
    ensures forall i :: 0 <= i < Cells ==> Sow(b, p, from, n).0[i] == b[i] + Drops(p, from, n, i)
    decreases n
  {
    var sown := Sow(b, p, from, n).0;
    if n == 0 {
      forall i | 0 <= i < Cells ensures sown[i] == b[i] + Drops(p, from, 0, i) {
      }
    } else {
      var j := Next(p, from);
      var b' := b[j := b[j] + 1];
      assert sown == Sow(b', p, j, n - 1).0;
      SowDrops(b', p, j, n - 1);
      forall i | 0 <= i < Cells
        ensures sown[i] == b[i] + Drops(p, from, n, i)
      {
        DropsStep(p, from, n, i);
      }
    }
  }

  /** Empties pit `pit` and sows its stones; the stones only move, and the
      last one lands where the closed form says. */
  function SowFromPit(b: Board, p: Player, pit: Index): (r: (Board, Index))
    requires IsOwnPit(p, pit)
    ensures Sum(r.0) == Sum(b)
    ensures r.0[OpponentStore(p)] == b[OpponentStore(p)]
    ensures r.1 == Landing(p, pit, b[pit])
  {
    SumUpdate(b, pit, 0);
    SowLanding(b[pit := 0], p, pit, b[pit]);
    Sow(b[pit := 0], p, pit, b[pit])
  }

  /** The last stone lands in the mover's own store exactly when the stone
      count, modulo the thirteen cells sown into, is the distance from the pit
      to that store. */
  lemma LandsInOwnStore(p: Player, pit: Index, n: nat)
    requires IsOwnPit(p, pit)
    ensures Landing(p, pit, n) == Store(p) <==> n % RingSize == Store(p) - pit
  {
    assert Landing(p, pit, n) == Store(p) <==> (Rank(p, pit) + n) % RingSize == Rank(p, Store(p)) by {
      assert Unrank(p, Rank(p, Store(p))) == Store(p);
    }
    assert (Rank(p, pit) + n) % RingSize == (Rank(p, pit) + n % RingSize) % RingSize;
  }

  /** Pit i lies directly across the board from pit 12 - i. */
  predicate CaptureApplies(b: Board, p: Player, last: Index) {
    IsOwnPit(p, last) && b[last] == 1 && b[12 - last] > 0
  }

  /** A last stone landing alone in one of the mover's pits takes the stones
      of the opposite pit, and itself, into the mover's store. */
  function Capture(b: Board, p: Player, last: Index): (r: Board)
    ensures Sum(r) == Sum(b)
    ensures CaptureApplies(b, p, last) ==>
      r[last] == 0 && r[12 - last] == 0 && r[Store(p)] == b[Store(p)] + b[12 - last] + 1
    ensures forall i :: 0 <= i < Cells ==>
      (CaptureApplies(b, p, last) && (i == last || i == 12 - last || i == Store(p))) || r[i] == b[i]
  {
    if IsOwnPit(p, last) && b[last] == 1 && b[12 - last] > 0 then
      var opposite := 12 - last;
      var store := Store(p);
      var banked := b[store := b[store] + b[opposite] + b[last]];
      SumUpdate(b, store, b[store] + b[opposite] + b[last]);
      SumUpdate(banked, opposite, 0);
      SumUpdate(banked[opposite := 0], last, 0);
      banked[opposite := 0][last := 0]
    else
      b
  }

  /** True when every one of player p's six pits is empty. */
  function IsPlayerPitsEmpty(b: Board, p: Player): (empty: bool)
    ensures empty <==> SideStones(b, p) == 0
  {
    SideStonesZero(b, p);
    forall i :: FirstPit(p) <= i < FirstPit(p) + PitsPerSide ==> b[i] == 0
  }

  /** At the end of the game each side's remaining stones go to its own store. */
  function CollectRemainingStones(b: Board): (r: Board)
    ensures forall i :: 0 <= i < Cells && !IsStore(i) ==> r[i] == 0
    ensures r[Player1Store] == b[Player1Store] + SideStones(b, 0)
    ensures r[Player2Store] == b[Player2Store] + SideStones(b, 1)
    ensures Sum(r) == Sum(b)
  {
    var r := seq(Cells, _ => 0)
      [Player1Store := b[Player1Store] + SideStones(b, 0)]
      [Player2Store := b[Player2Store] + SideStones(b, 1)];
    TotalSplit(b);
    TotalSplit(r);
    SideStonesZero(r, 0);
    SideStonesZero(r, 1);
    r
  }

  /** The player with the larger store wins; equal stores are a draw (-1). */
  function DetermineWinner(b: Board): (w: Winner)
    ensures w != -1 ==> b[Store(w)] > b[OpponentStore(w)]
    ensures w == -1 ==> b[Player1Store] == b[Player2Store]
  {
    if b[Player1Store] > b[Player2Store] then 0
    else if b[Player2Store] > b[Player1Store] then 1
    else -1
  }

  /** A move may start only from a non-empty pit on the mover's side. */
  function IsValidPitSelection(g: Game, pit: int): (valid: bool)
    ensures valid <==> IsOwnPit(g.currentPlayer, pit) && g.board[pit] > 0
  {
    if pit < 0 || pit >= |g.board| || g.board[pit] == 0 then false
    else if g.currentPlayer == 0 then 0 <= pit <= 5
    else 7 <= pit <= 12
  }

  /** What the source's makeMove returns, with the game it leaves behind. */
  datatype MoveResult = MoveResult(success: bool, game: Game)

  /** The source throws IllegalArgumentException for this. */
  datatype MoveError = InvalidMove(pit: int, player: Player)

  /** Every pit (not store) is empty. */
  predicate PitsEmpty(b: Board) {
    forall i :: 0 <= i < Cells && !IsStore(i) ==> b[i] == 0
  }

  function MakeMove(g: Game, pit: int): (r: Result<MoveResult, MoveError>)
    ensures g.gameOver ==> r == Success(MoveResult(false, g))
    ensures !g.gameOver ==> (r.Failure? <==> !(IsOwnPit(g.currentPlayer, pit) && g.board[pit] > 0))
    ensures r.Failure? ==> r.error == InvalidMove(pit, g.currentPlayer)
    ensures r.Success? ==> (r.value.success <==> !g.gameOver)
    ensures r.Success? ==> Sum(r.value.game.board) == Sum(g.board)
    ensures r.Success? && r.value.success && r.value.game.gameOver ==>
      && PitsEmpty(r.value.game.board)
      && r.value.game.currentPlayer == g.currentPlayer
      && r.value.game.winner == DetermineWinner(r.value.game.board)
    ensures r.Success? && !r.value.game.gameOver ==>
      && SideStones(r.value.game.board, 0) > 0 && SideStones(r.value.game.board, 1) > 0
      && r.value.game.winner == g.winner
      && (r.value.game.currentPlayer == g.currentPlayer || r.value.game.currentPlayer == 1 - g.currentPlayer)
    ensures r.Success? && r.value.success && !r.value.game.gameOver ==>
      (r.value.game.currentPlayer == g.currentPlayer <==> Landing(g.currentPlayer, pit, g.board[pit]) == Store(g.currentPlayer))
  {
    if g.gameOver then Success(MoveResult(false, g))
    else if !IsValidPitSelection(g, pit) then Failure(InvalidMove(pit, g.currentPlayer))
    else
      var p := g.currentPlayer;
      var (sown, last) := SowFromPit(g.board, p, pit);
      var board := Capture(sown, p, last);
      if IsPlayerPitsEmpty(board, 0) || IsPlayerPitsEmpty(board, 1) then
        var swept := CollectRemainingStones(board);
        Success(MoveResult(true, Game(swept, p, true, DetermineWinner(swept))))
      else
        var next := if last == Store(p) then p else 1 - p;
        Success(MoveResult(true, Game(board, next, false, g.winner)))
  }

  /** The mover keeps the turn exactly when the stone count, taken modulo the
      thirteen cells sown into, equals the distance from the pit to the
      mover's own store. */
  lemma ExtraTurnRule(g: Game, pit: int)
    requires !g.gameOver && IsOwnPit(g.currentPlayer, pit) && g.board[pit] > 0
    ensures MakeMove(g, pit).Success? && MakeMove(g, pit).value.success
    ensures var m := MakeMove(g, pit).value.game;
      !m.gameOver ==> (m.currentPlayer == g.currentPlayer <==> g.board[pit] % RingSize == Store(g.currentPlayer) - pit)
  {
    LandsInOwnStore(g.currentPlayer, pit, g.board[pit]);
  }

  /** An accepted move, step by step: the stones fall as the closed form
      counts them; the game ends exactly when, after any capture, one side is
      empty; if it goes on, a capture takes exactly the landing pit and the pit
      across into the mover's store and nothing else moves; if it ends, each
      store gains exactly its own side's stones. */
  lemma MoveEffect(g: Game, pit: int)
    requires !g.gameOver && IsOwnPit(g.currentPlayer, pit) && g.board[pit] > 0
    ensures var p := g.currentPlayer;
      var n := g.board[pit];
      var (sown, last) := SowFromPit(g.board, p, pit);
      var captured := Capture(sown, p, last);
      var m := MakeMove(g, pit).value.game;
      && last == Landing(p, pit, n)
      && (forall i :: 0 <= i < Cells ==> sown[i] == (if i == pit then 0 else g.board[i]) + Drops(p, pit, n, i))
      && (m.gameOver <==> SideStones(captured, 0) == 0 || SideStones(captured, 1) == 0)
      && (!m.gameOver && CaptureApplies(sown, p, last) ==>
            && m.board[last] == 0 && m.board[12 - last] == 0
            && m.board[Store(p)] == sown[Store(p)] + sown[12 - last] + 1
            && forall i :: 0 <= i < Cells && i != last && i != 12 - last && i != Store(p) ==> m.board[i] == sown[i])
      && (!m.gameOver && !CaptureApplies(sown, p, last) ==> m.board == sown)
      && (m.gameOver ==>
            && m.board[Player1Store] == captured[Player1Store] + SideStones(captured, 0)
            && m.board[Player2Store] == captured[Player2Store] + SideStones(captured, 1))
  {
    SowDrops(g.board[pit := 0], g.currentPlayer, pit, g.board[pit]);
  }

  /** Plays a sequence of pit choices; a rejected choice leaves the game as it was. */
  function Play(g: Game, pits: seq<int>): Game
    decreases |pits|
  {
    if |pits| == 0 then g
    else
      var after := match MakeMove(g, pits[0])
        case Success(m) => m.game
        case Failure(_) => g;
      Play(after, pits[1..])
  }

  /** A finished game has every stone in a store. */
  predicate Settled(g: Game) {
    g.gameOver ==> PitsEmpty(g.board)
  }

  lemma {:induction false} PlayConserves(g: Game, pits: seq<int>)
    requires Settled(g)
    ensures Sum(Play(g, pits).board) == Sum(g.board)
    ensures Settled(Play(g, pits))
    decreases |pits|
  {
    if |pits| > 0 {
      var after := match MakeMove(g, pits[0])
        case Success(m) => m.game
        case Failure(_) => g;
      PlayConserves(after, pits[1..]);
    }
  }

  /** From a fresh game, whatever is played, the 48 stones stay on the board,
      and once the game is over they all sit in the two stores. */
  lemma FreshGameConservation(pits: seq<int>)
    ensures var g := Play(NewGame(), pits);
      && Sum(g.board) == InitialStones
      && (g.gameOver ==> PitsEmpty(g.board) && g.board[Player1Store] + g.board[Player2Store] == InitialStones)
  {
    var g := Play(NewGame(), pits);
    PlayConserves(NewGame(), pits);
    if g.gameOver {
      TotalSplit(g.board);
      SideStonesZero(g.board, 0);
      SideStonesZero(g.board, 1);
    }
  }

  /** Opening move from pit 2: four stones reach pits 3, 4, 5 and the store,
      so Player 1 moves again. */
  lemma OpeningMoveEarnsExtraTurn()
    ensures var g := NewGame();
      MakeMove(g, 2) == Success(MoveResult(true,
        Game(g.board[2 := 0][3 := 5][4 := 5][5 := 5][Player1Store := 1], 0, false, -1)))
  {
    var g := NewGame();
    var b0 := g.board[2 := 0];
    var b1 := b0[3 := 5];
    var b2 := b1[4 := 5];
    var b3 := b2[5 := 5];
    var b4 := b3[Player1Store := 1];
    assert Sow(b3, 0, 5, 1) == (b4, 6);
    assert Sow(b2, 0, 4, 2) == (b4, 6);
    assert Sow(b1, 0, 3, 3) == (b4, 6);
    assert Sow(b0, 0, 2, 4) == (b4, 6);
    assert Capture(b4, 0, 6) == b4;
    assert b4[0] > 0 && b4[7] > 0;
    assert !IsPlayerPitsEmpty(b4, 0) && !IsPlayerPitsEmpty(b4, 1) by {
      SideStonesZero(b4, 0);
      SideStonesZero(b4, 1);
    }
  }

  /** From the standard board with pit 0 holding one stone, pit 1 empty and
      pit 11 holding five: the stone from pit 0 lands alone in pit 1 and
      takes pit 11 with it, so Player 1's store gains six and the turn passes. */
  lemma CaptureExample()
    ensures var g := Game(NewGame().board[0 := 1][1 := 0][11 := 5], 0, false, -1);
      MakeMove(g, 0) == Success(MoveResult(true,
        Game(g.board[0 := 0][11 := 0][Player1Store := 6], 1, false, -1)))
  {
    var g := Game(NewGame().board[0 := 1][1 := 0][11 := 5], 0, false, -1);
    var b0 := g.board[0 := 0];
    var sown: Board := b0[1 := 1];
    assert Sow(b0, 0, 0, 1) == (sown, 1);
    assert SowFromPit(g.board, 0, 0) == (sown, 1);
    var after: Board := g.board[0 := 0][11 := 0][Player1Store := 6];
    assert Capture(sown, 0, 1) == after by {
      assert CaptureApplies(sown, 0, 1);
      var cleared: Board := sown[Player1Store := 6][11 := 0][1 := 0];
      assert Capture(sown, 0, 1) == cleared;
      forall i | 0 <= i < Cells ensures cleared[i] == after[i] {
      }
      assert cleared == after;
    }
    assert !IsPlayerPitsEmpty(after, 0) && !IsPlayerPitsEmpty(after, 1) by {
      assert after[2] > 0 && after[7] > 0;
      SideStonesZero(after, 0);
      SideStonesZero(after, 1);
    }
  }

}
