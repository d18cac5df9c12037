# Mancala (Kalah) rules and online sessions in Dafny

This project models the Java Mancala server.
- **The rule engine** (`MancalaGame`, `MancalaGameService`): a 14-cell board where cells 0–5 and 7–12 are pits and 6 and 13 are the stores. Player 0 owns pits 0–5 and store 6. Player 1 owns pits 7–12 and store 13.
- **The online session** (`OnlineMancalaGame`): two seats, a status, rematch votes and a guarded move.
- **The registry of live games** (`OnlineGameManager`).
- **The decision logic of the message handlers** (`OnlineGameController`).

Each Java class becomes one module:

| module | file | models |
|---|---|---|
| `Wrappers` | wrappers.dfy | `Option` and `Result` |
| `MancalaGame` | mancala_game.dfy | the board, the game record, its validating setters, `GameStatus` |
| `GameService` | mancala_game_service.dfy | sowing, capture, end of game, winner, `makeMove` |
| `OnlineGame` | online_mancala_game.dfy | the session state machine |
| `GameManager` | online_game_manager.dfy | the two registry maps and their operations |
| `GameController` | online_game_controller.dfy | the state snapshot sent to clients, and each handler's outcome |

How the Java maps onto the model:
- Objects that the Java mutates in place become immutable values. Each operation returns the new value.
- A Java exception becomes a `Failure`.
- Messages that the Java sends through the messaging template become a returned list of `Event`s:
  - a broadcast to the game's topic;
  - a reply with the assigned role;
  - an error to the requester only.
- The random game id, the session id and the clock are parameters.

Sowing is a recursive function, `Sow`. Each step moves to the next cell and skips the opponent's store, so a skip never uses up a stone. Its partner is an independent closed form over the 13 cells a player sows into:
- `Drops` says how many stones each cell gains;
- `Landing` says where the last stone falls.

`SowDrops` and `SowLanding` prove that the two agree for every board, player, start and count.

## Model

| member | source | states |
|---|---|---|
| MancalaGame.NewGame | src/main/java/org/mancalgame/mancalagame/game/MancalaGame.java:39-56 | a fresh game has 4 stones in every pit and 0 in both stores, 48 stones in all; player 0 moves first, the game is not over, and the winner is -1 |
| MancalaGame.Reset | src/main/java/org/mancalgame/mancalagame/game/MancalaGame.java:59-74 | the board is rebuilt pit by pit with two loops, and the result equals the constructor's game whatever state came before |
| MancalaGame.SetBoard | src/main/java/org/mancalgame/mancalagame/game/MancalaGame.java:91-104 | accepted exactly when a board is given, it has length 14 and it has no negative entry; otherwise an error with the game untouched; on success only the board changes, to a copy of the input |
| MancalaGame.SetCurrentPlayer | src/main/java/org/mancalgame/mancalagame/game/MancalaGame.java:115-122 | accepted exactly for 0 or 1; otherwise an error naming the value; on success only the current player changes |
| MancalaGame.SetWinner | src/main/java/org/mancalgame/mancalagame/game/MancalaGame.java:142-149 | accepted exactly for -1, 0 or 1; otherwise an error naming the value; on success only the winner changes |
| MancalaGame.GetStonesInPit | src/main/java/org/mancalgame/mancalagame/game/MancalaGame.java:157-163 | returns the cell's count exactly for indices 0..13; any other index is an error naming it |
| MancalaGame.StatusNameRoundTrip | src/main/java/org/mancalgame/mancalagame/game/MancalaGame.java:224-229 | each of the four statuses is recovered from its enum name |
| MancalaGame.StatusName | src/main/java/org/mancalgame/mancalagame/controller/online/OnlineGameController.java:64 | a status is sent as its enum constant's name: a non-empty word of capital letters and underscores, which `MancalaGame.StatusNameRoundTrip` shows determines the status |
| MancalaGame.ParseStatus | src/main/java/org/mancalgame/mancalagame/game/MancalaGame.java:224-229 | a name parses only to the status that has that name |
| GameService.Next | src/main/java/org/mancalgame/mancalagame/Service/MancalaGameService.java:66-75 | the next cell sown is never the opponent's store, and it is the next position on the mover's 13-cell ring |
| GameService.Sow | src/main/java/org/mancalgame/mancalagame/Service/MancalaGameService.java:64-79 | sowing n stones adds exactly n to the board, never changes the opponent's store, never takes from a cell, and never ends in the opponent's store |
| GameService.SowDrops | src/main/java/org/mancalgame/mancalagame/Service/MancalaGameService.java:64-79 | every cell gains exactly the number of laps of the ring that reach it, as the independent closed form `Drops` counts them |
| GameService.SowLanding | src/main/java/org/mancalgame/mancalagame/Service/MancalaGameService.java:64-79 | the last stone lands at the ring position n steps after the start, as the independent closed form `Landing` gives it |
| GameService.SowFromPit | src/main/java/org/mancalgame/mancalagame/Service/MancalaGameService.java:61-79 | emptying a pit and sowing its stones conserves the total, leaves the opponent's store alone and ends at the closed-form landing cell |
| GameService.LandsInOwnStore | src/main/java/org/mancalgame/mancalagame/Service/MancalaGameService.java:122-123 | the last stone reaches the mover's own store exactly when the count modulo 13 is the distance from the pit to that store |
| GameService.Capture | src/main/java/org/mancalgame/mancalagame/Service/MancalaGameService.java:87-101 | when the last stone lands alone in one of the mover's pits and the opposite pit 12 - i is not empty, both pits are emptied and the store gains the opposite pit's stones plus 1; no other cell changes; the total is conserved |
| GameService.IsPlayerPitsEmpty | src/main/java/org/mancalgame/mancalagame/Service/MancalaGameService.java:165-177 | true exactly when the player's side holds no stones |
| GameService.CollectRemainingStones | src/main/java/org/mancalgame/mancalagame/Service/MancalaGameService.java:184-204 | every pit ends empty; each store gains its own side's stones; the total is conserved |
| GameService.DetermineWinner | src/main/java/org/mancalgame/mancalagame/Service/MancalaGameService.java:211-224 | a named winner has the strictly larger store; -1 means the stores are equal |
| GameService.IsValidPitSelection | src/main/java/org/mancalgame/mancalagame/Service/MancalaGameService.java:141-156 | valid exactly for a non-empty pit on the mover's own side |
| GameService.MakeMove | src/main/java/org/mancalgame/mancalagame/Service/MancalaGameService.java:38-132 | a finished game returns false unchanged; an invalid pit is an error naming the pit and the mover; a move is accepted exactly when the game is not over; the total is conserved; a move that ends the game leaves all pits empty, keeps the mover and names the larger store the winner; otherwise both sides still hold stones, and the mover keeps the turn exactly when the last stone reached the mover's own store, else the other player moves; how sowing, capture and the sweep shape the board is stated by `GameService.MoveEffect` |
| GameService.MoveEffect | src/main/java/org/mancalgame/mancalagame/Service/MancalaGameService.java:61-118 | for every accepted move: the stones fall as the closed form counts them, and the last one lands where it says; the game ends exactly when a side is empty after any capture; if play goes on, a capture empties the landing pit and the pit across and adds their stones to the mover's store, and no other cell changes; with no capture the board is the sown board; if the game ends, each store gains exactly its own side's remaining stones |
| GameService.ExtraTurnRule | src/main/java/org/mancalgame/mancalagame/Service/MancalaGameService.java:120-128 | a valid move that does not end the game keeps the turn exactly when the count modulo 13 equals the distance to the mover's own store |
| GameService.PlayConserves | src/main/java/org/mancalgame/mancalagame/Service/MancalaGameService.java:38-132 | any sequence of moves, valid or not, keeps the number of stones on the board and keeps the game consistent |
| GameService.FreshGameConservation | src/main/java/org/mancalgame/mancalagame/Service/MancalaGameService.java:38-132 | every game played from the start holds 48 stones, and once it is over all 48 sit in the two stores |
| GameService.OpeningMoveEarnsExtraTurn | src/main/java/org/mancalgame/mancalagame/Service/MancalaGameService.java:120-128 | on the opening board, pit 2's four stones end in store 6, and player 0 moves again |
| GameService.CaptureExample | src/main/java/org/mancalgame/mancalagame/Service/MancalaGameService.java:87-101 | a concrete capture: one stone from pit 0 lands in the empty pit 1 and takes the 5 stones across in pit 11 |
| OnlineGame.NewSession | src/main/java/org/mancalgame/mancalagame/online/OnlineMancalaGame.java:33-40 | a new session carries the given id and creation time, is waiting for a player, has no seats taken, has no rematch votes, holds a fresh game, and is consistent |
| OnlineGame.SetPlayerWantsRematch | src/main/java/org/mancalgame/mancalagame/online/OnlineMancalaGame.java:43-51 | role 0 sets only player 1's vote and role 1 only player 2's; any other role changes nothing; status is not consulted |
| OnlineGame.BothPlayersWantRematch | src/main/java/org/mancalgame/mancalagame/online/OnlineMancalaGame.java:54-56 | true exactly when both participants have voted, that is, when no further vote by role 0 or role 1 would change the session |
| OnlineGame.ResetForRematch | src/main/java/org/mancalgame/mancalagame/online/OnlineMancalaGame.java:59-65 | installs a fresh game, sets the status to in progress and clears both votes; the id, both seats and the creation time are kept |
| OnlineGame.AddPlayer | src/main/java/org/mancalgame/mancalagame/online/OnlineMancalaGame.java:68-86 | an id already seated, or a full game, gets -1 and no change; otherwise seat 1 is filled first (role 0, status kept), then seat 2 (role 1, status in progress); consistency is preserved |
| OnlineGame.RemovePlayer | src/main/java/org/mancalgame/mancalagame/online/OnlineMancalaGame.java:88-101 | returns true exactly for a seated id: that seat is emptied and the status becomes cancelled; any other id changes nothing |
| OnlineGame.MakeMove | src/main/java/org/mancalgame/mancalagame/online/OnlineMancalaGame.java:103-119 | a game that is over, not in progress, or not the caller's turn gives false and no change; a move that passes these checks goes to the engine: it fails exactly when the engine rejects the pit, passing the engine's error through, and is otherwise accepted; only the game and the status change; the status becomes finished exactly when the move succeeded and ended the game; an accepted move is the engine's move |
| OnlineGame.RemovePlayerIdempotent | src/main/java/org/mancalgame/mancalagame/online/OnlineMancalaGame.java:88-101 | leaving twice is the same as leaving once, and the second call reports false |
| OnlineGame.JoinTwiceRejected | src/main/java/org/mancalgame/mancalagame/online/OnlineMancalaGame.java:69-72 | a second join by the same id is refused and changes nothing |
| OnlineGame.JoinOrder | src/main/java/org/mancalgame/mancalagame/online/OnlineMancalaGame.java:68-86 | host, guest and a third party get roles 0, 1 and -1 in that order; only the second join starts the game |
| OnlineGame.OutOfTurnRejected | src/main/java/org/mancalgame/mancalagame/online/OnlineMancalaGame.java:108-110 | a move by any role other than the player to move is refused with the session unchanged |
| GameManager.EmptyRegistryValid | src/main/java/org/mancalgame/mancalagame/online/OnlineGameManager.java:23-24 | the empty registry satisfies the registry invariant |
| GameManager.CreateGame | src/main/java/org/mancalgame/mancalagame/online/OnlineGameManager.java:34-39 | a new waiting session is filed under its own id; every other game and every mapping is unchanged; the invariant holds after creation under a fresh id |
| GameManager.AddPlayerToGame | src/main/java/org/mancalgame/mancalagame/online/OnlineGameManager.java:52-65 | an unknown game, or a join the session refuses, gives nothing and leaves the registry unchanged; a success stores the joined session and maps the caller to the game; the invariant is preserved |
| GameManager.CreateAndAddPlayer | src/main/java/org/mancalgame/mancalagame/online/OnlineGameManager.java:42-46 | the new game holds the caller in seat 1, is waiting and is mapped from the caller |
| GameManager.RemovePlayer | src/main/java/org/mancalgame/mancalagame/online/OnlineGameManager.java:67-91 | an unmapped id changes nothing; a mapping to a vanished game, or to a game the caller is not seated in, is only dropped; a seated caller's game is cancelled and removed, and the mappings of both the leaver and the remaining player are dropped, with the cancelled session returned; the invariant is preserved |
| GameManager.GetPlayerRoleInGame | src/main/java/org/mancalgame/mancalagame/online/OnlineGameManager.java:93-99 | 0 exactly for seat 1 of a live game, 1 exactly for seat 2, and -1 exactly for a non-participant or an unknown game |
| GameManager.CleanupStaleGames | src/main/java/org/mancalgame/mancalagame/online/OnlineGameManager.java:101-111 | keeps exactly the games that are not waiting-and-older-than-600000-ms, unchanged; the session map is untouched; the invariant is preserved |
| GameManager.RoleAfterJoin | src/main/java/org/mancalgame/mancalagame/online/OnlineGameManager.java:52-65 | after a successful join, the role lookup reports the seat the session gave the caller |
| GameManager.RemovePlayerIdempotent | src/main/java/org/mancalgame/mancalagame/online/OnlineGameManager.java:67-69 | a second disconnect of the same id changes nothing |
| GameManager.CancelledGameUnindexed | src/main/java/org/mancalgame/mancalagame/online/OnlineGameManager.java:72-86 | after a cancellation, no game and no mapping refers to the cancelled game id |
| GameManager.SweepLeavesDanglingMapping | src/main/java/org/mancalgame/mancalagame/online/OnlineGameManager.java:101-111 | a lone host's game survives at exactly the timeout and is swept one millisecond later; the host stays mapped to the vanished game until a disconnect drops only that mapping |
| GameController.SnapshotOf | src/main/java/org/mancalgame/mancalagame/controller/online/OnlineGameController.java:57-67 | the snapshot carries the session's id, board, player, game-over flag, winner and votes; the board has 14 non-negative entries; the player is 0 or 1; the winner is -1, 0 or 1; the status name parses back to the session's status |
| GameController.HostGame | src/main/java/org/mancalgame/mancalagame/controller/online/OnlineGameController.java:104-109 | the caller is seated in a new waiting game and mapped to it, and every other game is unchanged; the role lookup gives 0; the only message is a reply with role 0 and that game's snapshot; on a fresh id the handlers' invariant is preserved |
| GameController.JoinGame | src/main/java/org/mancalgame/mancalagame/controller/online/OnlineGameController.java:113-121 | a refused join sends only an error to the caller and changes nothing; a successful one stores the session's join result for that game, leaves every other game unchanged, maps the caller, broadcasts the snapshot, and replies with role 1; the invariant is preserved |
| GameController.JoinReportsActualRole | src/main/java/org/mancalgame/mancalagame/controller/online/OnlineGameController.java:113-121 | while every live game has its host seated, the role 1 that a successful join reports is the joiner's real seat |
| GameController.RequestRematch | src/main/java/org/mancalgame/mancalagame/controller/online/OnlineGameController.java:125-140 | an unknown game gets no change and no message; otherwise the caller's vote is recorded, the game is reset exactly when both votes are in, keeping its id, both seats and its creation time, only that game changes, a snapshot is broadcast either way, and a non-participant's request changes nothing unless both votes were already in; the invariant is preserved |
| GameController.MakeMove | src/main/java/org/mancalgame/mancalagame/controller/online/OnlineGameController.java:142-157 | an unknown game gets no change and no message; each request sends at most one message; an invalid pit sends the engine's error, only to the requester, with no change; a move the session refuses (game over, not in progress, wrong turn) changes nothing and sends nothing; a broadcast is sent exactly when the session accepts the move, and the moved session is stored |
| GameController.MakeMovePreservesValid | src/main/java/org/mancalgame/mancalagame/controller/online/OnlineGameController.java:142-157 | a move request, accepted or not, keeps the handlers' invariant |
| GameController.NonParticipantCannotMove | src/main/java/org/mancalgame/mancalagame/controller/online/OnlineGameController.java:148-149 | a connection without a seat in the game gets no change and no message |
| GameController.HandleDisconnect | src/main/java/org/mancalgame/mancalagame/controller/online/OnlineGameController.java:172-176 | the registry changes as the manager's removal says; at most one message goes out, and it goes exactly when a game was cancelled: a broadcast on the leaver's game topic, carrying the snapshot of that game with the leaver's seat cleared and the status cancelled; that game is no longer live; the invariant is preserved |
| GameController.SweepPreservesValid | src/main/java/org/mancalgame/mancalagame/online/OnlineGameManager.java:101-111 | the stale sweep keeps the handlers' invariant |

## Left out

- Concurrency: the `synchronized` blocks, the concurrent maps and the scheduler. Each operation is one atomic step.
- Logging and JSON serialisation.
- Game ids (`UUID.randomUUID`) and the clock (`System.currentTimeMillis`) are parameters. `GameController.HostGame` preserves the invariant only for a fresh id, which is what a random UUID stands for.
- `getBoard`'s defensive copy: boards are values, so no caller can change a game's board through a returned one.
- `setGameOver` is a plain field write. The model writes the field directly where `makeMove` sets it.
- `createNewGame` in the service only constructs a game, which `MancalaGame.NewGame` models.
- The service's null-game check: every game in the model exists.
- Session ids are never null, so the source's null-safe equality on seats is plain string equality.
- Java `int` overflow: the board always holds 48 stones, so counts are unbounded naturals.
- The browser scripts, the Spring WebSocket configuration, the offline HTTP controller, and the connect-logging and exception-logging glue of the online controller. The exception handler only appears as the error a refused join sends.
- The text of error messages: an error is modelled by its kind and the values it names.

## Notes on the source

- `requestRematch` broadcasts the snapshot after every vote for a known game, not only after a reset (OnlineGameController.java:125-140).
- On disconnect the manager broadcasts the cancelled state; no message goes to the remaining player's private queue (OnlineGameManager.java:72-78).
- `joinGame` always reports role 1. This is right because `hostGame` seats the host as soon as it creates a game; `GameController.JoinReportsActualRole` proves this under the handlers' invariant.
- The stale sweep leaves mappings to swept games behind. The registry invariant therefore only constrains mappings to live games, and `GameManager.SweepLeavesDanglingMapping` shows such a mapping arising and being dropped.
- A non-participant's rematch vote is ignored, but if both votes were already recorded, the request still resets the game. `GameController.RequestRematch` states this case.
