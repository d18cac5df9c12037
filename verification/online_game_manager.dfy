/** The registry of online sessions (online/OnlineGameManager.java): live
    sessions by game id, and the game each connection last joined. Each
    operation is one atomic step; the clock and fresh ids are inputs. */
module GameManager {
  import opened Wrappers
  import opened MancalaGame
  import opened OnlineGame

  /** A session still waiting this long after creation is stale: ten
      minutes, in milliseconds. */
  const StaleGameTimeout := 600000

  datatype Registry = Registry(activeGames: map<GameId, Session>, sessionToGame: map<SessionId, GameId>)

  /** A session that a departure cancelled and removed, as it was at removal;
      the source broadcasts its state on the game's topic. */
  datatype Cancellation = Cancellation(gameId: GameId, session: Session)

  function EmptyRegistry(): Registry {
    Registry(map[], map[])
  }

  /** What the registry keeps true: each session is filed under its own id
      and is itself valid, and a connection mapped to a live game is one of
      its participants. A mapping may point at a game that is gone: the
      stale sweep leaves such mappings behind. */
  predicate Valid(r: Registry) {
    && (forall gid :: gid in r.activeGames ==>
          r.activeGames[gid].gameId == gid && OnlineGame.Valid(r.activeGames[gid]))
    && (forall sid :: sid in r.sessionToGame && r.sessionToGame[sid] in r.activeGames ==>
          IsParticipant(r.activeGames[r.sessionToGame[sid]], sid))
  }

  /** A game id that no session and no mapping uses yet. */
  predicate IsFreshId(r: Registry, id: GameId) {
    id !in r.activeGames && id !in r.sessionToGame.Values
  }

  lemma EmptyRegistryValid()
    ensures Valid(EmptyRegistry())
  {
  }

  function CreateGame(r: Registry, id: GameId, now: int): (res: (Session, Registry))
    ensures res.0 == NewSession(id, now)
    ensures res.1.activeGames.Keys == r.activeGames.Keys + {id} && res.1.activeGames[id] == res.0
    ensures forall gid :: gid in r.activeGames && gid != id ==> res.1.activeGames[gid] == r.activeGames[gid]
    ensures res.1.sessionToGame == r.sessionToGame
    ensures Valid(r) && IsFreshId(r, id) ==> Valid(res.1)
  {
    var created := NewSession(id, now);
    (created, r.(activeGames := r.activeGames[id := created]))
  }

  /** Seats a connection in a live game and records where it went. An
      unknown game, a repeat join or a full game gives nothing and changes
      nothing. */
  function AddPlayerToGame(r: Registry, gid: GameId, sid: SessionId): (res: (Option<Session>, Registry))
    ensures res.0.None? <==>
      gid !in r.activeGames || IsParticipant(r.activeGames[gid], sid) || IsFull(r.activeGames[gid])
    ensures res.0.None? ==> res.1 == r
    ensures res.0.Some? ==>
      && res.0.value == AddPlayer(r.activeGames[gid], sid).1
      && IsParticipant(res.0.value, sid)
      && res.1.activeGames == r.activeGames[gid := res.0.value]
      && res.1.sessionToGame == r.sessionToGame[sid := gid]
    ensures Valid(r) ==> Valid(res.1)
  {
    if gid !in r.activeGames then (None, r)
    else
      var (role, joined) := AddPlayer(r.activeGames[gid], sid);
      if role != -1 then (Some(joined), Registry(r.activeGames[gid := joined], r.sessionToGame[sid := gid]))
      else (None, r)
  }

  /** Creates a game and seats the caller as its host. */
  function CreateAndAddPlayer(r: Registry, id: GameId, sid: SessionId, now: int): (res: (Session, Registry))
    ensures res.0.player1 == Some(sid) && res.0.player2.None? && res.0.status == WaitingForPlayer
    ensures res.0.gameId == id && res.0.game == NewGame()
    ensures res.1.activeGames == r.activeGames[id := res.0]
    ensures res.1.sessionToGame == r.sessionToGame[sid := id]
    ensures Valid(r) && IsFreshId(r, id) ==> Valid(res.1)
  {
    var (_, created) := CreateGame(r, id, now);
    var (_, joined) := AddPlayerToGame(created, id, sid);
    (joined.activeGames[id], joined)
  }

  /** A connection goes away. Its mapping is dropped; if it sat in a live
      game, that game is cancelled and removed, and the other participant's
      mapping is dropped too. */
  function RemovePlayer(r: Registry, sid: SessionId): (res: (Option<Cancellation>, Registry))
    ensures sid !in r.sessionToGame ==> res == (None, r)
    ensures sid !in res.1.sessionToGame && res.1.sessionToGame.Keys <= r.sessionToGame.Keys
    ensures sid in r.sessionToGame && r.sessionToGame[sid] !in r.activeGames ==>
      res == (None, r.(sessionToGame := r.sessionToGame - {sid}))
    ensures (sid in r.sessionToGame && r.sessionToGame[sid] in r.activeGames
             && !IsParticipant(r.activeGames[r.sessionToGame[sid]], sid)) ==>
      res == (None, r.(sessionToGame := r.sessionToGame - {sid}))
    ensures res.0.Some? <==>
      sid in r.sessionToGame && r.sessionToGame[sid] in r.activeGames
      && IsParticipant(r.activeGames[r.sessionToGame[sid]], sid)
    ensures res.0.Some? ==>
      var gid := r.sessionToGame[sid];
      var left := res.0.value.session;
      && res.0.value.gameId == gid
      && left == OnlineGame.RemovePlayer(r.activeGames[gid], sid).1
      && left.status == Cancelled
      && res.1.activeGames == r.activeGames - {gid}
      && (forall other :: IsParticipant(left, other) ==> other !in res.1.sessionToGame)
      && (forall k :: k in r.sessionToGame && k != sid && !IsParticipant(left, k) ==>
            k in res.1.sessionToGame && res.1.sessionToGame[k] == r.sessionToGame[k])
    ensures Valid(r) ==> Valid(res.1)
  {
    if sid !in r.sessionToGame then (None, r)
    else
      var gid := r.sessionToGame[sid];
      var unmapped := r.sessionToGame - {sid};
      if gid !in r.activeGames then (None, r.(sessionToGame := unmapped))
      else
        var (wasIn, left) := OnlineGame.RemovePlayer(r.activeGames[gid], sid);
        if wasIn && left.status == Cancelled then
          var remaining := if left.player1.Some? then left.player1 else left.player2;
          var mapping := if remaining.Some? then unmapped - {remaining.value} else unmapped;
          (Some(Cancellation(gid, left)), Registry(r.activeGames - {gid}, mapping))
        else
          (None, r.(sessionToGame := unmapped))
  }

  /** The role a connection holds in a game: 0 for the first slot, 1 for the
      second, -1 for anyone else or an unknown game. */
  function GetPlayerRoleInGame(r: Registry, gid: GameId, sid: SessionId): (role: int)
    ensures role == 0 <==> gid in r.activeGames && r.activeGames[gid].player1 == Some(sid)
    ensures role == 1 <==>
      gid in r.activeGames && r.activeGames[gid].player1 != Some(sid) && r.activeGames[gid].player2 == Some(sid)
    ensures role == -1 <==> !(gid in r.activeGames && IsParticipant(r.activeGames[gid], sid))
  {
    if gid !in r.activeGames then -1
    else if r.activeGames[gid].player1 == Some(sid) then 0
    else if r.activeGames[gid].player2 == Some(sid) then 1
    else -1
  }

  predicate IsStale(s: Session, now: int) {
    s.status == WaitingForPlayer && now - s.creationTime > StaleGameTimeout
  }

  /** Drops every session that has waited for a second participant for more
      than the timeout. The connection-to-game mappings are left as they
      are, so a swept host stays mapped to a game that no longer exists. */
  function CleanupStaleGames(r: Registry, now: int): (res: Registry)
    ensures res.sessionToGame == r.sessionToGame
    ensures forall gid :: gid in res.activeGames <==> gid in r.activeGames && !IsStale(r.activeGames[gid], now)
    ensures forall gid :: gid in res.activeGames ==> res.activeGames[gid] == r.activeGames[gid]
    ensures Valid(r) ==> Valid(res)
  {
    r.(activeGames := map gid | gid in r.activeGames && !IsStale(r.activeGames[gid], now) :: r.activeGames[gid])
  }

  /** After a join, the role lookup reports the slot the join assigned. */
  lemma RoleAfterJoin(r: Registry, gid: GameId, sid: SessionId)
    requires Valid(r)
    requires AddPlayerToGame(r, gid, sid).0.Some?
    ensures GetPlayerRoleInGame(AddPlayerToGame(r, gid, sid).1, gid, sid) == AddPlayer(r.activeGames[gid], sid).0
  {
  }

  /** A disconnect repeated, or for a connection never seen, changes nothing. */
  lemma RemovePlayerIdempotent(r: Registry, sid: SessionId)
    ensures var once := RemovePlayer(r, sid).1;
      RemovePlayer(once, sid) == (None, once)
  {
  }

  /** Once a departure cancels a game, no connection is mapped to it any more. */
  lemma CancelledGameUnindexed(r: Registry, sid: SessionId)
    requires Valid(r)
    requires RemovePlayer(r, sid).0.Some?
    ensures var (c, after) := RemovePlayer(r, sid);
      c.value.gameId !in after.activeGames
      && forall k :: k in after.sessionToGame ==> after.sessionToGame[k] != c.value.gameId
  {
  }

  /** A host whose game goes stale stays mapped to the vanished game, and a
      later disconnect of that host only drops the mapping. The sweep is
      strict: at exactly the timeout the game survives. */
  lemma SweepLeavesDanglingMapping(gid: GameId, host: SessionId, created: int)
    ensures var r := CreateAndAddPlayer(EmptyRegistry(), gid, host, created).1;
      var kept := CleanupStaleGames(r, created + StaleGameTimeout);
      var swept := CleanupStaleGames(r, created + StaleGameTimeout + 1);
      && gid in kept.activeGames
      && gid !in swept.activeGames
      && host in swept.sessionToGame && swept.sessionToGame[host] == gid
      && RemovePlayer(swept, host) == (None, Registry(swept.activeGames, map[]))
  {
    var r := CreateAndAddPlayer(EmptyRegistry(), gid, host, created).1;
    var swept := CleanupStaleGames(r, created + StaleGameTimeout + 1);
    assert swept.sessionToGame - {host} == map[];
  }
}
