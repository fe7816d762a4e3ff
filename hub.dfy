/**
 * The hub (server/hub.go): the registry of live games keyed by game id, the
 * player-to-game assignment, and the player connections; game creation, the
 * join handler, and the reaping of a finished game.
 *
 * The two sync.Maps and the mutex-protected connection map become three map
 * fields updated one operation at a time; HTTP parsing and responses, the
 * WebSocket upgrade and the goroutines are not modelled.
 */
module Hub {
  import opened Protocol
  import opened Room

  /** The bound of the random game id: rand.Intn(10000). */
  const GameIdBound: nat := 10000

  /** The game id a creation request gets from its random draw. */
  function GameIdOf(draw: nat): (id: int)
    ensures 0 <= id < GameIdBound
  {
    draw % GameIdBound
  }

  /** How the join handler ends. */
  datatype JoinResult =
    | Admitted  // seated in the game and counted on its join barrier
    | NotFound  // the player is not assigned to the requested game (404)
    | Aborted   // the handler panics: the game is gone, or its join barrier is already released

  /** How the reaping of a finished game ends. */
  datatype ReapResult =
    | Reaped    // every player's entries and then the game are removed
    | Crashed   // the reaper panics: no game under the id, or a roster slot without a connection

  /** The ids in the first n roster slots. */
  function Leading(ids: seq<string>, n: nat): (r: set<string>)
    requires n <= |ids|
    ensures forall p :: p in r <==> exists i :: 0 <= i < n && ids[i] == p
  {
    set i | 0 <= i < n :: ids[i]
  }

  class Registry {
    var games: map<int, Game>
    var playerGameMap: map<string, int>
    var connections: map<string, Conn>

    /** The objects a join to game k may change. */
    ghost function Footprint(k: int): set<object>
      reads this
    {
      if k in games then {games[k], games[k].players} else {}
    }

    /**
     * Every game is valid and stored under its own id, its joins and its pending
     * barrier count add up to its roster size, and no two games share a roster.
     */
    ghost predicate Valid()
      reads this, games.Values, set k | k in games :: games[k].players
    {
      && (forall k :: k in games ==> games[k].Valid() && games[k].id == k)
      && (forall k :: k in games ==> games[k].onlinePlayers + games[k].joinPending == games[k].numberOfPlayers)
      && (forall a, b :: a in games && b in games && a != b ==> games[a].players != games[b].players)
    }

    /** The handler's admission test: the player is assigned to exactly this game. */
    predicate Admits(playerID: string, gameID: int)
      reads this
    {
      playerID in playerGameMap && playerGameMap[playerID] == gameID
    }

    /** InitHub: no games, no assignments, no connections. */
    constructor InitHub()
      ensures Valid()
      ensures games == map[] && playerGameMap == map[] && connections == map[]
    {
      games := map[];
      playerGameMap := map[];
      connections := map[];
    }

    /**
     * CreateGame: a new game with one seat per listed player under the id drawn
     * below 10000, stored over any game already under that id, and every listed
     * player assigned to it (over any earlier assignment).
     */
    method CreateGame(playerIDs: seq<string>, rounds: int, draw: nat) returns (gameID: int, game: Game)
      requires Valid()
      modifies this
      ensures Valid() && fresh(game) && fresh(game.players)
      ensures gameID == GameIdOf(draw) && game.id == gameID
      ensures game.numberOfPlayers == |playerIDs| && game.numberOfRounds == rounds
      ensures game.onlinePlayers == 0 && game.scores == map[] && game.joinPending == |playerIDs|
      ensures !game.stopRequested && game.finishCount == 0
      ensures forall i :: 0 <= i < game.players.Length ==> game.players[i] == Player("")
      ensures games == old(games)[gameID := game]
      ensures forall p :: p in playerGameMap <==> p in old(playerGameMap) || p in playerIDs
      ensures forall p :: p in playerIDs ==> playerGameMap[p] == gameID && Admits(p, gameID)
      ensures forall p :: p in old(playerGameMap) && p !in playerIDs ==> playerGameMap[p] == old(playerGameMap)[p]
      ensures connections == old(connections)
    {
      gameID := GameIdOf(draw);
      game := new Game.New(|playerIDs|, rounds, gameID);
      games := games[gameID := game];
      label Stored:
      var i := 0;
      while i < |playerIDs|
        invariant i <= |playerIDs| && games == old(games)[gameID := game] && unchanged@Stored(game, game.players)
        invariant forall p :: p in playerGameMap <==> p in old(playerGameMap) || p in playerIDs[..i]
        invariant forall p :: p in playerIDs[..i] ==> playerGameMap[p] == gameID
        invariant forall p :: p in old(playerGameMap) && p !in playerIDs[..i] ==> playerGameMap[p] == old(playerGameMap)[p]
        invariant connections == old(connections)
      {
        assert playerIDs[..i + 1] == playerIDs[..i] + [playerIDs[i]];
        playerGameMap := playerGameMap[playerIDs[i] := gameID];
        i := i + 1;
      }
      assert playerIDs[..i] == playerIDs;
    }

    /**
     * The join handler: a player not assigned to the requested game is refused
     * and nothing changes. Otherwise its connection is recorded first; then a
     * missing game aborts the handler, a full game aborts it on the released join
     * barrier (its roster unchanged), and any other game seats the player and
     * counts the join.
     */
    method Handler(playerID: string, gameID: int, conn: Conn) returns (outcome: JoinResult)
      requires Valid()
      modifies this, Footprint(gameID)
      ensures Valid()
      ensures games == old(games) && playerGameMap == old(playerGameMap)
      ensures !old(Admits(playerID, gameID)) ==>
        && outcome == NotFound && connections == old(connections)
        && (gameID in games ==> unchanged(games[gameID], games[gameID].players))
      ensures old(Admits(playerID, gameID)) ==> connections == old(connections)[playerID := conn]
      ensures old(Admits(playerID, gameID)) && gameID !in games ==> outcome == Aborted
      ensures old(Admits(playerID, gameID)) && gameID in games && old(games[gameID].Full()) ==>
        && outcome == Aborted
        && unchanged(games[gameID], games[gameID].players)
      ensures old(Admits(playerID, gameID)) && gameID in games && !old(games[gameID].Full()) ==>
        && outcome == Admitted
        && games[gameID].players[old(games[gameID].onlinePlayers)] == Player(playerID)
        && games[gameID].onlinePlayers == old(games[gameID].onlinePlayers) + 1
        && games[gameID].scores == old(games[gameID].scores)[playerID := 0]
        && games[gameID].joinPending == old(games[gameID].joinPending) - 1
        && games[gameID].stopRequested == old(games[gameID].stopRequested)
        && games[gameID].finishCount == old(games[gameID].finishCount)
        && forall i :: 0 <= i < games[gameID].players.Length && i != old(games[gameID].onlinePlayers) ==>
             games[gameID].players[i] == old(games[gameID].players[i])
    {
      if !Admits(playerID, gameID) {
        return NotFound;
      }
      connections := connections[playerID := conn];
      if gameID !in games {
        return Aborted;
      }
      outcome := Enter(playerID, gameID);
    }

    /** The admitted player's part in the game: addPlayer, then the join barrier's Done, which aborts on a full game. */
    method Enter(playerID: string, gameID: int) returns (outcome: JoinResult)
      requires Valid() && gameID in games
      modifies Footprint(gameID)
      ensures Valid()
      ensures old(games[gameID].Full()) ==>
        && outcome == Aborted
        && unchanged(games[gameID], games[gameID].players)
      ensures !old(games[gameID].Full()) ==>
        && outcome == Admitted
        && games[gameID].players[old(games[gameID].onlinePlayers)] == Player(playerID)
        && games[gameID].onlinePlayers == old(games[gameID].onlinePlayers) + 1
        && games[gameID].scores == old(games[gameID].scores)[playerID := 0]
        && games[gameID].joinPending == old(games[gameID].joinPending) - 1
        && games[gameID].stopRequested == old(games[gameID].stopRequested)
        && games[gameID].finishCount == old(games[gameID].finishCount)
        && forall i :: 0 <= i < games[gameID].players.Length && i != old(games[gameID].onlinePlayers) ==>
             games[gameID].players[i] == old(games[gameID].players[i])
    {
      var game := games[gameID];
      assert forall k :: k in games && k != gameID ==> games[k] != game && games[k].players != game.players;
      game.AddPlayer(Player(playerID));
      var ok := game.JoinDone();
      outcome := if ok then Admitted else Aborted;
    }

    /**
     * The reaper (start and finishGame): the game under the id is looked up, and
     * for each roster slot in order its connection is dropped and the player's
     * assignment and connection are deleted; then the game is deleted. No game
     * under the id, or a slot nobody joined (no connection to drop), crashes it.
     */
    method Reap(id: int) returns (outcome: ReapResult)
      requires Valid()
      modifies this
      ensures Valid()
      ensures id !in old(games) ==>
        outcome == Crashed && games == old(games) && playerGameMap == old(playerGameMap) && connections == old(connections)
      ensures id in old(games) ==>
        var g := old(games)[id];
        var gone := Leading(IdsOf(g.players[..]), g.onlinePlayers);
        && outcome == (if g.Full() then Reaped else Crashed)
        && games == (if g.Full() then old(games) - {id} else old(games))
        && playerGameMap == old(playerGameMap) - gone
        && connections == old(connections) - gone
    {
      if id !in games {
        return Crashed;
      }
      var game := games[id];
      var online := game.onlinePlayers;
      var ids := IdsOf(game.players[..]);
      DropPlayers(ids, online);
      if online < game.numberOfPlayers {
        return Crashed;
      }
      games := games - {id};
      outcome := Reaped;
    }

    /** The reaper's loop over the first n roster slots: each player's assignment and connection are deleted. */
    method DropPlayers(ids: seq<string>, n: nat)
      requires n <= |ids|
      modifies this`playerGameMap, this`connections
      ensures playerGameMap == old(playerGameMap) - Leading(ids, n)
      ensures connections == old(connections) - Leading(ids, n)
    {
      var i := 0;
      while i < n
        invariant i <= n
        invariant playerGameMap == old(playerGameMap) - Leading(ids, i)
        invariant connections == old(connections) - Leading(ids, i)
      {
        assert Leading(ids, i + 1) == Leading(ids, i) + {ids[i]};
        playerGameMap := playerGameMap - {ids[i]};
        connections := connections - {ids[i]};
        i := i + 1;
      }
    }
  }

}
