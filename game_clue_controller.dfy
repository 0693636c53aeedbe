/** Handlers of `/games-clues`. An association refers to a game and a clue:
    creating checks both before writing, updating writes first and checks
    afterwards. */
module GameClueController {
  import opened Tables
  import opened Http
  import opened GameClues
  import opened Games
  import opened Clues

  /** `getAllGameClues`: 200 with the whole table. */
  method GetAllGameClues(gameClues: GameClueService) returns (resp: Response<seq<GameClue>>)
    requires gameClues.Valid()
    ensures resp == Response(200, Json(gameClues.GetAllGameClues()))
  {
    var all := gameClues.GetAllGameClues();
    resp := Response(200, Json(all));
  }

  /** `getGameClueById`: 404 when no association has key `gcid`, otherwise 200 with it. */
  method GetGameClueById(gameClues: GameClueService, gcid: Id) returns (resp: Response<GameClue>)
    requires gameClues.Valid()
    ensures gcid !in gameClues.rows ==> resp == Response(404, Message("Game clue not found"))
    ensures gcid in gameClues.rows ==> resp == Response(200, Json(gameClues.rows[gcid]))
  {
    var gameClue := gameClues.GetGameClueById(gcid);
    if gameClue.None? {
      return Response(404, Message("Game clue not found"));
    }
    resp := Response(200, Json(gameClue.value));
  }

  /** `createGameClue`: looks up the game and the clue first; when either is
      missing answers 404 and writes nothing, otherwise inserts one
      association and answers 201. */
  method CreateGameClue(gameClues: GameClueService, games: GameService, clues: ClueService,
                        gameId: Id, clueId: Id)
    returns (resp: Response<GameClue>)
    requires gameClues.Valid() && games.Valid() && clues.Valid()
    modifies gameClues
    ensures gameClues.Valid()
    ensures gameId !in games.rows || clueId !in clues.rows ==>
      resp == Response(404, Message("Game or clue not found")) &&
      gameClues.rows == old(gameClues.rows) && gameClues.nextId == old(gameClues.nextId)
    ensures gameId in games.rows && clueId in clues.rows ==>
      resp.status == 201 && resp.body.Json? &&
      var gc := resp.body.value;
      gc == GameClue(gc.id, gameId, clueId) &&
      gc.id == old(gameClues.nextId) && gameClues.nextId == old(gameClues.nextId) + 1 && gc.id !in old(gameClues.rows) &&
      gameClues.rows == old(gameClues.rows)[gc.id := gc]
  {
    var game := games.GetGameById(gameId);
    var clue := clues.GetClueById(clueId);
    if game.None? || clue.None? {
      return Response(404, Message("Game or clue not found"));
    }
    var created := gameClues.CreateGameClue(gameId, clueId);
    resp := Response(201, Json(created));
  }

  /** `updateGameClue`: writes first. 404 when no association has key `gcid`;
      otherwise the row is overwritten and only then are the game and the clue
      looked up, so a missing one gives 404 after the row has changed. */
  method UpdateGameClue(gameClues: GameClueService, games: GameService, clues: ClueService,
                        gcid: Id, gameId: Id, clueId: Id)
    returns (resp: Reply)
    requires gameClues.Valid() && games.Valid() && clues.Valid()
    modifies gameClues
    ensures gameClues.Valid() && gameClues.nextId == old(gameClues.nextId)
    ensures gameClues.rows == if gcid in old(gameClues.rows) then old(gameClues.rows)[gcid := GameClue(gcid, gameId, clueId)]
                              else old(gameClues.rows)
    ensures resp ==
      if gcid !in old(gameClues.rows) then Response(404, Message("Game clue not found or no changes made"))
      else if gameId !in games.rows || clueId !in clues.rows then Response(404, Message("Game or clue not found"))
      else Response(200, Message("Game clue updated successfully"))
  {
    var success := gameClues.UpdateGameClue(gcid, gameId, clueId);
    if !success {
      return Response(404, Message("Game clue not found or no changes made"));
    }
    var game := games.GetGameById(gameId);
    var clue := clues.GetClueById(clueId);
    if game.None? || clue.None? {
      return Response(404, Message("Game or clue not found"));
    }
    resp := Response(200, Message("Game clue updated successfully"));
  }

  /** `deleteGameClue`: 404 exactly when nothing was deleted, otherwise 200. */
  method DeleteGameClue(gameClues: GameClueService, gcid: Id) returns (resp: Reply)
    requires gameClues.Valid()
    modifies gameClues
    ensures gameClues.Valid() && gameClues.nextId == old(gameClues.nextId)
    ensures gameClues.rows == old(gameClues.rows) - {gcid}
    ensures resp == if gcid in old(gameClues.rows) then Response(200, Message("Game clue deleted successfully"))
                    else Response(404, Message("Game clue not found"))
  {
    var success := gameClues.DeleteGameClue(gcid);
    if !success {
      return Response(404, Message("Game clue not found"));
    }
    resp := Response(200, Message("Game clue deleted successfully"));
  }
}
