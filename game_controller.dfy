/** Handlers of `/games`: one call into the game service, then a status. */
module GameController {
  import opened Tables
  import opened Http
  import opened Games

  /** `getAllGames`: 200 with the whole table. */
  method GetAllGames(games: GameService) returns (resp: Response<seq<Game>>)
    requires games.Valid()
    ensures resp == Response(200, Json(games.GetAllGames()))
  {
    var all := games.GetAllGames();
    resp := Response(200, Json(all));
  }

  /** `getGameById`: 404 when no game has key `id`, otherwise 200 with that game. */
  method GetGameById(games: GameService, id: Id) returns (resp: Response<Game>)
    requires games.Valid()
    ensures id !in games.rows ==> resp == Response(404, Message("Game not found"))
    ensures id in games.rows ==> resp == Response(200, Json(games.rows[id]))
  {
    var game := games.GetGameById(id);
    if game.None? {
      return Response(404, Message("Game not found"));
    }
    resp := Response(200, Json(game.value));
  }

  /** `createGame`: forwards name, type, description and difficulty and
      answers 201 with the created game. */
  method CreateGame(games: GameService, name: string, gameType: string, desc: string, diff: string)
    returns (resp: Response<Game>)
    requires games.Valid()
    modifies games
    ensures games.Valid()
    ensures resp.status == 201 && resp.body.Json?
    ensures var g := resp.body.value;
      g == Game(g.id, name, gameType, desc, diff) &&
      g.id == old(games.nextId) && games.nextId == old(games.nextId) + 1 && g.id !in old(games.rows) &&
      games.rows == old(games.rows)[g.id := g]
  {
    var created := games.CreateGame(name, gameType, desc, diff);
    resp := Response(201, Json(created));
  }

  /** `updateGame`: 404 exactly when the service reports that no row was
      updated, otherwise 200. */
  method UpdateGame(games: GameService, id: Id, name: string, gameType: string, desc: string, diff: string)
    returns (resp: Reply)
    requires games.Valid()
    modifies games
    ensures games.Valid() && games.nextId == old(games.nextId)
    ensures id !in old(games.rows) ==>
      resp == Response(404, Message("Game not found or no changes made")) && games.rows == old(games.rows)
    ensures id in old(games.rows) ==>
      resp == Response(200, Message("Game updated successfully")) &&
      games.rows == old(games.rows)[id := Game(id, name, gameType, desc, diff)]
  {
    var success := games.UpdateGame(id, name, gameType, desc, diff);
    if !success {
      return Response(404, Message("Game not found or no changes made"));
    }
    resp := Response(200, Message("Game updated successfully"));
  }

  /** `deleteGame`: 404 exactly when the service reports that nothing was
      deleted, otherwise 200. */
  method DeleteGame(games: GameService, id: Id) returns (resp: Reply)
    requires games.Valid()
    modifies games
    ensures games.Valid() && games.nextId == old(games.nextId)
    ensures games.rows == old(games.rows) - {id}
    ensures resp == if id in old(games.rows) then Response(200, Message("Game deleted successfully"))
                    else Response(404, Message("Game not found"))
  {
    var success := games.DeleteGame(id);
    if !success {
      return Response(404, Message("Game not found"));
    }
    resp := Response(200, Message("Game deleted successfully"));
  }
}
