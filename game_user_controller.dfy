/** Handlers of `/games-users`. A play record refers to a game and a user:
    creating checks both before writing, updating writes first and checks
    afterwards. */
module GameUserController {
  import opened Tables
  import opened Http
  import opened GameUsers
  import opened Games
  import opened Users

  /** `getAllGameUsers`: 200 with the whole table. */
  method GetAllGameUsers(gameUsers: GameUserService) returns (resp: Response<seq<GameUser>>)
    requires gameUsers.Valid()
    ensures resp == Response(200, Json(gameUsers.GetAllGameUsers()))
  {
    var all := gameUsers.GetAllGameUsers();
    resp := Response(200, Json(all));
  }

  /** `getGameUserById`: 404 when no record has key `guid`, otherwise 200 with it. */
  method GetGameUserById(gameUsers: GameUserService, guid: Id) returns (resp: Response<GameUser>)
    requires gameUsers.Valid()
    ensures guid !in gameUsers.rows ==> resp == Response(404, Message("Game user not found"))
    ensures guid in gameUsers.rows ==> resp == Response(200, Json(gameUsers.rows[guid]))
  {
    var gameUser := gameUsers.GetGameUserById(guid);
    if gameUser.None? {
      return Response(404, Message("Game user not found"));
    }
    resp := Response(200, Json(gameUser.value));
  }

  /** `createGameUser`: looks up the game and the user first; when either is
      missing answers 404 and writes nothing. Otherwise inserts one record
      with score 0 and answers 201 with the service's result, which carries
      the score from the body. A `date_c` in the body is not read. */
  method CreateGameUser(gameUsers: GameUserService, games: GameService, users: UserService,
                        gameId: Id, userId: Id, score: int, status: string,
                        dateC: Option<Timestamp>, now: Timestamp)
    returns (resp: Response<CreatedGameUser>)
    requires gameUsers.Valid() && games.Valid() && users.Valid()
    modifies gameUsers
    ensures gameUsers.Valid()
    ensures gameId !in games.rows || userId !in users.rows ==>
      resp == Response(404, Message("Game or user not found")) &&
      gameUsers.rows == old(gameUsers.rows) && gameUsers.nextId == old(gameUsers.nextId)
    ensures gameId in games.rows && userId in users.rows ==>
      resp.status == 201 && resp.body.Json? &&
      var gu := resp.body.value;
      gu == CreatedGameUser(gu.id, gameId, userId, score, status) &&
      gu.id == old(gameUsers.nextId) && gameUsers.nextId == old(gameUsers.nextId) + 1 && gu.id !in old(gameUsers.rows) &&
      gameUsers.rows == old(gameUsers.rows)[gu.id := GameUser(gu.id, gameId, userId, 0, status, now)]
  {
    var game := games.GetGameById(gameId);
    var user := users.GetUserById(userId);
    if game.None? || user.None? {
      return Response(404, Message("Game or user not found"));
    }
    var created := gameUsers.CreateGameUser(gameId, userId, score, status, now);
    resp := Response(201, Json(created));
  }

  /** `updateGameUser`: writes first. 404 when no record has key `guid`;
      otherwise the row is overwritten and only then are the game and the user
      looked up, so a missing one gives 404 after the row has changed. */
  method UpdateGameUser(gameUsers: GameUserService, games: GameService, users: UserService,
                        guid: Id, gameId: Id, userId: Id, score: int, status: string,
                        dateC: Option<Timestamp>, now: Timestamp)
    returns (resp: Reply)
    requires gameUsers.Valid() && games.Valid() && users.Valid()
    modifies gameUsers
    ensures gameUsers.Valid() && gameUsers.nextId == old(gameUsers.nextId)
    ensures gameUsers.rows ==
      if guid in old(gameUsers.rows) then old(gameUsers.rows)[guid := GameUser(guid, gameId, userId, score, status, now)]
      else old(gameUsers.rows)
    ensures resp ==
      if guid !in old(gameUsers.rows) then Response(404, Message("Game user not found or no changes made"))
      else if gameId !in games.rows || userId !in users.rows then Response(404, Message("Game or user not found"))
      else Response(200, Message("Game user updated successfully"))
  {
    var success := gameUsers.UpdateGameUser(guid, gameId, userId, score, status, now);
    if !success {
      return Response(404, Message("Game user not found or no changes made"));
    }
    var game := games.GetGameById(gameId);
    var user := users.GetUserById(userId);
    if game.None? || user.None? {
      return Response(404, Message("Game or user not found"));
    }
    resp := Response(200, Message("Game user updated successfully"));
  }

  /** `deleteGameUser`: 404 exactly when nothing was deleted, otherwise 200. */
  method DeleteGameUser(gameUsers: GameUserService, guid: Id) returns (resp: Reply)
    requires gameUsers.Valid()
    modifies gameUsers
    ensures gameUsers.Valid() && gameUsers.nextId == old(gameUsers.nextId)
    ensures gameUsers.rows == old(gameUsers.rows) - {guid}
    ensures resp == if guid in old(gameUsers.rows) then Response(200, Message("Game user deleted successfully"))
                    else Response(404, Message("Game user not found"))
  {
    var success := gameUsers.DeleteGameUser(guid);
    if !success {
      return Response(404, Message("Game user not found"));
    }
    resp := Response(200, Message("Game user deleted successfully"));
  }
}
