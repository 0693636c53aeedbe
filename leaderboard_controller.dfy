/** Handlers of `/leaderboards`. An entry refers to a user: creating checks
    the user before writing, updating writes first and checks afterwards. */
module LeaderboardController {
  import opened Tables
  import opened Http
  import opened Leaderboards
  import opened Users

  /** `getAllLeaderboards`: 200 with the whole table. */
  method GetAllLeaderboards(leaderboards: LeaderboardService) returns (resp: Response<seq<Leaderboard>>)
    requires leaderboards.Valid()
    ensures resp == Response(200, Json(leaderboards.GetAllLeaderboards()))
  {
    var all := leaderboards.GetAllLeaderboards();
    resp := Response(200, Json(all));
  }

  /** `getLeaderboardById`: 404 when no entry has key `id`, otherwise 200 with it. */
  method GetLeaderboardById(leaderboards: LeaderboardService, id: Id) returns (resp: Response<Leaderboard>)
    requires leaderboards.Valid()
    ensures id !in leaderboards.rows ==> resp == Response(404, Message("Leaderboard not found"))
    ensures id in leaderboards.rows ==> resp == Response(200, Json(leaderboards.rows[id]))
  {
    var leaderboard := leaderboards.GetLeaderboardById(id);
    if leaderboard.None? {
      return Response(404, Message("Leaderboard not found"));
    }
    resp := Response(200, Json(leaderboard.value));
  }

  /** `createLeaderboard`: looks the user up first; when it is missing answers
      404 and writes nothing, otherwise inserts one entry and answers 201.
      An `l_date` in the body is not read. */
  method CreateLeaderboard(leaderboards: LeaderboardService, users: UserService, pointsEarned: int, userId: Id,
                           lDate: Option<Timestamp>, now: Timestamp)
    returns (resp: Response<CreatedLeaderboard>)
    requires leaderboards.Valid() && users.Valid()
    modifies leaderboards
    ensures leaderboards.Valid()
    ensures userId !in users.rows ==>
      resp == Response(404, Message("User not found")) &&
      leaderboards.rows == old(leaderboards.rows) && leaderboards.nextId == old(leaderboards.nextId)
    ensures userId in users.rows ==>
      resp.status == 201 && resp.body.Json? &&
      var l := resp.body.value;
      l == CreatedLeaderboard(l.id, pointsEarned, userId) &&
      l.id == old(leaderboards.nextId) && leaderboards.nextId == old(leaderboards.nextId) + 1 && l.id !in old(leaderboards.rows) &&
      leaderboards.rows == old(leaderboards.rows)[l.id := Leaderboard(l.id, now, pointsEarned, userId)]
  {
    var user := users.GetUserById(userId);
    if user.None? {
      return Response(404, Message("User not found"));
    }
    var created := leaderboards.CreateLeaderboard(pointsEarned, userId, now);
    resp := Response(201, Json(created));
  }

  /** `updateLeaderboard`: writes first. 404 when no entry has key `id`;
      otherwise the row is overwritten and only then is the user looked up,
      so a missing user gives 404 after the entry has changed. */
  method UpdateLeaderboard(leaderboards: LeaderboardService, users: UserService, id: Id, pointsEarned: int,
                           userId: Id, lDate: Option<Timestamp>, now: Timestamp)
    returns (resp: Reply)
    requires leaderboards.Valid() && users.Valid()
    modifies leaderboards
    ensures leaderboards.Valid() && leaderboards.nextId == old(leaderboards.nextId)
    ensures leaderboards.rows ==
      if id in old(leaderboards.rows) then old(leaderboards.rows)[id := Leaderboard(id, now, pointsEarned, userId)]
      else old(leaderboards.rows)
    ensures resp ==
      if id !in old(leaderboards.rows) then Response(404, Message("Leaderboard not found or no changes made"))
      else if userId !in users.rows then Response(404, Message("User not found"))
      else Response(200, Message("Leaderboard updated successfully"))
  {
    var success := leaderboards.UpdateLeaderboard(id, pointsEarned, userId, now);
    if !success {
      return Response(404, Message("Leaderboard not found or no changes made"));
    }
    var user := users.GetUserById(userId);
    if user.None? {
      return Response(404, Message("User not found"));
    }
    resp := Response(200, Message("Leaderboard updated successfully"));
  }

  /** `deleteLeaderboard`: 404 exactly when nothing was deleted, otherwise 200. */
  method DeleteLeaderboard(leaderboards: LeaderboardService, id: Id) returns (resp: Reply)
    requires leaderboards.Valid()
    modifies leaderboards
    ensures leaderboards.Valid() && leaderboards.nextId == old(leaderboards.nextId)
    ensures leaderboards.rows == old(leaderboards.rows) - {id}
    ensures resp == if id in old(leaderboards.rows) then Response(200, Message("Leaderboard deleted successfully"))
                    else Response(404, Message("Leaderboard not found"))
  {
    var success := leaderboards.DeleteLeaderboard(id);
    if !success {
      return Response(404, Message("Leaderboard not found"));
    }
    resp := Response(200, Message("Leaderboard deleted successfully"));
  }
}
