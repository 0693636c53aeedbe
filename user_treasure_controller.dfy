/** Handlers of `/users-treasures`. A find refers to a user and a treasure:
    creating checks both before writing, updating writes first and checks
    afterwards. */
module UserTreasureController {
  import opened Tables
  import opened Http
  import opened UserTreasures
  import opened Treasures
  import opened Users

  /** `getAllUserTreasures`: 200 with the whole table. */
  method GetAllUserTreasures(userTreasures: UserTreasureService) returns (resp: Response<seq<UserTreasure>>)
    requires userTreasures.Valid()
    ensures resp == Response(200, Json(userTreasures.GetAllUserTreasures()))
  {
    var all := userTreasures.GetAllUserTreasures();
    resp := Response(200, Json(all));
  }

  /** `getUserTreasureById`: 404 when no find has key `utid`, otherwise 200 with it. */
  method GetUserTreasureById(userTreasures: UserTreasureService, utid: Id) returns (resp: Response<UserTreasure>)
    requires userTreasures.Valid()
    ensures utid !in userTreasures.rows ==> resp == Response(404, Message("User treasure not found"))
    ensures utid in userTreasures.rows ==> resp == Response(200, Json(userTreasures.rows[utid]))
  {
    var userTreasure := userTreasures.GetUserTreasureById(utid);
    if userTreasure.None? {
      return Response(404, Message("User treasure not found"));
    }
    resp := Response(200, Json(userTreasure.value));
  }

  /** `createUserTreasure`: looks up the treasure and the user first; when
      either is missing answers 404 and writes nothing, otherwise inserts one
      find and answers 201. A `date_f` in the body is not read. */
  method CreateUserTreasure(userTreasures: UserTreasureService, treasures: TreasureService, users: UserService,
                            userId: Id, treasureId: Id, isVerified: bool,
                            dateF: Option<Timestamp>, now: Timestamp)
    returns (resp: Response<CreatedUserTreasure>)
    requires userTreasures.Valid() && treasures.Valid() && users.Valid()
    modifies userTreasures
    ensures userTreasures.Valid()
    ensures treasureId !in treasures.rows || userId !in users.rows ==>
      resp == Response(404, Message("User or treasure not found")) &&
      userTreasures.rows == old(userTreasures.rows) && userTreasures.nextId == old(userTreasures.nextId)
    ensures treasureId in treasures.rows && userId in users.rows ==>
      resp.status == 201 && resp.body.Json? &&
      var ut := resp.body.value;
      ut == CreatedUserTreasure(ut.id, userId, treasureId, isVerified) &&
      ut.id == old(userTreasures.nextId) && userTreasures.nextId == old(userTreasures.nextId) + 1 && ut.id !in old(userTreasures.rows) &&
      userTreasures.rows == old(userTreasures.rows)[ut.id := UserTreasure(ut.id, userId, treasureId, isVerified, now)]
  {
    var treasure := treasures.GetTreasureById(treasureId);
    var user := users.GetUserById(userId);
    if treasure.None? || user.None? {
      return Response(404, Message("User or treasure not found"));
    }
    var created := userTreasures.CreateUserTreasure(userId, treasureId, isVerified, now);
    resp := Response(201, Json(created));
  }

  /** `updateUserTreasure`: writes first. 404 when no find has key `utid`;
      otherwise the row is overwritten and only then are the treasure and the
      user looked up, so a missing one gives 404 after the row has changed. */
  method UpdateUserTreasure(userTreasures: UserTreasureService, treasures: TreasureService, users: UserService,
                            utid: Id, userId: Id, treasureId: Id, isVerified: bool,
                            dateF: Option<Timestamp>, now: Timestamp)
    returns (resp: Reply)
    requires userTreasures.Valid() && treasures.Valid() && users.Valid()
    modifies userTreasures
    ensures userTreasures.Valid() && userTreasures.nextId == old(userTreasures.nextId)
    ensures userTreasures.rows ==
      if utid in old(userTreasures.rows) then old(userTreasures.rows)[utid := UserTreasure(utid, userId, treasureId, isVerified, now)]
      else old(userTreasures.rows)
    ensures resp ==
      if utid !in old(userTreasures.rows) then Response(404, Message("User treasure not found or no changes made"))
      else if treasureId !in treasures.rows || userId !in users.rows then Response(404, Message("Treasure or user not found"))
      else Response(200, Message("User treasure updated successfully"))
  {
    var success := userTreasures.UpdateUserTreasure(utid, userId, treasureId, isVerified, now);
    if !success {
      return Response(404, Message("User treasure not found or no changes made"));
    }
    var treasure := treasures.GetTreasureById(treasureId);
    var user := users.GetUserById(userId);
    if treasure.None? || user.None? {
      return Response(404, Message("Treasure or user not found"));
    }
    resp := Response(200, Message("User treasure updated successfully"));
  }

  /** `deleteUserTreasure`: 404 exactly when nothing was deleted, otherwise 200. */
  method DeleteUserTreasure(userTreasures: UserTreasureService, utid: Id) returns (resp: Reply)
    requires userTreasures.Valid()
    modifies userTreasures
    ensures userTreasures.Valid() && userTreasures.nextId == old(userTreasures.nextId)
    ensures userTreasures.rows == old(userTreasures.rows) - {utid}
    ensures resp == if utid in old(userTreasures.rows) then Response(200, Message("User treasure deleted successfully"))
                    else Response(404, Message("User treasure not found"))
  {
    var success := userTreasures.DeleteUserTreasure(utid);
    if !success {
      return Response(404, Message("User treasure not found"));
    }
    resp := Response(200, Message("User treasure deleted successfully"));
  }
}
