/** Handlers of `/users-achievements`. An award refers to a user and an
    achievement: creating checks both before writing, updating writes first
    and checks afterwards. */
module UserAchievementController {
  import opened Tables
  import opened Http
  import opened UserAchievements
  import opened Achievements
  import opened Users

  /** `getAllUserAchievements`: 200 with the whole table. */
  method GetAllUserAchievements(userAchievements: UserAchievementService)
    returns (resp: Response<seq<UserAchievement>>)
    requires userAchievements.Valid()
    ensures resp == Response(200, Json(userAchievements.GetAllUserAchievements()))
  {
    var all := userAchievements.GetAllUserAchievements();
    resp := Response(200, Json(all));
  }

  /** `getUserAchievementById`: 404 when no award has key `uaid`, otherwise 200 with it. */
  method GetUserAchievementById(userAchievements: UserAchievementService, uaid: Id)
    returns (resp: Response<UserAchievement>)
    requires userAchievements.Valid()
    ensures uaid !in userAchievements.rows ==> resp == Response(404, Message("User achievement not found"))
    ensures uaid in userAchievements.rows ==> resp == Response(200, Json(userAchievements.rows[uaid]))
  {
    var userAchievement := userAchievements.GetUserAchievementById(uaid);
    if userAchievement.None? {
      return Response(404, Message("User achievement not found"));
    }
    resp := Response(200, Json(userAchievement.value));
  }

  /** `createUserAchievement`: looks up the achievement and the user first;
      when either is missing answers 404 and writes nothing, otherwise inserts
      one award and answers 201. Only the two keys are forwarded, so the
      service sees no `date_r`, and a `date_r` in the body is not read. */
  method CreateUserAchievement(userAchievements: UserAchievementService, achievements: AchievementService,
                               users: UserService, userId: Id, achievementId: Id,
                               dateR: Option<Timestamp>, now: Timestamp)
    returns (resp: Response<CreatedUserAchievement>)
    requires userAchievements.Valid() && achievements.Valid() && users.Valid()
    modifies userAchievements
    ensures userAchievements.Valid()
    ensures achievementId !in achievements.rows || userId !in users.rows ==>
      resp == Response(404, Message("User or achievement not found")) &&
      userAchievements.rows == old(userAchievements.rows) && userAchievements.nextId == old(userAchievements.nextId)
    ensures achievementId in achievements.rows && userId in users.rows ==>
      resp.status == 201 && resp.body.Json? &&
      var ua := resp.body.value;
      ua == CreatedUserAchievement(ua.id, userId, achievementId) &&
      ua.id == old(userAchievements.nextId) && userAchievements.nextId == old(userAchievements.nextId) + 1 && ua.id !in old(userAchievements.rows) &&
      userAchievements.rows == old(userAchievements.rows)[ua.id := UserAchievement(ua.id, userId, achievementId, now)]
  {
    var achievement := achievements.GetAchievementById(achievementId);
    var user := users.GetUserById(userId);
    if achievement.None? || user.None? {
      return Response(404, Message("User or achievement not found"));
    }
    var created := userAchievements.CreateUserAchievement(userId, achievementId, None, now);
    resp := Response(201, Json(created));
  }

  /** `updateUserAchievement`: writes first. 404 when no award has key `uaid`;
      otherwise the row is overwritten and only then are the achievement and
      the user looked up, so a missing one gives 404 after the row has changed. */
  method UpdateUserAchievement(userAchievements: UserAchievementService, achievements: AchievementService,
                               users: UserService, uaid: Id, userId: Id, achievementId: Id,
                               dateR: Option<Timestamp>, now: Timestamp)
    returns (resp: Reply)
    requires userAchievements.Valid() && achievements.Valid() && users.Valid()
    modifies userAchievements
    ensures userAchievements.Valid() && userAchievements.nextId == old(userAchievements.nextId)
    ensures userAchievements.rows ==
      if uaid in old(userAchievements.rows) then old(userAchievements.rows)[uaid := UserAchievement(uaid, userId, achievementId, now)]
      else old(userAchievements.rows)
    ensures resp ==
      if uaid !in old(userAchievements.rows) then Response(404, Message("User achievement not found or no changes made"))
      else if achievementId !in achievements.rows || userId !in users.rows then Response(404, Message("Achievement or user not found"))
      else Response(200, Message("User achievement updated successfully"))
  {
    var success := userAchievements.UpdateUserAchievement(uaid, userId, achievementId, now);
    if !success {
      return Response(404, Message("User achievement not found or no changes made"));
    }
    var achievement := achievements.GetAchievementById(achievementId);
    var user := users.GetUserById(userId);
    if achievement.None? || user.None? {
      return Response(404, Message("Achievement or user not found"));
    }
    resp := Response(200, Message("User achievement updated successfully"));
  }

  /** `deleteUserAchievement`: 404 exactly when nothing was deleted, otherwise 200. */
  method DeleteUserAchievement(userAchievements: UserAchievementService, uaid: Id) returns (resp: Reply)
    requires userAchievements.Valid()
    modifies userAchievements
    ensures userAchievements.Valid() && userAchievements.nextId == old(userAchievements.nextId)
    ensures userAchievements.rows == old(userAchievements.rows) - {uaid}
    ensures resp == if uaid in old(userAchievements.rows) then Response(200, Message("User achievement deleted successfully"))
                    else Response(404, Message("User achievement not found"))
  {
    var success := userAchievements.DeleteUserAchievement(uaid);
    if !success {
      return Response(404, Message("User achievement not found"));
    }
    resp := Response(200, Message("User achievement deleted successfully"));
  }
}
