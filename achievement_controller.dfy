/** Handlers of `/achievements`: one call into the achievement service, then a status. */
module AchievementController {
  import opened Tables
  import opened Http
  import opened Achievements

  /** `getAllAchievements`: 200 with the whole table. */
  method GetAllAchievements(achievements: AchievementService) returns (resp: Response<seq<Achievement>>)
    requires achievements.Valid()
    ensures resp == Response(200, Json(achievements.GetAllAchievements()))
  {
    var all := achievements.GetAllAchievements();
    resp := Response(200, Json(all));
  }

  /** `getAchievementById`: 404 when no achievement has key `id`, otherwise 200 with it. */
  method GetAchievementById(achievements: AchievementService, id: Id) returns (resp: Response<Achievement>)
    requires achievements.Valid()
    ensures id !in achievements.rows ==> resp == Response(404, Message("Achievement not found"))
    ensures id in achievements.rows ==> resp == Response(200, Json(achievements.rows[id]))
  {
    var achievement := achievements.GetAchievementById(id);
    if achievement.None? {
      return Response(404, Message("Achievement not found"));
    }
    resp := Response(200, Json(achievement.value));
  }

  /** `createAchievement`: forwards name, category, description and required
      points and answers 201 with the created achievement. */
  method CreateAchievement(achievements: AchievementService, name: string, category: string,
                           descr: string, pointsRequired: int)
    returns (resp: Response<Achievement>)
    requires achievements.Valid()
    modifies achievements
    ensures achievements.Valid()
    ensures resp.status == 201 && resp.body.Json?
    ensures var a := resp.body.value;
      a == Achievement(a.id, name, category, descr, pointsRequired) &&
      a.id == old(achievements.nextId) && achievements.nextId == old(achievements.nextId) + 1 && a.id !in old(achievements.rows) &&
      achievements.rows == old(achievements.rows)[a.id := a]
  {
    var created := achievements.CreateAchievement(name, category, descr, pointsRequired);
    resp := Response(201, Json(created));
  }

  /** `updateAchievement`: 404 exactly when the service reports that no row
      was updated, otherwise 200. */
  method UpdateAchievement(achievements: AchievementService, id: Id, name: string, category: string,
                           descr: string, pointsRequired: int)
    returns (resp: Reply)
    requires achievements.Valid()
    modifies achievements
    ensures achievements.Valid() && achievements.nextId == old(achievements.nextId)
    ensures id !in old(achievements.rows) ==>
      resp == Response(404, Message("Achievement not found or no changes made")) &&
      achievements.rows == old(achievements.rows)
    ensures id in old(achievements.rows) ==>
      resp == Response(200, Message("Achievement updated successfully")) &&
      achievements.rows == old(achievements.rows)[id := Achievement(id, name, category, descr, pointsRequired)]
  {
    var success := achievements.UpdateAchievement(id, name, category, descr, pointsRequired);
    if !success {
      return Response(404, Message("Achievement not found or no changes made"));
    }
    resp := Response(200, Message("Achievement updated successfully"));
  }

  /** `deleteAchievement`: 404 exactly when nothing was deleted, otherwise 200. */
  method DeleteAchievement(achievements: AchievementService, id: Id) returns (resp: Reply)
    requires achievements.Valid()
    modifies achievements
    ensures achievements.Valid() && achievements.nextId == old(achievements.nextId)
    ensures achievements.rows == old(achievements.rows) - {id}
    ensures resp == if id in old(achievements.rows) then Response(200, Message("Achievement deleted successfully"))
                    else Response(404, Message("Achievement not found"))
  {
    var success := achievements.DeleteAchievement(id);
    if !success {
      return Response(404, Message("Achievement not found"));
    }
    resp := Response(200, Message("Achievement deleted successfully"));
  }
}
