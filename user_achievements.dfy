/** The `users-achievements` table and the service that owns it. */
module UserAchievements {
  import opened Tables

  /** A row of `users-achievements` as `UserAchievement.fromRow` renames its columns
      (userachievement_id, user_id, achievement_id, date_received). */
  datatype UserAchievement = UserAchievement(id: Id, userId: Id, achievementId: Id, dateReceived: Timestamp)

  /** The object `createUserAchievement` returns: the inserted values and key, without the date. */
  datatype CreatedUserAchievement = CreatedUserAchievement(id: Id, userId: Id, achievementId: Id)

  class UserAchievementService {
    var rows: map<Id, UserAchievement>
    var nextId: Id

    /** The AUTO_INCREMENT bookkeeping holds and every row carries its own key. */
    ghost predicate Valid()
      reads this
    {
      KeysBelow(rows, nextId) && forall k :: k in rows ==> rows[k].id == k
    }

    /** An empty `users-achievements` table. */
    constructor ()
      ensures Valid() && rows == map[] && nextId == 1
    {
      rows := map[];
      nextId := 1;
    }

    /** `getAllUserAchievements`: every row once, in key order; an empty table gives []. */
    function GetAllUserAchievements(): (all: seq<UserAchievement>)
      reads this
      requires Valid()
      ensures |all| == |rows|
      ensures forall x :: x in all <==> x.id in rows && rows[x.id] == x
      ensures forall i, j :: 0 <= i < j < |all| ==> all[i].id < all[j].id
    {
      ScanMembers(rows, nextId);
      ScanSortedKeyed(rows, nextId, (x: UserAchievement) => x.id);
      Scan(rows, nextId)
    }

    /** `getUserAchievementById`: the row with key `id`, or null when there is none. */
    function GetUserAchievementById(id: Id): (found: Option<UserAchievement>)
      reads this
      requires Valid()
      ensures found.None? <==> id !in rows
      ensures found.Some? ==> found.value.id == id && rows[id] == found.value
    {
      if id in rows then Some(rows[id]) else None
    }

    /** `createUserAchievement`: inserts user and achievement under a fresh key with
        `date_received` stamped `now`; a caller-supplied `date_r` is read but never used. */
    method CreateUserAchievement(userId: Id, achievementId: Id, dateR: Option<Timestamp>, now: Timestamp) returns (created: CreatedUserAchievement)
      requires Valid()
      modifies this
      ensures Valid()
      ensures created.id == old(nextId) && created.id !in old(rows) && nextId == old(nextId) + 1
      ensures created == CreatedUserAchievement(created.id, userId, achievementId)
      ensures rows == old(rows)[created.id := UserAchievement(created.id, userId, achievementId, now)]
    {
      created := CreatedUserAchievement(nextId, userId, achievementId);
      rows := rows[nextId := UserAchievement(nextId, userId, achievementId, now)];
      nextId := nextId + 1;
    }

    /** `updateUserAchievement`: overwrites user and achievement of row `id` and
        re-stamps `date_received` with `now`; false when no row has key `id`. */
    method UpdateUserAchievement(id: Id, userId: Id, achievementId: Id, now: Timestamp)
      returns (updated: bool)
      requires Valid()
      modifies this
      ensures Valid() && nextId == old(nextId)
      ensures updated <==> id in old(rows)
      ensures rows == if updated then old(rows)[id := UserAchievement(id, userId, achievementId, now)] else old(rows)
    {
      updated := id in rows;
      if updated {
        rows := rows[id := UserAchievement(id, userId, achievementId, now)];
      }
    }

    /** `deleteUserAchievement`: removes row `id`; true iff a row was removed. */
    method DeleteUserAchievement(id: Id) returns (deleted: bool)
      requires Valid()
      modifies this
      ensures Valid() && nextId == old(nextId)
      ensures deleted <==> id in old(rows)
      ensures rows == old(rows) - {id}
    {
      deleted := id in rows;
      rows := rows - {id};
    }
  }
}
