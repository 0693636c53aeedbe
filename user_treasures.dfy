/** The `users-treasures` table and the service that owns it. */
module UserTreasures {
  import opened Tables

  /** A row of `users-treasures` as `UserTreasure.fromRow` renames its columns
      (usertreasure_id, user_id, treasure_id, is_verified, date_found). */
  datatype UserTreasure = UserTreasure(id: Id, userId: Id, treasureId: Id, isVerified: bool, dateFound: Timestamp)

  /** The object `createUserTreasure` returns: the inserted values and key, without the date. */
  datatype CreatedUserTreasure = CreatedUserTreasure(id: Id, userId: Id, treasureId: Id, isVerified: bool)

  class UserTreasureService {
    var rows: map<Id, UserTreasure>
    var nextId: Id

    /** The AUTO_INCREMENT bookkeeping holds and every row carries its own key. */
    ghost predicate Valid()
      reads this
    {
      KeysBelow(rows, nextId) && forall k :: k in rows ==> rows[k].id == k
    }

    /** An empty `users-treasures` table. */
    constructor ()
      ensures Valid() && rows == map[] && nextId == 1
    {
      rows := map[];
      nextId := 1;
    }

    /** `getAllUserTreasures`: every row once, in key order; an empty table gives []. */
    function GetAllUserTreasures(): (all: seq<UserTreasure>)
      reads this
      requires Valid()
      ensures |all| == |rows|
      ensures forall x :: x in all <==> x.id in rows && rows[x.id] == x
      ensures forall i, j :: 0 <= i < j < |all| ==> all[i].id < all[j].id
    {
      ScanMembers(rows, nextId);
      ScanSortedKeyed(rows, nextId, (x: UserTreasure) => x.id);
      Scan(rows, nextId)
    }

    /** `getUserTreasureById`: the row with key `id`, or null when there is none. */
    function GetUserTreasureById(id: Id): (found: Option<UserTreasure>)
      reads this
      requires Valid()
      ensures found.None? <==> id !in rows
      ensures found.Some? ==> found.value.id == id && rows[id] == found.value
    {
      if id in rows then Some(rows[id]) else None
    }

    /** `createUserTreasure`: inserts user, treasure and `is_verified` under a fresh key
        with `date_found` stamped `now`. */
    method CreateUserTreasure(userId: Id, treasureId: Id, isVerified: bool, now: Timestamp) returns (created: CreatedUserTreasure)
      requires Valid()
      modifies this
      ensures Valid()
      ensures created.id == old(nextId) && created.id !in old(rows) && nextId == old(nextId) + 1
      ensures created == CreatedUserTreasure(created.id, userId, treasureId, isVerified)
      ensures rows == old(rows)[created.id := UserTreasure(created.id, userId, treasureId, isVerified, now)]
    {
      created := CreatedUserTreasure(nextId, userId, treasureId, isVerified);
      rows := rows[nextId := UserTreasure(nextId, userId, treasureId, isVerified, now)];
      nextId := nextId + 1;
    }

    /** `updateUserTreasure`: overwrites user, treasure and `is_verified` of row `id`
        and re-stamps `date_found` with `now`; false when no row has key `id`. */
    method UpdateUserTreasure(id: Id, userId: Id, treasureId: Id, isVerified: bool, now: Timestamp)
      returns (updated: bool)
      requires Valid()
      modifies this
      ensures Valid() && nextId == old(nextId)
      ensures updated <==> id in old(rows)
      ensures rows == if updated then old(rows)[id := UserTreasure(id, userId, treasureId, isVerified, now)] else old(rows)
    {
      updated := id in rows;
      if updated {
        rows := rows[id := UserTreasure(id, userId, treasureId, isVerified, now)];
      }
    }

    /** `deleteUserTreasure`: removes row `id`; true iff a row was removed. */
    method DeleteUserTreasure(id: Id) returns (deleted: bool)
      requires Valid()
      modifies this
      ensures Valid() && nextId == old(nextId)
      ensures deleted <==> id in old(rows)
      ensures rows == old(rows) - {id}
    {
      deleted := id in rows;
      rows := rows - {id};
    }
  }
}
