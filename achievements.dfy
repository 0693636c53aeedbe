/** The `achievements` table and the service that owns it. */
module Achievements {
  import opened Tables

  /** A row of `achievements` as `Achievement.fromRow` renames its columns
      (achievement_id, achievement_name, achievement_category, achievement_description, points_required). */
  datatype Achievement = Achievement(id: Id, name: string, category: string, descr: string, pointsRequired: int)

  class AchievementService {
    var rows: map<Id, Achievement>
    var nextId: Id

    /** The AUTO_INCREMENT bookkeeping holds and every row carries its own key. */
    ghost predicate Valid()
      reads this
    {
      KeysBelow(rows, nextId) && forall k :: k in rows ==> rows[k].id == k
    }

    /** An empty `achievements` table. */
    constructor ()
      ensures Valid() && rows == map[] && nextId == 1
    {
      rows := map[];
      nextId := 1;
    }

    /** `getAllAchievements`: every row once, in key order; an empty table gives []. */
    function GetAllAchievements(): (all: seq<Achievement>)
      reads this
      requires Valid()
      ensures |all| == |rows|
      ensures forall x :: x in all <==> x.id in rows && rows[x.id] == x
      ensures forall i, j :: 0 <= i < j < |all| ==> all[i].id < all[j].id
    {
      ScanMembers(rows, nextId);
      ScanSortedKeyed(rows, nextId, (x: Achievement) => x.id);
      Scan(rows, nextId)
    }

    /** `getAchievementById`: the row with key `id`, or null when there is none. */
    function GetAchievementById(id: Id): (found: Option<Achievement>)
      reads this
      requires Valid()
      ensures found.None? <==> id !in rows
      ensures found.Some? ==> found.value.id == id && rows[id] == found.value
    {
      if id in rows then Some(rows[id]) else None
    }

    /** `createAchievement`: inserts the four columns under a fresh key and returns them with that key. */
    method CreateAchievement(name: string, category: string, descr: string, pointsRequired: int) returns (created: Achievement)
      requires Valid()
      modifies this
      ensures Valid()
      ensures created.id == old(nextId) && created.id !in old(rows) && nextId == old(nextId) + 1
      ensures created == Achievement(created.id, name, category, descr, pointsRequired)
      ensures rows == old(rows)[created.id := created]
    {
      created := Achievement(nextId, name, category, descr, pointsRequired);
      rows := rows[nextId := created];
      nextId := nextId + 1;
    }

    /** `updateAchievement`: overwrites the four columns of row `id`; false when no row has key `id`. */
    method UpdateAchievement(id: Id, name: string, category: string, descr: string, pointsRequired: int)
      returns (updated: bool)
      requires Valid()
      modifies this
      ensures Valid() && nextId == old(nextId)
      ensures updated <==> id in old(rows)
      ensures rows == if updated then old(rows)[id := Achievement(id, name, category, descr, pointsRequired)] else old(rows)
    {
      updated := id in rows;
      if updated {
        rows := rows[id := Achievement(id, name, category, descr, pointsRequired)];
      }
    }

    /** `deleteAchievement`: removes row `id`; true iff a row was removed. */
    method DeleteAchievement(id: Id) returns (deleted: bool)
      requires Valid()
      modifies this
      ensures Valid() && nextId == old(nextId)
      ensures deleted <==> id in old(rows)
      ensures rows == old(rows) - {id}
    {
      deleted := id in rows;
      rows := rows - {id};
    }
  }
}
