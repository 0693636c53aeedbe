/** The `leaderboards` table and the service that owns it. */
module Leaderboards {
  import opened Tables

  /** A row of `leaderboards` as `Leaderboard.fromRow` renames its columns
      (leaderboard_id, leaderboard_date, points_earned, user_id). */
  datatype Leaderboard = Leaderboard(id: Id, date: Timestamp, pointsEarned: int, userId: Id)

  /** The object `createLeaderboard` returns: the inserted values and key, without the date. */
  datatype CreatedLeaderboard = CreatedLeaderboard(id: Id, pointsEarned: int, userId: Id)

  class LeaderboardService {
    var rows: map<Id, Leaderboard>
    var nextId: Id

    /** The AUTO_INCREMENT bookkeeping holds and every row carries its own key. */
    ghost predicate Valid()
      reads this
    {
      KeysBelow(rows, nextId) && forall k :: k in rows ==> rows[k].id == k
    }

    /** An empty `leaderboards` table. */
    constructor ()
      ensures Valid() && rows == map[] && nextId == 1
    {
      rows := map[];
      nextId := 1;
    }

    /** `getAllLeaderboards`: every row once, in key order; an empty table gives []. */
    function GetAllLeaderboards(): (all: seq<Leaderboard>)
      reads this
      requires Valid()
      ensures |all| == |rows|
      ensures forall x :: x in all <==> x.id in rows && rows[x.id] == x
      ensures forall i, j :: 0 <= i < j < |all| ==> all[i].id < all[j].id
    {
      ScanMembers(rows, nextId);
      ScanSortedKeyed(rows, nextId, (x: Leaderboard) => x.id);
      Scan(rows, nextId)
    }

    /** `getLeaderboardById`: the row with key `id`, or null when there is none. */
    function GetLeaderboardById(id: Id): (found: Option<Leaderboard>)
      reads this
      requires Valid()
      ensures found.None? <==> id !in rows
      ensures found.Some? ==> found.value.id == id && rows[id] == found.value
    {
      if id in rows then Some(rows[id]) else None
    }

    /** `createLeaderboard`: inserts points and user under a fresh key with
        `leaderboard_date` stamped `now`. */
    method CreateLeaderboard(pointsEarned: int, userId: Id, now: Timestamp) returns (created: CreatedLeaderboard)
      requires Valid()
      modifies this
      ensures Valid()
      ensures created.id == old(nextId) && created.id !in old(rows) && nextId == old(nextId) + 1
      ensures created == CreatedLeaderboard(created.id, pointsEarned, userId)
      ensures rows == old(rows)[created.id := Leaderboard(created.id, now, pointsEarned, userId)]
    {
      created := CreatedLeaderboard(nextId, pointsEarned, userId);
      rows := rows[nextId := Leaderboard(nextId, now, pointsEarned, userId)];
      nextId := nextId + 1;
    }

    /** `updateLeaderboard`: re-stamps `leaderboard_date` with `now` and overwrites
        points and user of row `id`; false when no row has key `id`. */
    method UpdateLeaderboard(id: Id, pointsEarned: int, userId: Id, now: Timestamp)
      returns (updated: bool)
      requires Valid()
      modifies this
      ensures Valid() && nextId == old(nextId)
      ensures updated <==> id in old(rows)
      ensures rows == if updated then old(rows)[id := Leaderboard(id, now, pointsEarned, userId)] else old(rows)
    {
      updated := id in rows;
      if updated {
        rows := rows[id := Leaderboard(id, now, pointsEarned, userId)];
      }
    }

    /** `deleteLeaderboard`: removes row `id`; true iff a row was removed. */
    method DeleteLeaderboard(id: Id) returns (deleted: bool)
      requires Valid()
      modifies this
      ensures Valid() && nextId == old(nextId)
      ensures deleted <==> id in old(rows)
      ensures rows == old(rows) - {id}
    {
      deleted := id in rows;
      rows := rows - {id};
    }
  }
}
