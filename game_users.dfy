/** The `games-users` table and the service that owns it. */
module GameUsers {
  import opened Tables

  /** A row of `games-users` as `GameUser.fromRow` renames its columns
      (gameuser_id, game_id, user_id, score, status, date_completed). */
  datatype GameUser = GameUser(id: Id, gameId: Id, userId: Id, score: int, status: string, dateCompleted: Timestamp)

  /** The object `createGameUser` returns: the key and the caller's values, without the date. */
  datatype CreatedGameUser = CreatedGameUser(id: Id, gameId: Id, userId: Id, score: int, status: string)

  class GameUserService {
    var rows: map<Id, GameUser>
    var nextId: Id

    /** The AUTO_INCREMENT bookkeeping holds and every row carries its own key. */
    ghost predicate Valid()
      reads this
    {
      KeysBelow(rows, nextId) && forall k :: k in rows ==> rows[k].id == k
    }

    /** An empty `games-users` table. */
    constructor ()
      ensures Valid() && rows == map[] && nextId == 1
    {
      rows := map[];
      nextId := 1;
    }

    /** `getAllGameUsers`: every row once, in key order; an empty table gives []. */
    function GetAllGameUsers(): (all: seq<GameUser>)
      reads this
      requires Valid()
      ensures |all| == |rows|
      ensures forall x :: x in all <==> x.id in rows && rows[x.id] == x
      ensures forall i, j :: 0 <= i < j < |all| ==> all[i].id < all[j].id
    {
      ScanMembers(rows, nextId);
      ScanSortedKeyed(rows, nextId, (x: GameUser) => x.id);
      Scan(rows, nextId)
    }

    /** `getGameUserById`: the row with key `id`, or null when there is none. */
    function GetGameUserById(id: Id): (found: Option<GameUser>)
      reads this
      requires Valid()
      ensures found.None? <==> id !in rows
      ensures found.Some? ==> found.value.id == id && rows[id] == found.value
    {
      if id in rows then Some(rows[id]) else None
    }

    /** `createGameUser`: inserts with score 0 whatever `score` is, status as given
        and `date_completed` stamped `now`, but returns the `score` it was given. */
    method CreateGameUser(gameId: Id, userId: Id, score: int, status: string, now: Timestamp) returns (created: CreatedGameUser)
      requires Valid()
      modifies this
      ensures Valid()
      ensures created.id == old(nextId) && created.id !in old(rows) && nextId == old(nextId) + 1
      ensures created == CreatedGameUser(created.id, gameId, userId, score, status)
      ensures rows == old(rows)[created.id := GameUser(created.id, gameId, userId, 0, status, now)]
    {
      created := CreatedGameUser(nextId, gameId, userId, score, status);
      rows := rows[nextId := GameUser(nextId, gameId, userId, 0, status, now)];
      nextId := nextId + 1;
    }

    /** `updateGameUser`: overwrites game, user, score and status of row `id` and
        re-stamps `date_completed` with `now`; false when no row has key `id`. */
    method UpdateGameUser(id: Id, gameId: Id, userId: Id, score: int, status: string, now: Timestamp)
      returns (updated: bool)
      requires Valid()
      modifies this
      ensures Valid() && nextId == old(nextId)
      ensures updated <==> id in old(rows)
      ensures rows == if updated then old(rows)[id := GameUser(id, gameId, userId, score, status, now)] else old(rows)
    {
      updated := id in rows;
      if updated {
        rows := rows[id := GameUser(id, gameId, userId, score, status, now)];
      }
    }

    /** `deleteGameUser`: removes row `id`; true iff a row was removed. */
    method DeleteGameUser(id: Id) returns (deleted: bool)
      requires Valid()
      modifies this
      ensures Valid() && nextId == old(nextId)
      ensures deleted <==> id in old(rows)
      ensures rows == old(rows) - {id}
    {
      deleted := id in rows;
      rows := rows - {id};
    }
  }
}
