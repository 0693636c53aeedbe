/** The `games` table and the service that owns it. */
module Games {
  import opened Tables

  /** A row of `games` as `Game.fromRow` renames its columns
      (game_id, game_name, game_type, game_description, game_difficulty). */
  datatype Game = Game(id: Id, name: string, gameType: string, desc: string, diff: string)

  class GameService {
    var rows: map<Id, Game>
    var nextId: Id

    /** The AUTO_INCREMENT bookkeeping holds and every row carries its own key. */
    ghost predicate Valid()
      reads this
    {
      KeysBelow(rows, nextId) && forall k :: k in rows ==> rows[k].id == k
    }

    /** An empty `games` table. */
    constructor ()
      ensures Valid() && rows == map[] && nextId == 1
    {
      rows := map[];
      nextId := 1;
    }

    /** `getAllGames`: every row once, in key order; an empty table gives []. */
    function GetAllGames(): (all: seq<Game>)
      reads this
      requires Valid()
      ensures |all| == |rows|
      ensures forall x :: x in all <==> x.id in rows && rows[x.id] == x
      ensures forall i, j :: 0 <= i < j < |all| ==> all[i].id < all[j].id
    {
      ScanMembers(rows, nextId);
      ScanSortedKeyed(rows, nextId, (x: Game) => x.id);
      Scan(rows, nextId)
    }

    /** `getGameById`: the row with key `id`, or null when there is none. */
    function GetGameById(id: Id): (found: Option<Game>)
      reads this
      requires Valid()
      ensures found.None? <==> id !in rows
      ensures found.Some? ==> found.value.id == id && rows[id] == found.value
    {
      if id in rows then Some(rows[id]) else None
    }

    /** `createGame`: inserts the four columns under a fresh key and returns them with that key. */
    method CreateGame(name: string, gameType: string, desc: string, diff: string) returns (created: Game)
      requires Valid()
      modifies this
      ensures Valid()
      ensures created.id == old(nextId) && created.id !in old(rows) && nextId == old(nextId) + 1
      ensures created == Game(created.id, name, gameType, desc, diff)
      ensures rows == old(rows)[created.id := created]
    {
      created := Game(nextId, name, gameType, desc, diff);
      rows := rows[nextId := created];
      nextId := nextId + 1;
    }

    /** `updateGame`: overwrites the four columns of row `id`; false when no row has key `id`. */
    method UpdateGame(id: Id, name: string, gameType: string, desc: string, diff: string)
      returns (updated: bool)
      requires Valid()
      modifies this
      ensures Valid() && nextId == old(nextId)
      ensures updated <==> id in old(rows)
      ensures rows == if updated then old(rows)[id := Game(id, name, gameType, desc, diff)] else old(rows)
    {
      updated := id in rows;
      if updated {
        rows := rows[id := Game(id, name, gameType, desc, diff)];
      }
    }

    /** `deleteGame`: removes row `id`; true iff a row was removed. */
    method DeleteGame(id: Id) returns (deleted: bool)
      requires Valid()
      modifies this
      ensures Valid() && nextId == old(nextId)
      ensures deleted <==> id in old(rows)
      ensures rows == old(rows) - {id}
    {
      deleted := id in rows;
      rows := rows - {id};
    }
  }
}
