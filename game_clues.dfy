/** The `games-clues` table and the service that owns it. */
module GameClues {
  import opened Tables

  /** A row of `games-clues` as `GameClue.fromRow` renames its columns
      (gameclue_id, game_id, clue_id). */
  datatype GameClue = GameClue(id: Id, gameId: Id, clueId: Id)

  class GameClueService {
    var rows: map<Id, GameClue>
    var nextId: Id

    /** The AUTO_INCREMENT bookkeeping holds and every row carries its own key. */
    ghost predicate Valid()
      reads this
    {
      KeysBelow(rows, nextId) && forall k :: k in rows ==> rows[k].id == k
    }

    /** An empty `games-clues` table. */
    constructor ()
      ensures Valid() && rows == map[] && nextId == 1
    {
      rows := map[];
      nextId := 1;
    }

    /** `getAllGameClues`: every row once, in key order; an empty table gives []. */
    function GetAllGameClues(): (all: seq<GameClue>)
      reads this
      requires Valid()
      ensures |all| == |rows|
      ensures forall x :: x in all <==> x.id in rows && rows[x.id] == x
      ensures forall i, j :: 0 <= i < j < |all| ==> all[i].id < all[j].id
    {
      ScanMembers(rows, nextId);
      ScanSortedKeyed(rows, nextId, (x: GameClue) => x.id);
      Scan(rows, nextId)
    }

    /** `getGameClueById`: the row with key `id`, or null when there is none. */
    function GetGameClueById(id: Id): (found: Option<GameClue>)
      reads this
      requires Valid()
      ensures found.None? <==> id !in rows
      ensures found.Some? ==> found.value.id == id && rows[id] == found.value
    {
      if id in rows then Some(rows[id]) else None
    }

    /** `createGameClue`: inserts the pair as given (neither side is looked up) under
        a fresh key and returns it with that key. */
    method CreateGameClue(gameId: Id, clueId: Id) returns (created: GameClue)
      requires Valid()
      modifies this
      ensures Valid()
      ensures created.id == old(nextId) && created.id !in old(rows) && nextId == old(nextId) + 1
      ensures created == GameClue(created.id, gameId, clueId)
      ensures rows == old(rows)[created.id := created]
    {
      created := GameClue(nextId, gameId, clueId);
      rows := rows[nextId := created];
      nextId := nextId + 1;
    }

    /** `updateGameClue`: overwrites `game_id` and `clue_id` of row `id`; false when no row has key `id`. */
    method UpdateGameClue(id: Id, gameId: Id, clueId: Id)
      returns (updated: bool)
      requires Valid()
      modifies this
      ensures Valid() && nextId == old(nextId)
      ensures updated <==> id in old(rows)
      ensures rows == if updated then old(rows)[id := GameClue(id, gameId, clueId)] else old(rows)
    {
      updated := id in rows;
      if updated {
        rows := rows[id := GameClue(id, gameId, clueId)];
      }
    }

    /** `deleteGameClue`: removes row `id`; true iff a row was removed. */
    method DeleteGameClue(id: Id) returns (deleted: bool)
      requires Valid()
      modifies this
      ensures Valid() && nextId == old(nextId)
      ensures deleted <==> id in old(rows)
      ensures rows == old(rows) - {id}
    {
      deleted := id in rows;
      rows := rows - {id};
    }
  }
}
