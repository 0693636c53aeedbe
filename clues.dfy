/** The `clues` table and the service that owns it. */
module Clues {
  import opened Tables

  /** A row of `clues` as `Clue.fromRow` renames its columns
      (clue_id, clue_text, date_issued, treasure_id). */
  datatype Clue = Clue(id: Id, text: string, dateIssued: Timestamp, treasureId: Id)

  /** The object `createClue` returns: the inserted values and key, without the date. */
  datatype CreatedClue = CreatedClue(id: Id, text: string, treasureId: Id)

  class ClueService {
    var rows: map<Id, Clue>
    var nextId: Id

    /** The AUTO_INCREMENT bookkeeping holds and every row carries its own key. */
    ghost predicate Valid()
      reads this
    {
      KeysBelow(rows, nextId) && forall k :: k in rows ==> rows[k].id == k
    }

    /** An empty `clues` table. */
    constructor ()
      ensures Valid() && rows == map[] && nextId == 1
    {
      rows := map[];
      nextId := 1;
    }

    /** `getAllClues`: every row once, in key order; an empty table gives []. */
    function GetAllClues(): (all: seq<Clue>)
      reads this
      requires Valid()
      ensures |all| == |rows|
      ensures forall x :: x in all <==> x.id in rows && rows[x.id] == x
      ensures forall i, j :: 0 <= i < j < |all| ==> all[i].id < all[j].id
    {
      ScanMembers(rows, nextId);
      ScanSortedKeyed(rows, nextId, (x: Clue) => x.id);
      Scan(rows, nextId)
    }

    /** `getClueById`: the row with key `id`, or null when there is none. */
    function GetClueById(id: Id): (found: Option<Clue>)
      reads this
      requires Valid()
      ensures found.None? <==> id !in rows
      ensures found.Some? ==> found.value.id == id && rows[id] == found.value
    {
      if id in rows then Some(rows[id]) else None
    }

    /** `createClue`: inserts the text and `treasure_id` as given (the treasure is
        not looked up) under a fresh key, with `date_issued` stamped `now`. */
    method CreateClue(text: string, treasureId: Id, now: Timestamp) returns (created: CreatedClue)
      requires Valid()
      modifies this
      ensures Valid()
      ensures created.id == old(nextId) && created.id !in old(rows) && nextId == old(nextId) + 1
      ensures created == CreatedClue(created.id, text, treasureId)
      ensures rows == old(rows)[created.id := Clue(created.id, text, now, treasureId)]
    {
      created := CreatedClue(nextId, text, treasureId);
      rows := rows[nextId := Clue(nextId, text, now, treasureId)];
      nextId := nextId + 1;
    }

    /** `updateClue`: overwrites text and `treasure_id` of row `id` and
        re-stamps `date_issued` with `now`; false when no row has key `id`. */
    method UpdateClue(id: Id, text: string, treasureId: Id, now: Timestamp)
      returns (updated: bool)
      requires Valid()
      modifies this
      ensures Valid() && nextId == old(nextId)
      ensures updated <==> id in old(rows)
      ensures rows == if updated then old(rows)[id := Clue(id, text, now, treasureId)] else old(rows)
    {
      updated := id in rows;
      if updated {
        rows := rows[id := Clue(id, text, now, treasureId)];
      }
    }

    /** `deleteClue`: removes row `id`; true iff a row was removed. */
    method DeleteClue(id: Id) returns (deleted: bool)
      requires Valid()
      modifies this
      ensures Valid() && nextId == old(nextId)
      ensures deleted <==> id in old(rows)
      ensures rows == old(rows) - {id}
    {
      deleted := id in rows;
      rows := rows - {id};
    }
  }
}
