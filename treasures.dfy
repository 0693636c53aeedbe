/** The `treasures` table and the service that owns it. */
module Treasures {
  import opened Tables

  /** A row of `treasures` as `Treasure.fromRow` renames its columns
      (treasure_id, treasure_name, treasure_description, treasure_url, date_added). */
  datatype Treasure = Treasure(id: Id, name: string, desc: string, url: string, date: Timestamp)

  /** The object `createTreasure` returns: the inserted values and key, without the date. */
  datatype CreatedTreasure = CreatedTreasure(id: Id, name: string, desc: string, url: string)

  class TreasureService {
    var rows: map<Id, Treasure>
    var nextId: Id

    /** The AUTO_INCREMENT bookkeeping holds and every row carries its own key. */
    ghost predicate Valid()
      reads this
    {
      KeysBelow(rows, nextId) && forall k :: k in rows ==> rows[k].id == k
    }

    /** An empty `treasures` table. */
    constructor ()
      ensures Valid() && rows == map[] && nextId == 1
    {
      rows := map[];
      nextId := 1;
    }

    /** `getAllTreasures`: every row once, in key order; an empty table gives []. */
    function GetAllTreasures(): (all: seq<Treasure>)
      reads this
      requires Valid()
      ensures |all| == |rows|
      ensures forall x :: x in all <==> x.id in rows && rows[x.id] == x
      ensures forall i, j :: 0 <= i < j < |all| ==> all[i].id < all[j].id
    {
      ScanMembers(rows, nextId);
      ScanSortedKeyed(rows, nextId, (x: Treasure) => x.id);
      Scan(rows, nextId)
    }

    /** `getTreasureById`: the row with key `id`, or null when there is none. */
    function GetTreasureById(id: Id): (found: Option<Treasure>)
      reads this
      requires Valid()
      ensures found.None? <==> id !in rows
      ensures found.Some? ==> found.value.id == id && rows[id] == found.value
    {
      if id in rows then Some(rows[id]) else None
    }

    /** `createTreasure`: inserts under a fresh key with `date_added` stamped `now`;
        the returned object has no date. */
    method CreateTreasure(name: string, desc: string, url: string, now: Timestamp) returns (created: CreatedTreasure)
      requires Valid()
      modifies this
      ensures Valid()
      ensures created.id == old(nextId) && created.id !in old(rows) && nextId == old(nextId) + 1
      ensures created == CreatedTreasure(created.id, name, desc, url)
      ensures rows == old(rows)[created.id := Treasure(created.id, name, desc, url, now)]
    {
      created := CreatedTreasure(nextId, name, desc, url);
      rows := rows[nextId := Treasure(nextId, name, desc, url, now)];
      nextId := nextId + 1;
    }

    /** `updateTreasure`: overwrites name, description and url of row `id` and
        re-stamps `date_added` with `now`; false when no row has key `id`. */
    method UpdateTreasure(id: Id, name: string, desc: string, url: string, now: Timestamp)
      returns (updated: bool)
      requires Valid()
      modifies this
      ensures Valid() && nextId == old(nextId)
      ensures updated <==> id in old(rows)
      ensures rows == if updated then old(rows)[id := Treasure(id, name, desc, url, now)] else old(rows)
    {
      updated := id in rows;
      if updated {
        rows := rows[id := Treasure(id, name, desc, url, now)];
      }
    }

    /** `deleteTreasure`: removes row `id`; true iff a row was removed. */
    method DeleteTreasure(id: Id) returns (deleted: bool)
      requires Valid()
      modifies this
      ensures Valid() && nextId == old(nextId)
      ensures deleted <==> id in old(rows)
      ensures rows == old(rows) - {id}
    {
      deleted := id in rows;
      rows := rows - {id};
    }
  }
}
