/** Handlers of `/treasures`: one call into the treasure service, then a status. */
module TreasureController {
  import opened Tables
  import opened Http
  import opened Treasures

  /** `getAllTreasures`: 200 with the whole table. */
  method GetAllTreasures(treasures: TreasureService) returns (resp: Response<seq<Treasure>>)
    requires treasures.Valid()
    ensures resp == Response(200, Json(treasures.GetAllTreasures()))
  {
    var all := treasures.GetAllTreasures();
    resp := Response(200, Json(all));
  }

  /** `getTreasureById`: 404 when no treasure has key `id`, otherwise 200 with it. */
  method GetTreasureById(treasures: TreasureService, id: Id) returns (resp: Response<Treasure>)
    requires treasures.Valid()
    ensures id !in treasures.rows ==> resp == Response(404, Message("Treasure not found"))
    ensures id in treasures.rows ==> resp == Response(200, Json(treasures.rows[id]))
  {
    var treasure := treasures.GetTreasureById(id);
    if treasure.None? {
      return Response(404, Message("Treasure not found"));
    }
    resp := Response(200, Json(treasure.value));
  }

  /** `createTreasure`: forwards name, description and url only (a `date` in
      the body is dropped; the store stamps `now`) and answers 201. */
  method CreateTreasure(treasures: TreasureService, name: string, desc: string, url: string,
                        date: Option<Timestamp>, now: Timestamp)
    returns (resp: Response<CreatedTreasure>)
    requires treasures.Valid()
    modifies treasures
    ensures treasures.Valid()
    ensures resp.status == 201 && resp.body.Json?
    ensures var t := resp.body.value;
      t == CreatedTreasure(t.id, name, desc, url) &&
      t.id == old(treasures.nextId) && treasures.nextId == old(treasures.nextId) + 1 && t.id !in old(treasures.rows) &&
      treasures.rows == old(treasures.rows)[t.id := Treasure(t.id, name, desc, url, now)]
  {
    var created := treasures.CreateTreasure(name, desc, url, now);
    resp := Response(201, Json(created));
  }

  /** `updateTreasure`: 404 exactly when the service reports that no row was
      updated, otherwise 200; a `date` in the body is dropped. */
  method UpdateTreasure(treasures: TreasureService, id: Id, name: string, desc: string, url: string,
                        date: Option<Timestamp>, now: Timestamp)
    returns (resp: Reply)
    requires treasures.Valid()
    modifies treasures
    ensures treasures.Valid() && treasures.nextId == old(treasures.nextId)
    ensures id !in old(treasures.rows) ==>
      resp == Response(404, Message("Treasure not found or no changes made")) &&
      treasures.rows == old(treasures.rows)
    ensures id in old(treasures.rows) ==>
      resp == Response(200, Message("Treasure updated successfully")) &&
      treasures.rows == old(treasures.rows)[id := Treasure(id, name, desc, url, now)]
  {
    var success := treasures.UpdateTreasure(id, name, desc, url, now);
    if !success {
      return Response(404, Message("Treasure not found or no changes made"));
    }
    resp := Response(200, Message("Treasure updated successfully"));
  }

  /** `deleteTreasure`: 404 exactly when nothing was deleted, otherwise 200.
      Clues and finds that refer to the treasure are left as they are. */
  method DeleteTreasure(treasures: TreasureService, id: Id) returns (resp: Reply)
    requires treasures.Valid()
    modifies treasures
    ensures treasures.Valid() && treasures.nextId == old(treasures.nextId)
    ensures treasures.rows == old(treasures.rows) - {id}
    ensures resp == if id in old(treasures.rows) then Response(200, Message("Treasure deleted successfully"))
                    else Response(404, Message("Treasure not found"))
  {
    var success := treasures.DeleteTreasure(id);
    if !success {
      return Response(404, Message("Treasure not found"));
    }
    resp := Response(200, Message("Treasure deleted successfully"));
  }
}
