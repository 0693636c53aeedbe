/** Handlers of `/clues`. A clue refers to a treasure: creating checks the
    treasure before writing, updating writes first and checks afterwards. */
module ClueController {
  import opened Tables
  import opened Http
  import opened Clues
  import opened Treasures

  /** `getAllClues`: 200 with the whole table. */
  method GetAllClues(clues: ClueService) returns (resp: Response<seq<Clue>>)
    requires clues.Valid()
    ensures resp == Response(200, Json(clues.GetAllClues()))
  {
    var all := clues.GetAllClues();
    resp := Response(200, Json(all));
  }

  /** `getClueById`: 404 when no clue has key `id`, otherwise 200 with that clue. */
  method GetClueById(clues: ClueService, id: Id) returns (resp: Response<Clue>)
    requires clues.Valid()
    ensures id !in clues.rows ==> resp == Response(404, Message("Clue not found"))
    ensures id in clues.rows ==> resp == Response(200, Json(clues.rows[id]))
  {
    var clue := clues.GetClueById(id);
    if clue.None? {
      return Response(404, Message("Clue not found"));
    }
    resp := Response(200, Json(clue.value));
  }

  /** `createClue`: looks the treasure up first; when it is missing answers
      404 and writes nothing, otherwise inserts one clue and answers 201.
      A `date_i` in the body is not read. */
  method CreateClue(clues: ClueService, treasures: TreasureService, text: string, treasureId: Id,
                    dateI: Option<Timestamp>, now: Timestamp)
    returns (resp: Response<CreatedClue>)
    requires clues.Valid() && treasures.Valid()
    modifies clues
    ensures clues.Valid()
    ensures treasureId !in treasures.rows ==>
      resp == Response(404, Message("Treasure not found")) &&
      clues.rows == old(clues.rows) && clues.nextId == old(clues.nextId)
    ensures treasureId in treasures.rows ==>
      resp.status == 201 && resp.body.Json? &&
      var c := resp.body.value;
      c == CreatedClue(c.id, text, treasureId) &&
      c.id == old(clues.nextId) && clues.nextId == old(clues.nextId) + 1 && c.id !in old(clues.rows) &&
      clues.rows == old(clues.rows)[c.id := Clue(c.id, text, now, treasureId)]
  {
    var treasure := treasures.GetTreasureById(treasureId);
    if treasure.None? {
      return Response(404, Message("Treasure not found"));
    }
    var created := clues.CreateClue(text, treasureId, now);
    resp := Response(201, Json(created));
  }

  /** `updateClue`: writes first. 404 when no clue has key `id`; otherwise the
      row is overwritten and only then is the treasure looked up, so a missing
      treasure gives 404 after the clue has already changed. */
  method UpdateClue(clues: ClueService, treasures: TreasureService, id: Id, text: string, treasureId: Id,
                    dateI: Option<Timestamp>, now: Timestamp)
    returns (resp: Reply)
    requires clues.Valid() && treasures.Valid()
    modifies clues
    ensures clues.Valid() && clues.nextId == old(clues.nextId)
    ensures clues.rows == if id in old(clues.rows) then old(clues.rows)[id := Clue(id, text, now, treasureId)]
                          else old(clues.rows)
    ensures resp ==
      if id !in old(clues.rows) then Response(404, Message("Clue not found or no changes made"))
      else if treasureId !in treasures.rows then Response(404, Message("Treasure not found"))
      else Response(200, Message("Clue updated successfully"))
  {
    var success := clues.UpdateClue(id, text, treasureId, now);
    if !success {
      return Response(404, Message("Clue not found or no changes made"));
    }
    var treasure := treasures.GetTreasureById(treasureId);
    if treasure.None? {
      return Response(404, Message("Treasure not found"));
    }
    resp := Response(200, Message("Clue updated successfully"));
  }

  /** `deleteClue`: 404 exactly when nothing was deleted, otherwise 200. */
  method DeleteClue(clues: ClueService, id: Id) returns (resp: Reply)
    requires clues.Valid()
    modifies clues
    ensures clues.Valid() && clues.nextId == old(clues.nextId)
    ensures clues.rows == old(clues.rows) - {id}
    ensures resp == if id in old(clues.rows) then Response(200, Message("Clue deleted successfully"))
                    else Response(404, Message("Clue not found"))
  {
    var success := clues.DeleteClue(id);
    if !success {
      return Response(404, Message("Clue not found"));
    }
    resp := Response(200, Message("Clue deleted successfully"));
  }
}
