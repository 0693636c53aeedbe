/** Concrete request sequences against fresh, empty tables. Each one pins down
    an observable consequence of the handlers as written. */
module Scenarios {
  import opened Tables
  import opened Http
  import opened Users
  import opened Treasures
  import opened Clues
  import opened Games
  import opened GameUsers
  import UserController
  import TreasureController
  import ClueController
  import GameController
  import GameUserController

  /** `PUT /clues/1` naming a treasure that does not exist answers 404, yet the
      clue has already been rewritten: text, treasure and date all changed. */
  method UpdateClueWithMissingTreasure() returns (before: Clue, resp: Reply, after: Clue)
    ensures before == Clue(1, "Under the old bridge", 100, 1)
    ensures resp == Response(404, Message("Treasure not found"))
    ensures after == Clue(1, "Behind the oak", 200, 9)
  {
    var treasures := new TreasureService();
    var clues := new ClueService();
    var t := TreasureController.CreateTreasure(treasures, "Gold coin", "A coin", "https://example.org/coin", None, 50);
    var c := ClueController.CreateClue(clues, treasures, "Under the old bridge", 1, None, 100);
    before := clues.rows[1];
    resp := ClueController.UpdateClue(clues, treasures, 1, "Behind the oak", 9, None, 200);
    after := clues.rows[1];
  }

  /** `POST /clues` naming a missing treasure answers 404 and inserts nothing. */
  method CreateClueWithMissingTreasure() returns (resp: Response<CreatedClue>, count: nat)
    ensures resp == Response(404, Message("Treasure not found"))
    ensures count == 0
  {
    var treasures := new TreasureService();
    var clues := new ClueService();
    resp := ClueController.CreateClue(clues, treasures, "Under the old bridge", 1, None, 100);
    count := |clues.GetAllClues()|;
  }

  /** Deleting the same game twice: the first request removes it, the second
      finds nothing and answers 404, and a lookup afterwards answers 404. */
  method DeleteGameTwice() returns (first: Reply, second: Reply, lookup: Response<Game>)
    ensures first == Response(200, Message("Game deleted successfully"))
    ensures second == Response(404, Message("Game not found"))
    ensures lookup == Response(404, Message("Game not found"))
  {
    var games := new GameService();
    var g := GameController.CreateGame(games, "Hunt", "outdoor", "City hunt", "easy");
    first := GameController.DeleteGame(games, 1);
    second := GameController.DeleteGame(games, 1);
    lookup := GameController.GetGameById(games, 1);
  }

  /** Registration ignores the points and rewards in the body; a login with
      the stored credentials succeeds, a wrong password or name fails. */
  method RegisterThenLogin() returns (created: Response<User>, good: Reply, badPass: Reply, badName: Reply)
    ensures created == Response(201, Json(User(1, "alice", "alice@example.org", "secret123", 0, 0)))
    ensures good == Response(200, Message("User login successful"))
    ensures badPass == Response(401, Message("Incorrect username or password"))
    ensures badName == Response(401, Message("Incorrect username or password"))
  {
    var users := new UserService();
    created := UserController.CreateUser(users, "alice", "alice@example.org", "secret123", 500, 3);
    assert users.rows[1].name == "alice" && users.rows[1].pass == "secret123";
    good := UserController.CheckLogin(users, "alice", "secret123");
    badPass := UserController.CheckLogin(users, "alice", "wrong");
    badName := UserController.CheckLogin(users, "bob", "secret123");
  }

  /** `POST /games-users` with score 7 answers with score 7 while the stored
      row holds score 0. */
  method GameUserScoreNotStored() returns (resp: Response<CreatedGameUser>, stored: GameUser)
    ensures resp == Response(201, Json(CreatedGameUser(1, 1, 1, 7, "Completed")))
    ensures stored == GameUser(1, 1, 1, 0, "Completed", 300)
  {
    var games := new GameService();
    var users := new UserService();
    var gameUsers := new GameUserService();
    var g := GameController.CreateGame(games, "Hunt", "outdoor", "City hunt", "easy");
    var u := UserController.CreateUser(users, "alice", "alice@example.org", "secret123", 0, 0);
    resp := GameUserController.CreateGameUser(gameUsers, games, users, 1, 1, 7, "Completed", None, 300);
    stored := gameUsers.rows[1];
  }

  /** Deleting a treasure leaves the clues that name it in place. */
  method DeleteTreasureKeepsClues() returns (resp: Reply, clue: Option<Clue>, treasure: Option<Treasure>)
    ensures resp == Response(200, Message("Treasure deleted successfully"))
    ensures clue == Some(Clue(1, "Under the old bridge", 100, 1))
    ensures treasure == None
  {
    var treasures := new TreasureService();
    var clues := new ClueService();
    var t := TreasureController.CreateTreasure(treasures, "Gold coin", "A coin", "https://example.org/coin", None, 50);
    var c := ClueController.CreateClue(clues, treasures, "Under the old bridge", 1, None, 100);
    resp := TreasureController.DeleteTreasure(treasures, 1);
    clue := clues.GetClueById(1);
    treasure := treasures.GetTreasureById(1);
  }
}
