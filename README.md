# Findly: tables and request handlers

Findly is a treasure-hunt REST API. It has users, games, treasures, clues and achievements, and association tables that link them: game–clue, game–user, user–treasure and user–achievement. It also keeps leaderboard entries. This project models its two logical layers.

- **Services** (`services/*Service.js`). Each service owns one MySQL table keyed by an AUTO_INCREMENT id. Here each service is a class that holds the table as `rows: map<Id, Row>` plus `nextId`, the next key AUTO_INCREMENT will issue (module `Users`, class `UserService`, and so on).
  - `getAll` and `getById` are functions over that state (`reads this`). `getAll` returns the rows in primary-key order. That order is a choice of the model; the SQL's `SELECT *` has no `ORDER BY` and promises none.
  - `create`, `update` and `delete` are methods that change the map in place (`modifies this`).
  - `NOW()` is the `now: Timestamp` argument. A column the SQL stamps with `NOW()` receives that value.
  - The invariant `Valid()` holds throughout: every key is positive and below `nextId`, and every row carries its own key.
- **Controllers** (`controllers/*Controller.js`). Each Express handler becomes a method. It takes the service objects it calls and returns a `Response` (module `Http`): a status plus either a JSON value or a `{message}` text.
  - Request fields the handler never forwards are still parameters, so that their having no effect is stated: user points and rewards, and the caller-supplied dates `date`, `date_i`, `date_c`, `date_f`, `date_r` and `l_date`.
  - Handlers are modelled as written. A create handler looks up the referenced rows and writes nothing when one is missing. An update handler writes first and looks up the references afterwards, so it can answer 404 after the row has already changed.

Module `Tables` holds what every table shares: the key order (`Keys`) and the scan behind every `getAll` (`Scan`). The service methods state their new state as a map (`rows == old(rows)[id := row]`, `rows == old(rows) - {id}`). Tables' lemmas carry that over to the listing `getAll` returns: an insert appends one row (`ScanAppend`), an update replaces one entry in place (`ScanOverwriteKeyed`), and a delete drops exactly one row (`ScanRemoveKeyed`). Module `Scenarios` states and proves the outcomes of concrete request sequences on fresh tables.

## Model

| member | source | states |
|---|---|---|
| Users.UserService.GetAllUsers | services/userService.js:20-30 | every stored row exactly once (membership both ways, as many entries as rows), in ascending key order; an empty table gives [] |
| Users.UserService.GetUserById | services/userService.js:33-42 | `None` (null) exactly when no row has that key; otherwise the row stored under it |
| Users.UserService.CreateUser | services/userService.js:45-55 | inserts under the next AUTO_INCREMENT key, which was unused, advances the counter, and stores name, email and password with points and rewards 0 whatever the caller wanted, and returns that row; no other row changes |
| Users.UserService.UpdateUser | services/userService.js:58-68 | result is true exactly when the key exists; then overwrites all five columns (name, email, password, points, rewards) of that row only, otherwise nothing changes; the counter is unchanged |
| Users.UserService.DeleteUser | services/userService.js:71-76 | result is true exactly when the key existed; exactly that row is removed, no other row changes |
| Games.GameService.GetAllGames | services/gameService.js:20-30 | every stored row exactly once (membership both ways, as many entries as rows), in ascending key order; an empty table gives [] |
| Games.GameService.GetGameById | services/gameService.js:33-42 | `None` (null) exactly when no row has that key; otherwise the row stored under it |
| Games.GameService.CreateGame | services/gameService.js:45-55 | inserts under the next AUTO_INCREMENT key, which was unused, advances the counter, and stores name, type, description and difficulty and returns them with the new key; no other row changes |
| Games.GameService.UpdateGame | services/gameService.js:58-68 | result is true exactly when the key exists; then overwrites the four columns of that row only, otherwise nothing changes; the counter is unchanged |
| Games.GameService.DeleteGame | services/gameService.js:71-76 | result is true exactly when the key existed; exactly that row is removed, no other row changes |
| Treasures.TreasureService.GetAllTreasures | services/treasureService.js:20-30 | every stored row exactly once (membership both ways, as many entries as rows), in ascending key order; an empty table gives [] |
| Treasures.TreasureService.GetTreasureById | services/treasureService.js:33-42 | `None` (null) exactly when no row has that key; otherwise the row stored under it |
| Treasures.TreasureService.CreateTreasure | services/treasureService.js:45-55 | inserts under the next AUTO_INCREMENT key, which was unused, advances the counter, and stores name, description and url with `date_added` = the `NOW()` of the write, and returns `{id, name, desc, url}` without a date; no other row changes |
| Treasures.TreasureService.UpdateTreasure | services/treasureService.js:58-68 | result is true exactly when the key exists; then overwrites name, description and url, and re-stamps `date_added` with `NOW()` of that row only, otherwise nothing changes; the counter is unchanged |
| Treasures.TreasureService.DeleteTreasure | services/treasureService.js:71-76 | result is true exactly when the key existed; exactly that row is removed, no other row changes |
| Achievements.AchievementService.GetAllAchievements | services/achievementService.js:20-30 | every stored row exactly once (membership both ways, as many entries as rows), in ascending key order; an empty table gives [] |
| Achievements.AchievementService.GetAchievementById | services/achievementService.js:33-42 | `None` (null) exactly when no row has that key; otherwise the row stored under it |
| Achievements.AchievementService.CreateAchievement | services/achievementService.js:45-55 | inserts under the next AUTO_INCREMENT key, which was unused, advances the counter, and stores name, category, description and required points and returns them with the new key; no other row changes |
| Achievements.AchievementService.UpdateAchievement | services/achievementService.js:58-68 | result is true exactly when the key exists; then overwrites the four columns of that row only, otherwise nothing changes; the counter is unchanged |
| Achievements.AchievementService.DeleteAchievement | services/achievementService.js:71-76 | result is true exactly when the key existed; exactly that row is removed, no other row changes |
| Clues.ClueService.GetAllClues | services/clueService.js:20-30 | every stored row exactly once (membership both ways, as many entries as rows), in ascending key order; an empty table gives [] |
| Clues.ClueService.GetClueById | services/clueService.js:33-42 | `None` (null) exactly when no row has that key; otherwise the row stored under it |
| Clues.ClueService.CreateClue | services/clueService.js:45-55 | inserts under the next AUTO_INCREMENT key, which was unused, advances the counter, and stores text and `treasure_id` as given (unchecked) with `date_issued` = `NOW()`, and returns `{id, text, treasure_id}`; no other row changes |
| Clues.ClueService.UpdateClue | services/clueService.js:58-68 | result is true exactly when the key exists; then overwrites text and `treasure_id`, and re-stamps `date_issued` of that row only, otherwise nothing changes; the counter is unchanged |
| Clues.ClueService.DeleteClue | services/clueService.js:71-76 | result is true exactly when the key existed; exactly that row is removed, no other row changes |
| GameClues.GameClueService.GetAllGameClues | services/game-clueService.js:20-30 | every stored row exactly once (membership both ways, as many entries as rows), in ascending key order; an empty table gives [] |
| GameClues.GameClueService.GetGameClueById | services/game-clueService.js:33-42 | `None` (null) exactly when no row has that key; otherwise the row stored under it |
| GameClues.GameClueService.CreateGameClue | services/game-clueService.js:45-55 | inserts under the next AUTO_INCREMENT key, which was unused, advances the counter, and stores `game_id` and `clue_id` as given (unchecked) and returns them with the new key; no other row changes |
| GameClues.GameClueService.UpdateGameClue | services/game-clueService.js:58-68 | result is true exactly when the key exists; then overwrites `game_id` and `clue_id` of that row only, otherwise nothing changes; the counter is unchanged |
| GameClues.GameClueService.DeleteGameClue | services/game-clueService.js:71-76 | result is true exactly when the key existed; exactly that row is removed, no other row changes |
| GameUsers.GameUserService.GetAllGameUsers | services/game-userService.js:20-30 | every stored row exactly once (membership both ways, as many entries as rows), in ascending key order; an empty table gives [] |
| GameUsers.GameUserService.GetGameUserById | services/game-userService.js:33-42 | `None` (null) exactly when no row has that key; otherwise the row stored under it |
| GameUsers.GameUserService.CreateGameUser | services/game-userService.js:45-55 | inserts under the next AUTO_INCREMENT key, which was unused, advances the counter, and stores score 0, the given status and `date_completed` = `NOW()`, but returns the caller's score; no other row changes |
| GameUsers.GameUserService.UpdateGameUser | services/game-userService.js:58-68 | result is true exactly when the key exists; then overwrites `game_id`, `user_id`, the given score and status, and re-stamps `date_completed` of that row only, otherwise nothing changes; the counter is unchanged |
| GameUsers.GameUserService.DeleteGameUser | services/game-userService.js:71-76 | result is true exactly when the key existed; exactly that row is removed, no other row changes |
| UserTreasures.UserTreasureService.GetAllUserTreasures | services/user-treasureService.js:20-30 | every stored row exactly once (membership both ways, as many entries as rows), in ascending key order; an empty table gives [] |
| UserTreasures.UserTreasureService.GetUserTreasureById | services/user-treasureService.js:33-42 | `None` (null) exactly when no row has that key; otherwise the row stored under it |
| UserTreasures.UserTreasureService.CreateUserTreasure | services/user-treasureService.js:45-55 | inserts under the next AUTO_INCREMENT key, which was unused, advances the counter, and stores `user_id`, `treasure_id` and `is_verified` with `date_found` = `NOW()`, and returns them without the date; no other row changes |
| UserTreasures.UserTreasureService.UpdateUserTreasure | services/user-treasureService.js:58-68 | result is true exactly when the key exists; then overwrites `user_id`, `treasure_id` and `is_verified`, and re-stamps `date_found` of that row only, otherwise nothing changes; the counter is unchanged |
| UserTreasures.UserTreasureService.DeleteUserTreasure | services/user-treasureService.js:71-76 | result is true exactly when the key existed; exactly that row is removed, no other row changes |
| UserAchievements.UserAchievementService.GetAllUserAchievements | services/user-achievementService.js:20-30 | every stored row exactly once (membership both ways, as many entries as rows), in ascending key order; an empty table gives [] |
| UserAchievements.UserAchievementService.GetUserAchievementById | services/user-achievementService.js:33-42 | `None` (null) exactly when no row has that key; otherwise the row stored under it |
| UserAchievements.UserAchievementService.CreateUserAchievement | services/user-achievementService.js:45-55 | inserts under the next AUTO_INCREMENT key, which was unused, advances the counter, and ignores the supplied `date_r`, stores `date_received` = `NOW()`, and returns `{uaid, user_id, achievement_id}`; no other row changes |
| UserAchievements.UserAchievementService.UpdateUserAchievement | services/user-achievementService.js:58-68 | result is true exactly when the key exists; then overwrites `user_id` and `achievement_id`, and re-stamps `date_received` of that row only, otherwise nothing changes; the counter is unchanged |
| UserAchievements.UserAchievementService.DeleteUserAchievement | services/user-achievementService.js:71-76 | result is true exactly when the key existed; exactly that row is removed, no other row changes |
| Leaderboards.LeaderboardService.GetAllLeaderboards | services/leaderboardService.js:20-30 | every stored row exactly once (membership both ways, as many entries as rows), in ascending key order; an empty table gives [] |
| Leaderboards.LeaderboardService.GetLeaderboardById | services/leaderboardService.js:33-42 | `None` (null) exactly when no row has that key; otherwise the row stored under it |
| Leaderboards.LeaderboardService.CreateLeaderboard | services/leaderboardService.js:45-55 | inserts under the next AUTO_INCREMENT key, which was unused, advances the counter, and stores points and `user_id` with `leaderboard_date` = `NOW()`, and returns `{id, points_e, user_id}`; no other row changes |
| Leaderboards.LeaderboardService.UpdateLeaderboard | services/leaderboardService.js:58-68 | result is true exactly when the key exists; then overwrites points and `user_id`, and re-stamps `leaderboard_date` of that row only, otherwise nothing changes; the counter is unchanged |
| Leaderboards.LeaderboardService.DeleteLeaderboard | services/leaderboardService.js:71-76 | result is true exactly when the key existed; exactly that row is removed, no other row changes |
| Users.UserService.CheckLogin | services/userService.js:79-84 | true exactly when at least one stored user has that username and password (compared as exact strings) |
| UserController.GetAllUsers | controllers/userController.js:10-21 | 200 with the service's complete listing |
| UserController.GetUserById | controllers/userController.js:24-40 | 404 exactly when the key is absent, otherwise 200 with the stored row |
| UserController.CreateUser | controllers/userController.js:43-56 | forwards name, email and password only (body points and rewards never reach the store); 201 with the stored user, points and rewards 0 |
| UserController.UpdateUser | controllers/userController.js:59-78 | 404 and no change exactly when the key is absent; otherwise 200 and that row is overwritten with the forwarded fields |
| UserController.DeleteUser | controllers/userController.js:81-98 | exactly that row is removed; 200 when it existed, 404 otherwise |
| GameController.GetAllGames | controllers/gameController.js:9-20 | 200 with the service's complete listing |
| GameController.GetGameById | controllers/gameController.js:23-40 | 404 exactly when the key is absent, otherwise 200 with the stored row |
| GameController.CreateGame | controllers/gameController.js:43-56 | forwards name, type, description and difficulty; 201 with the created game under a fresh key |
| GameController.UpdateGame | controllers/gameController.js:59-78 | 404 and no change exactly when the key is absent; otherwise 200 and that row is overwritten with the forwarded fields |
| GameController.DeleteGame | controllers/gameController.js:81-98 | exactly that row is removed; 200 when it existed, 404 otherwise |
| TreasureController.GetAllTreasures | controllers/treasureController.js:10-21 | 200 with the service's complete listing |
| TreasureController.GetTreasureById | controllers/treasureController.js:24-40 | 404 exactly when the key is absent, otherwise 200 with the stored row |
| TreasureController.CreateTreasure | controllers/treasureController.js:43-56 | forwards name, description and url only (a body `date` is dropped, the row gets `now`); 201 with the created treasure |
| TreasureController.UpdateTreasure | controllers/treasureController.js:59-78 | 404 and no change exactly when the key is absent; otherwise 200 and that row is overwritten with the forwarded fields |
| TreasureController.DeleteTreasure | controllers/treasureController.js:81-98 | exactly that row is removed; 200 when it existed, 404 otherwise |
| AchievementController.GetAllAchievements | controllers/achievementController.js:9-20 | 200 with the service's complete listing |
| AchievementController.GetAchievementById | controllers/achievementController.js:23-40 | 404 exactly when the key is absent, otherwise 200 with the stored row |
| AchievementController.CreateAchievement | controllers/achievementController.js:43-56 | forwards name, category, description and points; 201 with the created achievement |
| AchievementController.UpdateAchievement | controllers/achievementController.js:59-78 | 404 and no change exactly when the key is absent; otherwise 200 and that row is overwritten with the forwarded fields |
| AchievementController.DeleteAchievement | controllers/achievementController.js:81-98 | exactly that row is removed; 200 when it existed, 404 otherwise |
| ClueController.GetAllClues | controllers/clueController.js:10-21 | 200 with the service's complete listing |
| ClueController.GetClueById | controllers/clueController.js:24-41 | 404 exactly when the key is absent, otherwise 200 with the stored row |
| ClueController.CreateClue | controllers/clueController.js:44-63 | when the treasure is missing: 404 "Treasure not found" and the table and its counter are unchanged; otherwise 201 with the created object, one row inserted under the next key |
| ClueController.UpdateClue | controllers/clueController.js:66-91 | the row is overwritten exactly when its key exists; the answer is 404 "… not found or no changes made" when it does not (no reference lookup), else 404 "Treasure not found" when the treasure is missing although the row has already changed, else 200 |
| ClueController.DeleteClue | controllers/clueController.js:94-111 | exactly that row is removed; 200 when it existed, 404 otherwise |
| GameClueController.GetAllGameClues | controllers/game-clueController.js:11-22 | 200 with the service's complete listing |
| GameClueController.GetGameClueById | controllers/game-clueController.js:25-42 | 404 exactly when the key is absent, otherwise 200 with the stored row |
| GameClueController.CreateGameClue | controllers/game-clueController.js:45-68 | when the game or the clue is missing: 404 "Game or clue not found" and the table and its counter are unchanged; otherwise 201 with the created object, one row inserted under the next key |
| GameClueController.UpdateGameClue | controllers/game-clueController.js:71-102 | the row is overwritten exactly when its key exists; the answer is 404 "… not found or no changes made" when it does not (no reference lookup), else 404 "Game or clue not found" when the game or the clue is missing although the row has already changed, else 200 |
| GameClueController.DeleteGameClue | controllers/game-clueController.js:105-124 | exactly that row is removed; 200 when it existed, 404 otherwise |
| GameUserController.GetAllGameUsers | controllers/game-userController.js:11-22 | 200 with the service's complete listing |
| GameUserController.GetGameUserById | controllers/game-userController.js:25-42 | 404 exactly when the key is absent, otherwise 200 with the stored row |
| GameUserController.CreateGameUser | controllers/game-userController.js:45-68 | when the game or the user is missing: 404 "Game or user not found" and the table and its counter are unchanged; otherwise 201 with the created object, one row inserted under the next key; the body carries the caller's score while the stored row has 0 |
| GameUserController.UpdateGameUser | controllers/game-userController.js:71-102 | the row is overwritten exactly when its key exists; the answer is 404 "… not found or no changes made" when it does not (no reference lookup), else 404 "Game or user not found" when the game or the user is missing although the row has already changed, else 200 |
| GameUserController.DeleteGameUser | controllers/game-userController.js:105-124 | exactly that row is removed; 200 when it existed, 404 otherwise |
| UserTreasureController.GetAllUserTreasures | controllers/user-treasureController.js:12-23 | 200 with the service's complete listing |
| UserTreasureController.GetUserTreasureById | controllers/user-treasureController.js:26-42 | 404 exactly when the key is absent, otherwise 200 with the stored row |
| UserTreasureController.CreateUserTreasure | controllers/user-treasureController.js:45-65 | when the treasure or the user is missing: 404 "User or treasure not found" and the table and its counter are unchanged; otherwise 201 with the created object, one row inserted under the next key |
| UserTreasureController.UpdateUserTreasure | controllers/user-treasureController.js:68-96 | the row is overwritten exactly when its key exists; the answer is 404 "… not found or no changes made" when it does not (no reference lookup), else 404 "Treasure or user not found" when the treasure or the user is missing although the row has already changed, else 200 |
| UserTreasureController.DeleteUserTreasure | controllers/user-treasureController.js:99-116 | exactly that row is removed; 200 when it existed, 404 otherwise |
| UserAchievementController.GetAllUserAchievements | controllers/user-achievementController.js:12-23 | 200 with the service's complete listing |
| UserAchievementController.GetUserAchievementById | controllers/user-achievementController.js:26-42 | 404 exactly when the key is absent, otherwise 200 with the stored row |
| UserAchievementController.CreateUserAchievement | controllers/user-achievementController.js:45-65 | when the achievement or the user is missing: 404 "User or achievement not found" and the table and its counter are unchanged; otherwise 201 with the created object, one row inserted under the next key; only the two keys are forwarded, so no `date_r` reaches the service |
| UserAchievementController.UpdateUserAchievement | controllers/user-achievementController.js:68-96 | the row is overwritten exactly when its key exists; the answer is 404 "… not found or no changes made" when it does not (no reference lookup), else 404 "Achievement or user not found" when the achievement or the user is missing although the row has already changed, else 200 |
| UserAchievementController.DeleteUserAchievement | controllers/user-achievementController.js:99-116 | exactly that row is removed; 200 when it existed, 404 otherwise |
| LeaderboardController.GetAllLeaderboards | controllers/leaderboardController.js:11-22 | 200 with the service's complete listing |
| LeaderboardController.GetLeaderboardById | controllers/leaderboardController.js:25-42 | 404 exactly when the key is absent, otherwise 200 with the stored row |
| LeaderboardController.CreateLeaderboard | controllers/leaderboardController.js:45-64 | when the user is missing: 404 "User not found" and the table and its counter are unchanged; otherwise 201 with the created object, one row inserted under the next key |
| LeaderboardController.UpdateLeaderboard | controllers/leaderboardController.js:67-92 | the row is overwritten exactly when its key exists; the answer is 404 "… not found or no changes made" when it does not (no reference lookup), else 404 "User not found" when the user is missing although the row has already changed, else 200 |
| LeaderboardController.DeleteLeaderboard | controllers/leaderboardController.js:95-112 | exactly that row is removed; 200 when it existed, 404 otherwise |
| UserController.CheckLogin | controllers/userController.js:101-118 | 200 "User login successful" when some stored user matches both name and password, 401 "Incorrect username or password" when none does |
| Tables.Keys | services/userService.js:23-25 | the keys of a range, each stored key in it exactly once and nothing else |
| Tables.KeysSorted | services/userService.js:23-25 | the key list is strictly ascending |
| Tables.KeysCountBetween | services/userService.js:23-25 | the key list has exactly as many entries as the range has stored keys |
| Tables.KeysCount | services/userService.js:23-25 | a scan of a whole table lists as many keys as the table has rows |
| Tables.Fetch | services/userService.js:25 | the rows under the given keys, position by position (`rows.map(fromRow)`) |
| Tables.Scan | services/userService.js:20-30 | `SELECT *` has one entry per stored row |
| Tables.ScanMembers | services/userService.js:20-30 | every stored row is listed, and every listed value is a stored row |
| Tables.ScanSortedKeyed | services/userService.js:20-30 | when rows carry their own key, the listing is in strictly ascending key order |
| Tables.KeysAppend | services/userService.js:47-54 | inserting under the next key appends that key to the key order |
| Tables.ScanAppend | services/userService.js:47-54 | after an insert under the next AUTO_INCREMENT key, `getAll` is the earlier listing, unchanged, followed by the new row |
| Tables.KeysSameDomain | services/userService.js:60-67 | the key order depends only on which keys are present |
| Tables.ScanOverwrite | services/userService.js:60-67 | overwriting a stored row keeps the listing's length and order and changes only the entry at that key's position |
| Tables.ScanOverwriteKeyed | services/userService.js:60-67 | after an update of row `id`, `getAll` has the same length and differs only at the entry whose key is `id`, which becomes the new row |
| Tables.ScanRemoveKeyed | services/userService.js:71-76 | after a delete of key `id`, `getAll` lists exactly the earlier rows except the one with key `id`, one fewer when it existed |
| Scenarios.UpdateClueWithMissingTreasure | controllers/clueController.js:73-83 | an update naming a missing treasure answers 404 "Treasure not found" while the clue's text, treasure and date have already been rewritten |
| Scenarios.CreateClueWithMissingTreasure | controllers/clueController.js:47-53 | a create naming a missing treasure answers 404 and the clue table stays empty |
| Scenarios.DeleteGameTwice | controllers/gameController.js:84-92 | a second delete of the same key answers 404, and so does a lookup afterwards |
| Scenarios.RegisterThenLogin | controllers/userController.js:46-50 | body points and rewards are dropped (stored as 0); a login with the stored credentials answers 200, a wrong password or name 401 |
| Scenarios.GameUserScoreNotStored | services/game-userService.js:49-54 | a create with score 7 and status "Completed" answers with score 7 while the stored row holds 0 |
| Scenarios.DeleteTreasureKeepsClues | services/treasureService.js:71-76 | deleting a treasure leaves the clue that names it in place |

## Left out

- The MySQL pool, its `init()` and environment configuration (`config/database.js`) are replaced by the in-memory maps. Database failures, and the exception-to-500 paths they lead to, are not modelled: the in-memory tables cannot fail. This also covers the generic `Error` that `getAll` rethrows.
- Routes, middleware and the express-validator chains are HTTP plumbing whose checks live in a library outside the model. Path ids are converted by `parseInt`. Body ids are only checked by `isInt()`, which does not convert them, so they reach the services as strings and MySQL coerces them; the model takes every id as an integer.
- `is_verified` is stored in a TINYINT column and reads back as 0 or 1, not as a boolean; the model keeps it as a `bool`.
- `moment(...).format("YYYY-MM-DD")` in the models is a foreign call. Dates are opaque `Timestamp` values and the clock is the caller's `now`.
- Request bodies are not modelled as JSON objects. A missing or `undefined` body field has no counterpart; every forwarded field is a typed parameter.
- Async scheduling, concurrent requests and last-writer-wins interleavings are not modelled. Each handler runs atomically.
- Foreign keys are not modelled. The store accepts any `treasure_id`, `user_id` and so on, and deleting a row cascades nothing.
- The SQL text and MySQL's `affectedRows` are not modelled as such. An UPDATE counts the row it matched, so `update` reports true exactly when the key exists.
- `getAll`'s order is not promised by the SQL, which has no `ORDER BY`. The model fixes primary-key order; the ordering lemmas (`ScanSortedKeyed`, `ScanAppend`, `ScanOverwriteKeyed`) are facts about the model, not about the server.
- CheckLogin (`Users.UserService.CheckLogin`, `UserController.CheckLogin`): username and password are compared by exact string equality. The SQL `WHERE username = ? AND user_password = ?` compares under the column collation, which for MySQL 8's default utf8mb4_0900_ai_ci ignores case and accents; that collation-insensitive match is not captured. `checkLogin` accepts any positive number of matches (`result.length > 0`, services/userService.js:83), and the model follows it.
