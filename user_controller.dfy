/** Handlers of `/users`, including the credential check behind `/users/login`. */
module UserController {
  import opened Tables
  import opened Http
  import opened Users

  /** `getAllUsers`: 200 with the whole table. */
  method GetAllUsers(users: UserService) returns (resp: Response<seq<User>>)
    requires users.Valid()
    ensures resp == Response(200, Json(users.GetAllUsers()))
  {
    var all := users.GetAllUsers();
    resp := Response(200, Json(all));
  }

  /** `getUserById`: 404 when no user has key `id`, otherwise 200 with that user. */
  method GetUserById(users: UserService, id: Id) returns (resp: Response<User>)
    requires users.Valid()
    ensures id !in users.rows ==> resp == Response(404, Message("User not found"))
    ensures id in users.rows ==> resp == Response(200, Json(users.rows[id]))
  {
    var user := users.GetUserById(id);
    if user.None? {
      return Response(404, Message("User not found"));
    }
    resp := Response(200, Json(user.value));
  }

  /** `createUser`: forwards name, email and password only, so `points` and
      `rewards` in the body never reach the store; answers 201. */
  method CreateUser(users: UserService, name: string, email: string, pass: string, points: int, rewards: int)
    returns (resp: Response<User>)
    requires users.Valid()
    modifies users
    ensures users.Valid()
    ensures resp.status == 201 && resp.body.Json?
    ensures var u := resp.body.value;
      u == User(u.id, name, email, pass, 0, 0) &&
      u.id == old(users.nextId) && users.nextId == old(users.nextId) + 1 && u.id !in old(users.rows) &&
      users.rows == old(users.rows)[u.id := u]
  {
    var created := users.CreateUser(name, email, pass);
    resp := Response(201, Json(created));
  }

  /** `updateUser`: forwards all five fields; 404 exactly when the service
      reports that no row was updated, otherwise 200. */
  method UpdateUser(users: UserService, id: Id, name: string, email: string, pass: string,
                    points: int, rewards: int)
    returns (resp: Reply)
    requires users.Valid()
    modifies users
    ensures users.Valid() && users.nextId == old(users.nextId)
    ensures id !in old(users.rows) ==>
      resp == Response(404, Message("User not found or no changes made")) && users.rows == old(users.rows)
    ensures id in old(users.rows) ==>
      resp == Response(200, Message("User updated successfully")) &&
      users.rows == old(users.rows)[id := User(id, name, email, pass, points, rewards)]
  {
    var success := users.UpdateUser(id, name, email, pass, points, rewards);
    if !success {
      return Response(404, Message("User not found or no changes made"));
    }
    resp := Response(200, Message("User updated successfully"));
  }

  /** `deleteUser`: 404 exactly when nothing was deleted, otherwise 200. */
  method DeleteUser(users: UserService, id: Id) returns (resp: Reply)
    requires users.Valid()
    modifies users
    ensures users.Valid() && users.nextId == old(users.nextId)
    ensures users.rows == old(users.rows) - {id}
    ensures resp == if id in old(users.rows) then Response(200, Message("User deleted successfully"))
                    else Response(404, Message("User not found"))
  {
    var success := users.DeleteUser(id);
    if !success {
      return Response(404, Message("User not found"));
    }
    resp := Response(200, Message("User deleted successfully"));
  }

  /** `checkLogin`: 200 when some stored user has this name and password,
      401 otherwise. */
  method CheckLogin(users: UserService, name: string, pass: string) returns (resp: Reply)
    ensures (exists k :: k in users.rows && users.rows[k].name == name && users.rows[k].pass == pass) ==>
      resp == Response(200, Message("User login successful"))
    ensures !(exists k :: k in users.rows && users.rows[k].name == name && users.rows[k].pass == pass) ==>
      resp == Response(401, Message("Incorrect username or password"))
  {
    var success := users.CheckLogin(name, pass);
    if !success {
      return Response(401, Message("Incorrect username or password"));
    }
    resp := Response(200, Message("User login successful"));
  }
}
