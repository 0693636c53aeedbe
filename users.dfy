/** The `users` table and the service that owns it. */
module Users {
  import opened Tables

  /** A row of `users` as `User.fromRow` renames its columns
      (user_id, username, user_email, user_password, user_points, user_rewards). */
  datatype User = User(id: Id, name: string, email: string, pass: string, points: int, rewards: int)

  class UserService {
    var rows: map<Id, User>
    var nextId: Id

    /** The AUTO_INCREMENT bookkeeping holds and every row carries its own key. */
    ghost predicate Valid()
      reads this
    {
      KeysBelow(rows, nextId) && forall k :: k in rows ==> rows[k].id == k
    }

    /** An empty `users` table. */
    constructor ()
      ensures Valid() && rows == map[] && nextId == 1
    {
      rows := map[];
      nextId := 1;
    }

    /** `getAllUsers`: every row once, in key order; an empty table gives []. */
    function GetAllUsers(): (all: seq<User>)
      reads this
      requires Valid()
      ensures |all| == |rows|
      ensures forall x :: x in all <==> x.id in rows && rows[x.id] == x
      ensures forall i, j :: 0 <= i < j < |all| ==> all[i].id < all[j].id
    {
      ScanMembers(rows, nextId);
      ScanSortedKeyed(rows, nextId, (x: User) => x.id);
      Scan(rows, nextId)
    }

    /** `getUserById`: the row with key `id`, or null when there is none. */
    function GetUserById(id: Id): (found: Option<User>)
      reads this
      requires Valid()
      ensures found.None? <==> id !in rows
      ensures found.Some? ==> found.value.id == id && rows[id] == found.value
    {
      if id in rows then Some(rows[id]) else None
    }

    /** `createUser`: inserts under a fresh key with points and rewards 0 and
        returns them as 0. */
    method CreateUser(name: string, email: string, pass: string) returns (created: User)
      requires Valid()
      modifies this
      ensures Valid()
      ensures created.id == old(nextId) && created.id !in old(rows) && nextId == old(nextId) + 1
      ensures created == User(created.id, name, email, pass, 0, 0)
      ensures rows == old(rows)[created.id := created]
    {
      created := User(nextId, name, email, pass, 0, 0);
      rows := rows[nextId := created];
      nextId := nextId + 1;
    }

    /** `updateUser`: overwrites all five columns of row `id`; false when no row has key `id`. */
    method UpdateUser(id: Id, name: string, email: string, pass: string, points: int, rewards: int)
      returns (updated: bool)
      requires Valid()
      modifies this
      ensures Valid() && nextId == old(nextId)
      ensures updated <==> id in old(rows)
      ensures rows == if updated then old(rows)[id := User(id, name, email, pass, points, rewards)] else old(rows)
    {
      updated := id in rows;
      if updated {
        rows := rows[id := User(id, name, email, pass, points, rewards)];
      }
    }

    /** `deleteUser`: removes row `id`; true iff a row was removed. */
    method DeleteUser(id: Id) returns (deleted: bool)
      requires Valid()
      modifies this
      ensures Valid() && nextId == old(nextId)
      ensures deleted <==> id in old(rows)
      ensures rows == old(rows) - {id}
    {
      deleted := id in rows;
      rows := rows - {id};
    }

    /** `checkLogin`: the `SELECT user_id ... WHERE username = ? AND user_password = ?`
        query returns at least one row. */
    function CheckLogin(name: string, pass: string): (ok: bool)
      reads this
      ensures ok <==> exists k :: k in rows && rows[k].name == name && rows[k].pass == pass
    {
      var matches := set k | k in rows && rows[k].name == name && rows[k].pass == pass;
      assert (exists k :: k in rows && rows[k].name == name && rows[k].pass == pass) ==> matches != {} by {
        if exists k :: k in rows && rows[k].name == name && rows[k].pass == pass {
          var k :| k in rows && rows[k].name == name && rows[k].pass == pass;
          assert k in matches;
        }
      }
      matches != {}
    }
  }
}
