/** The user list store (src/store/useUsersStore.ts): a list that is
    replaced as a whole, and a lookup by id. */
module UsersStore {
  import opened Types
  import opened Seqs

  function UserWithId(id: string): User -> bool
  {
    (u: User) => u.id == id
  }

  /** `users.find(u => u.id === id)`. */
  function UserById(users: seq<User>, id: string): Option<User>
  {
    var i := FirstWhere(UserWithId(id), users);
    if i < 0 then None else Some(users[i])
  }

  class UserStore {
    var users: seq<User>

    constructor()
      ensures users == []
    {
      users := [];
    }

    method SetUsers(newUsers: seq<User>)
      modifies this
      ensures users == newUsers
    {
      users := newUsers;
    }

    /** `getUserById`, which reads the store and changes nothing. */
    function GetUserById(id: string): (r: Option<User>)
      reads this
      ensures r.None? <==> forall u :: u in users ==> u.id != id
      ensures r.Some? ==> r.value in users && r.value.id == id
    {
      UserByIdSpec(users, id);
      UserById(users, id)
    }
  }

  /** The lookup returns the first user with the id, and nothing exactly
      when no user has it. */
  lemma UserByIdSpec(users: seq<User>, id: string)
    ensures UserById(users, id).None? <==> forall u :: u in users ==> u.id != id
    ensures UserById(users, id).Some? ==>
      exists i :: 0 <= i < |users| && users[i] == UserById(users, id).value && users[i].id == id
        && forall j :: 0 <= j < i ==> users[j].id != id
  {
    var i := FirstWhere(UserWithId(id), users);
    if i >= 0 {
      assert users[i] in users;
    } else {
      forall u | u in users ensures u.id != id {
        var k :| 0 <= k < |users| && users[k] == u;
        assert !UserWithId(id)(users[k]);
      }
    }
  }
}
