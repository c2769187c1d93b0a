/** The user and role tables and the lookups the services make on them.
    Rows are kept in insertion order; ids come from identity columns, so the
    row at index i has id i + 1 (no operation of the core deletes a user or a role). */
module UserRepository {
  import opened Entities

  predicate UserIdsFollowRows(users: seq<User>)
  {
    forall i :: 0 <= i < |users| ==> users[i].id == i + 1
  }

  predicate RoleIdsFollowRows(roles: seq<Role>)
  {
    forall i :: 0 <= i < |roles| ==> roles[i].id == i + 1
  }

  /** No two rows share a username. */
  predicate UniqueUsernames(users: seq<User>)
  {
    forall i, j :: 0 <= i < j < |users| ==> users[i].username != users[j].username
  }

  /** No two rows share an email. */
  predicate UniqueEmails(users: seq<User>)
  {
    forall i, j :: 0 <= i < j < |users| ==> users[i].email != users[j].email
  }

  class UserStore {
    var users: seq<User>

    ghost predicate Valid()
      reads this
    {
      UserIdsFollowRows(users) && UniqueUsernames(users) && UniqueEmails(users)
    }

    constructor ()
      ensures Valid() && users == []
    {
      users := [];
    }
  }

  class RoleStore {
    var roles: seq<Role>

    ghost predicate Valid()
      reads this
    {
      RoleIdsFollowRows(roles)
    }

    constructor ()
      ensures Valid() && roles == []
    {
      roles := [];
    }
  }

  /** `existsByUsername` */
  predicate ExistsByUsername(users: seq<User>, username: string)
  {
    exists i :: 0 <= i < |users| && users[i].username == username
  }

  /** `existsByEmail` */
  predicate ExistsByEmail(users: seq<User>, email: string)
  {
    exists i :: 0 <= i < |users| && users[i].email == email
  }

  /** `findByUsername`: the first row with that username (the only one while
      usernames are unique). */
  function FindByUsername(users: seq<User>, username: string): (r: Option<User>)
    ensures r.Some? <==> ExistsByUsername(users, username)
    ensures r.Some? ==> r.value in users && r.value.username == username
  {
    if users == [] then None
    else if users[0].username == username then Some(users[0])
    else
      var r := FindByUsername(users[1..], username);
      assert ExistsByUsername(users, username) ==> ExistsByUsername(users[1..], username) by {
        if ExistsByUsername(users, username) {
          var i :| 0 <= i < |users| && users[i].username == username;
          assert users[1..][i - 1] == users[i];
        }
      }
      r
  }

  /** `roleRepository.findByName`: the first role with that name. */
  function FindRoleByName(roles: seq<Role>, name: string): (r: Option<Role>)
    ensures r.Some? <==> exists i :: 0 <= i < |roles| && roles[i].name == name
    ensures r.Some? ==> r.value in roles && r.value.name == name
  {
    if roles == [] then None
    else if roles[0].name == name then Some(roles[0])
    else
      var r := FindRoleByName(roles[1..], name);
      assert (exists i :: 0 <= i < |roles| && roles[i].name == name) ==>
             (exists i :: 0 <= i < |roles| - 1 && roles[1..][i].name == name) by {
        if exists i :: 0 <= i < |roles| && roles[i].name == name {
          var i :| 0 <= i < |roles| && roles[i].name == name;
          assert roles[1..][i - 1] == roles[i];
        }
      }
      r
  }

  /** With unique usernames, the lookup finds the one row that has the name. */
  lemma FindByUsernameUnique(users: seq<User>, i: nat)
    requires UniqueUsernames(users) && i < |users|
    ensures FindByUsername(users, users[i].username) == Some(users[i])
  {
    var r := FindByUsername(users, users[i].username);
    var j :| 0 <= j < |users| && users[j] == r.value;
    assert j == i;
  }

  /** A row appended under a new name is what a later lookup of that name finds. */
  lemma {:induction false} FindAppended(users: seq<User>, user: User)
    requires !ExistsByUsername(users, user.username)
    ensures FindByUsername(users + [user], user.username) == Some(user)
  {
    if users != [] {
      assert (users + [user])[1..] == users[1..] + [user];
      FindAppended(users[1..], user);
    }
  }
}
