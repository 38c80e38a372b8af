/** The role-lookup route: `GET /api/isAdmin?name=…`. */
module IsAdminRoute {
  import opened Wrappers
  import opened Lists
  import opened Schema

  /** The JSON reply: an error for a missing name, or the role of the named user (absent when no
      user has that name). */
  datatype RoleReply = NameMissing | RoleOf(role: Option<Role>)

  /** `GET /api/isAdmin`. A missing or empty name is answered `{error: "name cannot be NULL"}`;
      otherwise the reply carries the role of a user with that name, and no role when there is none.
      It reads the user table and changes nothing. */
  function RoleLookup(users: seq<User>, name: Option<string>): (r: RoleReply)
    ensures r == NameMissing <==> !Truthy(name)
    ensures Truthy(name) ==> (r.role.Some? <==> exists u :: u in users && u.name == name.value)
    ensures Truthy(name) && r.role.Some? ==> exists u :: u in users && u.name == name.value && u.role == r.role.value
  {
    if !Truthy(name) then NameMissing
    else
      match UserByName(users, name.value)
      case None => RoleOf(None)
      case Some(u) => RoleOf(Some(u.role))
  }

  /** With unique names, the reply carries the role of the one user with that name. */
  lemma RoleOfNamedUser(users: seq<User>, u: User)
    requires UsersValid(users)
    requires u in users && u.name != ""
    ensures RoleLookup(users, Some(u.name)) == RoleOf(Some(u.role))
  {
    forall y | y in users && y.name == u.name ensures y == u {
      var i :| 0 <= i < |users| && users[i] == y;
      var j :| 0 <= j < |users| && users[j] == u;
      assert UserName(users[i]) == UserName(users[j]);
    }
    FindOnly(users, (x: User) => x.name == u.name, u);
  }
}
