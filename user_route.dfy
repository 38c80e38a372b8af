/** The registration route: `POST /api/user`. */
module UserRoute {
  import opened Wrappers
  import opened Lists
  import opened Schema
  import opened Zod

  /** The JSON body of the request; `kind` is its `type` field. A field that is absent is `None`. */
  datatype RegisterBody = RegisterBody(username: Option<string>, email: Option<string>,
                                       kind: Option<string>, password: Option<string>)

  /** What `userSchema.parse` returns when the body is accepted. */
  datatype Registration = Registration(username: string, email: string, role: Role, password: string)

  /** The body of a reply of the user routes. */
  datatype UserBody = UserAndMessage(user: Option<PublicUser>, message: string) | ErrorOnly(error: string)

  datatype UserReply = UserReply(status: int, body: UserBody)

  const InternalError := UserReply(500, ErrorOnly("Internal Server Error"))

  /** zod's message for a required field that is absent. */
  const Required := "Required"

  /** zod's message for a `z.enum(["user", "admin"])` given another string. */
  function EnumMessage(t: string): string {
    "Invalid enum value. Expected 'user' | 'admin', received '" + t + "'"
  }

  /** The issues of `userSchema`, field by field in declaration order: username of 1 to 20
      characters, a non-empty well-formed email, a type of "user" or "admin", and a password of at
      least 8 characters. `isEmail` is zod's e-mail pattern. */
  function UserSchemaIssues(body: RegisterBody, isEmail: string -> bool): seq<Issue> {
    (match body.username
     case None => [Issue("username", Required)]
     case Some(u) =>
       Check("username", |u| >= 1, "Username is required")
       + Check("username", |u| <= 20, "Username must be at most 20 characters long"))
    + (match body.email
       case None => [Issue("email", Required)]
       case Some(e) => Check("email", |e| >= 1, "Email is required") + Check("email", isEmail(e), "Invalid email address"))
    + (match body.kind
       case None => [Issue("type", "You need to select a role.")]
       case Some(t) => Check("type", ParseRole(t).Some?, EnumMessage(t)))
    + (match body.password
       case None => [Issue("password", Required)]
       case Some(p) =>
         Check("password", |p| >= 1, "Password is required")
         + Check("password", |p| >= 8, "Password must be at least 8 characters long"))
  }

  /** `userSchema.parse(body)`: the registration when the schema has no issue, else `None` (parse
      throws). It succeeds exactly for a username of 1 to 20 characters, a non-empty well-formed
      email, a role and a password of at least 8 characters, and keeps the fields as given. */
  function ParseUser(body: RegisterBody, isEmail: string -> bool): (r: Option<Registration>)
    ensures r.Some? <==>
      && body.username.Some? && 1 <= |body.username.value| <= 20
      && body.email.Some? && |body.email.value| >= 1 && isEmail(body.email.value)
      && body.kind.Some? && (body.kind.value == "user" || body.kind.value == "admin")
      && body.password.Some? && |body.password.value| >= 8
    ensures r.Some? ==>
      && r.value.username == body.username.value && r.value.email == body.email.value
      && RoleText(r.value.role) == body.kind.value && r.value.password == body.password.value
  {
    if UserSchemaIssues(body, isEmail) == [] then
      Some(Registration(body.username.value, body.email.value, ParseRole(body.kind.value).value, body.password.value))
    else None
  }

  /** The row `POST /api/user` inserts: the parsed fields, the role from `type`, the bcrypt hash
      `hashed` in place of the password and no profile fields. */
  function NewUser(id: string, reg: Registration, hashed: string): (u: User)
    ensures u.id == id && u.name == reg.username && u.email == reg.email && u.role == reg.role
    ensures u.password == Some(hashed)
    ensures u.image.None? && u.designation.None? && u.bio.None? && u.employeeId.None?
  {
    User(id, reg.username, reg.email, Some(hashed), reg.role, None, None, None, None)
  }

  /** A new user with a fresh id, email and name keeps the user table's columns unique. */
  lemma AddUserValid(users: seq<User>, u: User)
    requires UsersValid(users)
    requires UserById(users, u.id).None? && UserByEmail(users, u.email).None? && UserByName(users, u.name).None?
    requires u.employeeId.None?
    ensures UsersValid(users + [u])
  {
    AppendUnique(users, u, UserId);
    AppendUnique(users, u, UserEmail);
    AppendUnique(users, u, UserName);
    var r := users + [u];
    forall i, j | 0 <= i < j < |r| && r[i].employeeId.Some? ensures r[i].employeeId != r[j].employeeId {
      assert r[i] == users[i];
      if j < |users| { assert r[j] == users[j]; }
    }
  }

  /** `POST /api/user`. A body that is not JSON or that the schema rejects (a missing `type`
      included) is caught and answered 500. An email already registered is a 409, checked before
      the username, then a username already taken; nothing is inserted. Otherwise exactly one user
      is appended, with `role = type` and the bcrypt hash of the submitted password, and the 201
      reply carries the new row without its password. The table's emails and names stay unique
      whatever sequence of registrations runs. `hash` is `bcrypt.hash` with the salt this call
      draws. */
  method RegisterRoute(db: Database, request: Option<RegisterBody>, isEmail: string -> bool,
                       hash: string -> string, newId: string)
    returns (r: UserReply)
    requires db.Valid()
    requires UserById(db.users, newId).None?
    modifies db
    ensures db.Valid()
    ensures unchanged(db`posts, db`likes, db`categories, db`resetTokens)
    ensures request.None? || ParseUser(request.value, isEmail).None? ==> r == InternalError && unchanged(db)
    ensures request.Some? && ParseUser(request.value, isEmail).Some? ==>
      var reg := ParseUser(request.value, isEmail).value;
      if UserByEmail(old(db.users), reg.email).Some? then
        r == UserReply(409, UserAndMessage(None, "User with this email already exists")) && unchanged(db)
      else if UserByName(old(db.users), reg.username).Some? then
        r == UserReply(409, UserAndMessage(None, "User with this username already exists")) && unchanged(db)
      else
        && db.users == old(db.users) + [NewUser(newId, reg, hash(reg.password))]
        && r == UserReply(201, UserAndMessage(Some(Public(NewUser(newId, reg, hash(reg.password)))), "User created successfully"))
  {
    if request.None? {
      return InternalError;
    }
    var parsed := ParseUser(request.value, isEmail);
    if parsed.None? {
      return InternalError;
    }
    var reg := parsed.value;
    if UserByEmail(db.users, reg.email).Some? {
      return UserReply(409, UserAndMessage(None, "User with this email already exists"));
    }
    if UserByName(db.users, reg.username).Some? {
      return UserReply(409, UserAndMessage(None, "User with this username already exists"));
    }
    var user := NewUser(newId, reg, hash(reg.password));
    AddUserValid(db.users, user);
    FindAppendIds(db.users, user);
    db.users := db.users + [user];
    r := UserReply(201, UserAndMessage(Some(Public(user)), "User created successfully"));
  }

  /** Adding a user keeps every reset token's owner in the table. */
  lemma FindAppendIds(users: seq<User>, u: User)
    ensures forall k :: UserById(users, k).Some? ==> UserById(users + [u], k).Some?
  {
    forall k | UserById(users, k).Some? ensures UserById(users + [u], k).Some? {
      FindAppend(users, u, (x: User) => x.id == k);
    }
  }

  /** Once registered, the new user is the one found by their email and by their name. */
  lemma RegisteredUserIsFound(users: seq<User>, u: User)
    requires UserByEmail(users, u.email).None? && UserByName(users, u.name).None?
    ensures UserByEmail(users + [u], u.email) == Some(u)
    ensures UserByName(users + [u], u.name) == Some(u)
  {
    FindAppend(users, u, (x: User) => x.email == u.email);
    FindAppend(users, u, (x: User) => x.name == u.name);
  }
}
