/** The route that sets a new password with a reset token. */
module ResetPassword {
  import opened Wrappers
  import opened Lists
  import opened Schema
  import opened AuthUtils

  /** The JSON body of the request; a field that is absent, `null` or not a string is `None`. */
  datatype ResetRequest = ResetRequest(token: Option<string>, password: Option<string>)

  const ServerError := Reply(500, ErrorBody("Internal server error"))

  /** The user table after the password of the user `id` has been set to `hashed`; every other
      column and every other user is kept. */
  function WithPassword(users: seq<User>, id: string, hashed: string): (r: seq<User>)
    ensures |r| == |users|
    ensures forall i :: 0 <= i < |users| ==>
      r[i] == if users[i].id == id then users[i].(password := Some(hashed)) else users[i]
  {
    seq(|users|, i requires 0 <= i < |users| =>
      if users[i].id == id then users[i].(password := Some(hashed)) else users[i])
  }

  /** Setting a password changes none of the unique columns, so they stay unique, and the same
      ids are found before and after. */
  lemma WithPasswordValid(users: seq<User>, id: string, hashed: string)
    requires UsersValid(users)
    ensures UsersValid(WithPassword(users, id, hashed))
    ensures forall k :: UserById(WithPassword(users, id, hashed), k).Some? <==> UserById(users, k).Some?
  {
    var r := WithPassword(users, id, hashed);
    assert forall i :: 0 <= i < |r| ==>
      r[i].id == users[i].id && r[i].email == users[i].email && r[i].name == users[i].name
      && r[i].employeeId == users[i].employeeId;
    forall k ensures UserById(r, k).Some? <==> UserById(users, k).Some? {
      SameIdsFound(users, r, k);
    }
  }

  lemma SameIdsFound(users: seq<User>, r: seq<User>, k: string)
    requires |r| == |users|
    requires forall i :: 0 <= i < |r| ==> r[i].id == users[i].id
    ensures UserById(r, k).Some? <==> UserById(users, k).Some?
  {
    if UserById(users, k).Some? {
      var x :| x in users && x.id == k;
      var i :| 0 <= i < |users| && users[i] == x;
      assert r[i] in r && r[i].id == k;
    }
    if UserById(r, k).Some? {
      var x :| x in r && x.id == k;
      var i :| 0 <= i < |r| && r[i] == x;
      assert users[i] in users && users[i].id == k;
    }
  }

  /** The reset transaction keeps every unique column and owner reference of the two tables. */
  lemma ResetKeepsValid(users: seq<User>, tokens: seq<ResetToken>, userId: string, hashed: string, tokenId: string)
    requires UsersValid(users) && TokensValid(tokens, users)
    ensures UsersValid(WithPassword(users, userId, hashed))
    ensures TokensValid(WithoutToken(tokens, tokenId), WithPassword(users, userId, hashed))
  {
    WithPasswordValid(users, userId, hashed);
    FilterTokensValid(tokens, users, (t: ResetToken) => t.id != tokenId);
  }

  /** The request passes the checks made before the token table is consulted. */
  predicate WellFormed(request: ResetRequest) {
    Truthy(request.token) && Truthy(request.password) && |request.password.value| >= 8
  }

  /** The transaction of the route: the password update and the token delete happen together. */
  method ResetTransaction(db: Database, userId: string, tokenId: string, hashed: string)
    requires db.Valid()
    modifies db
    ensures db.Valid()
    ensures unchanged(db`posts, db`likes, db`categories)
    ensures db.users == WithPassword(old(db.users), userId, hashed)
    ensures db.resetTokens == WithoutToken(old(db.resetTokens), tokenId)
  {
    ResetKeepsValid(db.users, db.resetTokens, userId, hashed, tokenId);
    db.users, db.resetTokens := WithPassword(db.users, userId, hashed), WithoutToken(db.resetTokens, tokenId);
  }

  /** The part of the route after the request checks: validates the token and, when it is valid,
      runs the transaction that sets the owner's password to `hashed` and deletes the token. */
  method ResetWithToken(db: Database, token: string, hashed: string, now: int) returns (r: Reply)
    requires db.Valid()
    modifies db
    ensures db.Valid()
    ensures unchanged(db`posts, db`likes, db`categories)
    ensures var found := TokenByValue(old(db.resetTokens), token);
      if found.None? then
        r == Reply(400, ErrorBody("Invalid token")) && unchanged(db)
      else if found.value.expiresAt < now then
        && r == Reply(400, ErrorBody("Token expired"))
        && db.users == old(db.users)
        && db.resetTokens == WithoutToken(old(db.resetTokens), found.value.id)
      else
        && r == Reply(200, MessageBody("Password reset successfully"))
        && db.users == WithPassword(old(db.users), found.value.userId, hashed)
        && db.resetTokens == WithoutToken(old(db.resetTokens), found.value.id)
        && TokenByValue(db.resetTokens, token).None?
  {
    ghost var found := TokenByValue(db.resetTokens, token);
    var validation := ValidateResetToken(db, token, now);
    if validation.TokenInvalid? {
      return Reply(400, ErrorBody(validation.error));
    }
    ConsumedTokenIsGone(db.resetTokens, db.users, found.value);
    ResetTransaction(db, validation.user.id, validation.tokenId, hashed);
    r := Reply(200, MessageBody("Password reset successfully"));
  }

  /** `POST /api/reset-password`. A body that is not JSON is a 500. A missing token or password,
      then a password shorter than 8 characters, is a 400 before the token table is consulted (so
      an expired token is not cleaned up on these paths). Then the token is validated and consumed
      as `ResetWithToken` states, storing the hash of the submitted password. `hash` is
      `hashPassword` (bcrypt with the salt this call draws). */
  method ResetPasswordRoute(db: Database, request: Option<ResetRequest>, hash: string -> string, now: int)
    returns (r: Reply)
    requires db.Valid()
    modifies db
    ensures db.Valid()
    ensures unchanged(db`posts, db`likes, db`categories)
    ensures request.None? ==> r == ServerError && unchanged(db)
    ensures request.Some? && !(Truthy(request.value.token) && Truthy(request.value.password)) ==>
      r == Reply(400, ErrorBody("Token and password are required")) && unchanged(db)
    ensures request.Some? && Truthy(request.value.token) && Truthy(request.value.password) ==>
      |request.value.password.value| < 8 ==>
      r == Reply(400, ErrorBody("Password must be at least 8 characters")) && unchanged(db)
    ensures request.Some? && WellFormed(request.value) ==>
      var found := TokenByValue(old(db.resetTokens), request.value.token.value);
      if found.None? then
        r == Reply(400, ErrorBody("Invalid token")) && unchanged(db)
      else if found.value.expiresAt < now then
        && r == Reply(400, ErrorBody("Token expired"))
        && db.users == old(db.users)
        && db.resetTokens == WithoutToken(old(db.resetTokens), found.value.id)
      else
        && r == Reply(200, MessageBody("Password reset successfully"))
        && db.users == WithPassword(old(db.users), found.value.userId, hash(request.value.password.value))
        && db.resetTokens == WithoutToken(old(db.resetTokens), found.value.id)
        && TokenByValue(db.resetTokens, request.value.token.value).None?
  {
    if request.None? {
      return ServerError;
    }
    var token, password := request.value.token, request.value.password;
    if !Truthy(token) || !Truthy(password) {
      return Reply(400, ErrorBody("Token and password are required"));
    }
    if |password.value| < 8 {
      return Reply(400, ErrorBody("Password must be at least 8 characters"));
    }
    r := ResetWithToken(db, token.value, hash(password.value), now);
  }
}
