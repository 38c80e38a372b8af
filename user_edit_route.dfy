/** The profile-edit route: `POST /api/user/edit`. */
module UserEditRoute {
  import opened Wrappers
  import opened Lists
  import opened Schema
  import opened Zod
  import opened UserRoute

  /** The designations a profile may carry. */
  const AllowedDesignations: seq<string> := [
    "Chief Managing Director", "Director", "Executive Director", "Medical Officer",
    "Vigilance Officer", "General Manager", "Group Senior Manager", "Senior Manager", "Manager",
    "Deputy General Manager", "Deputy Manager", "Assistant Manager", "Engineer", "Trainee"
  ]

  /** The JSON body of the request. */
  datatype EditBody = EditBody(username: Option<string>, image: Option<string>,
                               designation: Option<string>, bio: Option<string>)

  /** The issues of the route's `userSchema`: a username, an image that is a URL (`isUrl` is zod's
      URL test), one of the allowed designations and a bio of at most 100 characters. */
  function EditSchemaIssues(body: EditBody, isUrl: string -> bool): seq<Issue> {
    (match body.username
     case None => [Issue("username", Required)]
     case Some(_) => [])
    + (match body.image
       case None => [Issue("image", Required)]
       case Some(i) => Check("image", isUrl(i), "Please Enter a valid image url"))
    + (match body.designation
       case None => [Issue("designation", Required)]
       case Some(d) => Check("designation", d in AllowedDesignations, "Invalid Designation"))
    + (match body.bio
       case None => [Issue("bio", Required)]
       case Some(b) => Check("bio", |b| <= 100, "Bio must be at most 100 characters long"))
  }

  /** The schema accepts a body exactly when every field is present, the image is a URL, the
      designation is one of the 14 titles and the bio has at most 100 characters. */
  lemma EditSchemaAccepts(body: EditBody, isUrl: string -> bool)
    ensures EditSchemaIssues(body, isUrl) == [] <==>
      && body.username.Some?
      && body.image.Some? && isUrl(body.image.value)
      && body.designation.Some? && body.designation.value in AllowedDesignations
      && body.bio.Some? && |body.bio.value| <= 100
  {
  }

  /** The user table after the profile fields of the user named `name` are set; every other
      column and every other user is kept. */
  function WithProfile(users: seq<User>, name: string, image: string, designation: string, bio: string)
    : (r: seq<User>)
    ensures |r| == |users|
    ensures forall i :: 0 <= i < |users| ==>
      r[i] == if users[i].name == name
              then users[i].(image := Some(image), designation := Some(designation), bio := Some(bio))
              else users[i]
  {
    seq(|users|, i requires 0 <= i < |users| =>
      if users[i].name == name
      then users[i].(image := Some(image), designation := Some(designation), bio := Some(bio))
      else users[i])
  }

  /** A profile edit changes none of the unique columns, so they stay unique and the same ids are
      found. */
  lemma WithProfileValid(users: seq<User>, name: string, image: string, designation: string, bio: string)
    requires UsersValid(users)
    ensures UsersValid(WithProfile(users, name, image, designation, bio))
    ensures forall k :: UserById(users, k).Some? ==> UserById(WithProfile(users, name, image, designation, bio), k).Some?
  {
    var r := WithProfile(users, name, image, designation, bio);
    assert forall i :: 0 <= i < |r| ==>
      r[i].id == users[i].id && r[i].email == users[i].email && r[i].name == users[i].name
      && r[i].employeeId == users[i].employeeId;
    forall k | UserById(users, k).Some? ensures UserById(r, k).Some? {
      var x :| x in users && x.id == k;
      var i :| 0 <= i < |users| && users[i] == x;
      assert r[i] in r && r[i].id == k;
    }
  }

  /** The edit of the user row, as its own step of the route. */
  method UpdateProfile(db: Database, name: string, image: string, designation: string, bio: string)
    requires db.Valid()
    modifies db
    ensures db.Valid()
    ensures unchanged(db`posts, db`likes, db`categories, db`resetTokens)
    ensures db.users == WithProfile(old(db.users), name, image, designation, bio)
  {
    WithProfileValid(db.users, name, image, designation, bio);
    db.users := WithProfile(db.users, name, image, designation, bio);
  }

  /** `POST /api/user/edit`. A body that is not JSON or fails the schema, and a username no user
      has (the update throws), are rethrown as an error "Error" with no reply. Otherwise only the
      image, designation and bio of the user with that name change, and the 200 reply carries the
      updated row without its password. */
  method EditProfileRoute(db: Database, request: Option<EditBody>, isUrl: string -> bool)
    returns (r: Result<UserReply>)
    requires db.Valid()
    modifies db
    ensures db.Valid()
    ensures unchanged(db`posts, db`likes, db`categories, db`resetTokens)
    ensures request.None? || EditSchemaIssues(request.value, isUrl) != [] ==> r == Err("Error") && unchanged(db)
    ensures request.Some? && EditSchemaIssues(request.value, isUrl) == [] ==>
      var b := request.value;
      var found := UserByName(old(db.users), b.username.value);
      if found.None? then
        r == Err("Error") && unchanged(db)
      else
        var updated := found.value.(image := b.image, designation := b.designation, bio := b.bio);
        && db.users == WithProfile(old(db.users), b.username.value, b.image.value, b.designation.value, b.bio.value)
        && r == Ok(UserReply(200, UserAndMessage(Some(Public(updated)), "Profile Updated")))
  {
    if request.None? || EditSchemaIssues(request.value, isUrl) != [] {
      return Err("Error");
    }
    var b := request.value;
    var found := UserByName(db.users, b.username.value);
    if found.None? {
      return Err("Error");
    }
    UpdateProfile(db, b.username.value, b.image.value, b.designation.value, b.bio.value);
    var updated := found.value.(image := b.image, designation := b.designation, bio := b.bio);
    r := Ok(UserReply(200, UserAndMessage(Some(Public(updated)), "Profile Updated")));
  }

  /** With unique names, the edited row is the one found under the name afterwards. */
  lemma EditedUserIsFound(users: seq<User>, name: string, image: string, designation: string, bio: string)
    requires UsersValid(users)
    requires UserByName(users, name).Some?
    ensures UserByName(WithProfile(users, name, image, designation, bio), name) ==
      Some(UserByName(users, name).value.(image := Some(image), designation := Some(designation), bio := Some(bio)))
  {
    var r := WithProfile(users, name, image, designation, bio);
    var u := UserByName(users, name).value;
    var i :| 0 <= i < |users| && users[i] == u;
    var e := r[i];
    assert e == u.(image := Some(image), designation := Some(designation), bio := Some(bio));
    assert e in r;
    forall y | y in r && y.name == name ensures y == e {
      var j :| 0 <= j < |r| && r[j] == y;
      assert UserName(users[j]) == UserName(users[i]);
      assert j == i;
    }
    FindOnly(r, (x: User) => x.name == name, e);
  }
}
