/** The profile form: image link, designation and bio, prefilled from the user and sent to
    `POST /api/user/edit`. */
module EditForm {
  import opened Wrappers
  import opened Schema
  import opened Zod
  import opened UserRoute
  import opened UserEditRoute

  /** The form's fields: `pp` the image link, `desg` the designation. A field still holding a
      missing column of the user is `None`. */
  datatype Values = Values(pp: Option<string>, desg: Option<string>, bio: Option<string>)

  /** zod's message for a string field that holds `null`. */
  const NotAString := "Expected string, received null"

  /** The issues of the form's schema: an image that is a URL (`isUrl` is zod's URL test), a
      designation among the allowed ones and a bio of at most 100 characters. */
  function FormIssues(v: Values, isUrl: string -> bool): seq<Issue> {
    (match v.pp
     case None => [Issue("pp", NotAString)]
     case Some(p) => Check("pp", isUrl(p), "Please Enter a valid image url"))
    + (match v.desg
       case None => [Issue("desg", NotAString)]
       case Some(d) => Check("desg", d in AllowedDesignations, "Invalid Designation"))
    + (match v.bio
       case None => [Issue("bio", NotAString)]
       case Some(b) => Check("bio", |b| <= 100, "Bio must be at most 100 characters long"))
  }

  /** The values the form starts from: the user's current image, designation and bio. */
  function Defaults(user: User): Values {
    Values(user.image, user.designation, user.bio)
  }

  /** The body `onSubmit` sends: the user's name, the image link as `image`, the designation as
      `designation` and the bio. */
  function Body(user: User, v: Values): EditBody {
    EditBody(Some(user.name), v.pp, v.desg, v.bio)
  }

  /** The form accepts exactly the values whose body the route's schema accepts. */
  lemma FormMatchesRoute(user: User, v: Values, isUrl: string -> bool)
    ensures FormIssues(v, isUrl) == [] <==> EditSchemaIssues(Body(user, v), isUrl) == []
  {
    EditSchemaAccepts(Body(user, v), isUrl);
    assert FormIssues(v, isUrl) == [] <==>
      && v.pp.Some? && isUrl(v.pp.value)
      && v.desg.Some? && v.desg.value in AllowedDesignations
      && v.bio.Some? && |v.bio.value| <= 100;
  }

  /** The form can be sent untouched exactly when the user's stored image is a URL, the stored
      designation is allowed and the stored bio has at most 100 characters; a user without a bio
      must type one first. */
  lemma DefaultsAccepted(user: User, isUrl: string -> bool)
    ensures FormIssues(Defaults(user), isUrl) == [] <==>
      && user.image.Some? && isUrl(user.image.value)
      && user.designation.Some? && user.designation.value in AllowedDesignations
      && user.bio.Some? && |user.bio.value| <= 100
  {
    FormMatchesRoute(user, Defaults(user), isUrl);
    EditSchemaAccepts(Body(user, Defaults(user)), isUrl);
  }

  /** Submitting the form as filled in and having the route store it gives back the same form. */
  lemma StoredProfileRefills(users: seq<User>, user: User, v: Values, isUrl: string -> bool)
    requires user in users && UsersValid(users)
    requires FormIssues(v, isUrl) == []
    ensures UserByName(WithProfile(users, user.name, v.pp.value, v.desg.value, v.bio.value), user.name).Some?
    ensures Defaults(UserByName(WithProfile(users, user.name, v.pp.value, v.desg.value, v.bio.value), user.name).value) == v
  {
    FormMatchesRoute(user, v, isUrl);
    EditedUserIsFound(users, user.name, v.pp.value, v.desg.value, v.bio.value);
  }
}
