/** The registration form of the client app: its schema, with a role to choose, and its defaults. */
module ClientRegisterForm {
  import opened Wrappers
  import opened Schema
  import opened Zod
  import opened UserRoute
  import RegisterForm

  /** The form's fields, as typed; `kind` is the role chosen, the `type` field. */
  datatype Values = Values(username: string, email: string, kind: string, password: string,
                           confirmPassword: string)

  /** The form's defaults: every field empty, the role "user". */
  const DefaultValues := Values("", "", "user", "", "")

  /** The issues of the role: "user" or "admin". */
  function TypeIssues(kind: string): (r: seq<Issue>)
    ensures forall x :: x in r ==> x.path == "type"
  {
    Check("type", ParseRole(kind).Some?, EnumMessage(kind))
  }

  /** The issues of the form's schema, field by field: the username, email and password checks of
      the blog's registration form with the password at 8 characters, the role, then the
      confirmation. An unknown role aborts its field, and zod then skips the object's equality
      check. */
  function FormIssues(v: Values, isEmail: string -> bool): seq<Issue> {
    RegisterForm.UsernameIssues(v.username) + RegisterForm.EmailIssues(v.email, isEmail) + TypeIssues(v.kind)
    + RegisterForm.PasswordIssues(v.password, 8)
    + Check("confirmPassword", |v.confirmPassword| >= 1, "Password Confirmation is required")
    + (if ParseRole(v.kind).Some? then Check("confirmPassword", v.password == v.confirmPassword, "Passwords do not match")
       else [])
  }

  /** The body the route would receive for these values. */
  function Body(v: Values): RegisterBody {
    RegisterBody(Some(v.username), Some(v.email), Some(v.kind), Some(v.password))
  }

  /** The form accepts exactly the values the registration route's schema accepts, with an equal
      confirmation. */
  lemma FormMatchesRoute(v: Values, isEmail: string -> bool)
    ensures FormIssues(v, isEmail) == [] <==>
      ParseUser(Body(v), isEmail).Some? && v.confirmPassword == v.password
  {
    var issues := FormIssues(v, isEmail);
    assert issues == [] <==>
      1 <= |v.username| <= 20 && |v.email| >= 1 && isEmail(v.email) && ParseRole(v.kind).Some?
      && |v.password| >= 8 && |v.confirmPassword| >= 1 && v.confirmPassword == v.password;
  }

  /** With an unknown role the equality check is skipped: a mismatch is not reported. */
  lemma UnknownRoleSkipsMatchCheck(v: Values, isEmail: string -> bool)
    requires v.kind != "user" && v.kind != "admin"
    ensures Issue("confirmPassword", "Passwords do not match") !in FormIssues(v, isEmail)
  {
    assert ParseRole(v.kind).None?;
  }

  /** An unknown role is reported with zod's enumeration message. */
  lemma UnknownRoleReported(v: Values, isEmail: string -> bool)
    requires v.kind != "user" && v.kind != "admin"
    ensures FirstMessage(FormIssues(v, isEmail), "type") == Some(EnumMessage(v.kind))
  {
    var issues := FormIssues(v, isEmail);
    var before := RegisterForm.UsernameIssues(v.username) + RegisterForm.EmailIssues(v.email, isEmail);
    var x := Issue("type", EnumMessage(v.kind));
    assert TypeIssues(v.kind) == [x];
    var k := |before|;
    assert issues[k] == x;
    assert forall j :: 0 <= j < k ==> issues[j] == before[j] && before[j] in before;
    FirstMessageAt(issues, k);
  }

  /** The defaults need filling in, but their role is valid: only the typed fields are reported,
      the username first. */
  lemma DefaultsNeedFilling(isEmail: string -> bool)
    ensures !HasIssueAt(FormIssues(DefaultValues, isEmail), "type")
    ensures FirstMessage(FormIssues(DefaultValues, isEmail), "username") == Some("Username is required")
    ensures Issue("password", "Password is required") in FormIssues(DefaultValues, isEmail)
  {
    var issues := FormIssues(DefaultValues, isEmail);
    assert RegisterForm.UsernameIssues("") == [Issue("username", "Username is required")];
    assert TypeIssues("user") == [];
    assert issues[0] == Issue("username", "Username is required");
    assert forall y :: y in issues ==> y.path != "type";
    assert Issue("password", "Password is required") in RegisterForm.PasswordIssues("", 8);
  }
}
