/** The registration form of the blog: its schema and the body it sends to `POST /api/user`. */
module RegisterForm {
  import opened Wrappers
  import opened Schema
  import opened Zod
  import opened UserRoute

  /** The form's fields, as typed. */
  datatype Values = Values(username: string, employeeId: string, email: string, password: string,
                           confirmPassword: string)

  const DefaultValues := Values("", "", "", "", "")

  /** The message of the password's length check. */
  const PasswordMessage := "Password must be at least 8 characters long"

  /** The shortest password the form's length check lets through, and the length its message
      announces (and the registration route demands). */
  const WrittenMinPassword := 6
  const IntendedMinPassword := 8

  /** The issues of the username: 1 to 20 characters. */
  function UsernameIssues(username: string): (r: seq<Issue>)
    ensures forall x :: x in r ==> x.path == "username"
  {
    Check("username", |username| >= 1, "Username is required")
    + Check("username", |username| <= 20, "Username must be at most 20 characters long")
  }

  /** The issues of the email: non-empty and well-formed (`isEmail` is zod's e-mail pattern). */
  function EmailIssues(email: string, isEmail: string -> bool): (r: seq<Issue>)
    ensures forall x :: x in r ==> x.path == "email"
  {
    Check("email", |email| >= 1, "Email is required") + Check("email", isEmail(email), "Invalid email address")
  }

  /** The issues of the password, its length check at `minPassword`. */
  function PasswordIssues(password: string, minPassword: nat): (r: seq<Issue>)
    ensures forall x :: x in r ==> x.path == "password"
  {
    Check("password", |password| >= 1, "Password is required")
    + Check("password", |password| >= minPassword, PasswordMessage)
  }

  /** The issues of the confirmation: present, and equal to the password (the object's refinement,
      reported at the confirmation). */
  function ConfirmIssues(password: string, confirmPassword: string): (r: seq<Issue>)
    ensures forall x :: x in r ==> x.path == "confirmPassword"
  {
    Check("confirmPassword", |confirmPassword| >= 1, "Password Confirmation is required")
    + Check("confirmPassword", password == confirmPassword, "Passwords do not match")
  }

  /** The issues of the form's schema with the password's length check at `minPassword`, field by
      field. The employee id is optional and unchecked. */
  function IssuesWith(v: Values, isEmail: string -> bool, minPassword: nat): seq<Issue> {
    UsernameIssues(v.username) + EmailIssues(v.email, isEmail) + PasswordIssues(v.password, minPassword)
    + ConfirmIssues(v.password, v.confirmPassword)
  }

  /** The schema as written: the length check is `min(6)`. */
  function FormIssuesAsWritten(v: Values, isEmail: string -> bool): seq<Issue> {
    IssuesWith(v, isEmail, WrittenMinPassword)
  }

  /** The schema as its message means it: the length check at 8. */
  function FormIssues(v: Values, isEmail: string -> bool): seq<Issue> {
    IssuesWith(v, isEmail, IntendedMinPassword)
  }

  /** The form as written accepts exactly a username of 1 to 20 characters, a well-formed email, a
      password of at least 6 characters and an equal confirmation. */
  lemma FormAcceptsAsWritten(v: Values, isEmail: string -> bool)
    ensures FormIssuesAsWritten(v, isEmail) == [] <==>
      1 <= |v.username| <= 20 && |v.email| >= 1 && isEmail(v.email)
      && |v.password| >= 6 && v.confirmPassword == v.password
  {
    assert FormIssuesAsWritten(v, isEmail) == [] <==>
      1 <= |v.username| <= 20 && |v.email| >= 1 && isEmail(v.email) && |v.password| >= 1
      && |v.password| >= 6 && |v.confirmPassword| >= 1 && v.confirmPassword == v.password;
  }

  /** A confirmation that differs from the password is reported at the confirmation field. */
  lemma MismatchShownAtConfirmation(v: Values, isEmail: string -> bool)
    requires v.confirmPassword != "" && v.password != v.confirmPassword
    ensures FirstMessage(FormIssuesAsWritten(v, isEmail), "confirmPassword") == Some("Passwords do not match")
  {
    var before := UsernameIssues(v.username) + EmailIssues(v.email, isEmail) + PasswordIssues(v.password, 6);
    var x := Issue("confirmPassword", "Passwords do not match");
    assert ConfirmIssues(v.password, v.confirmPassword) == [x];
    FirstMessageAfter(before, x, []);
    assert before + [x] + [] == FormIssuesAsWritten(v, isEmail);
  }

  /** The password field itself shows nothing for a mismatch. */
  lemma MismatchLeavesPasswordClean(v: Values, isEmail: string -> bool)
    requires |v.password| >= WrittenMinPassword
    ensures !HasIssueAt(FormIssuesAsWritten(v, isEmail), "password")
  {
    var rest := UsernameIssues(v.username) + EmailIssues(v.email, isEmail);
    assert PasswordIssues(v.password, 6) == [];
    assert FormIssuesAsWritten(v, isEmail) == rest + ConfirmIssues(v.password, v.confirmPassword);
  }

  /** The body `onSubmit` sends as written: username, employee id, email and password, but no
      `type`. */
  function SubmittedBodyAsWritten(v: Values): RegisterBody {
    RegisterBody(Some(v.username), Some(v.email), None, Some(v.password))
  }

  /** Since the route's schema requires `type`, it refuses every body the form sends, whatever was
      typed: the route answers each registration with a 500. */
  lemma EveryRegistrationRefused(v: Values, isEmail: string -> bool)
    ensures ParseUser(SubmittedBodyAsWritten(v), isEmail).None?
  {
  }

  /** A six-character password passes the form as written, though its message asks for eight, and
      the route refuses it even once the body carries a `type`. */
  lemma SixCharacterPasswordPasses(v: Values, isEmail: string -> bool)
    requires 1 <= |v.username| <= 20 && |v.email| >= 1 && isEmail(v.email)
    requires |v.password| == 6 && v.confirmPassword == v.password
    ensures FormIssuesAsWritten(v, isEmail) == []
    ensures ParseUser(SubmittedBody(v), isEmail).None?
  {
    FormAcceptsAsWritten(v, isEmail);
  }

  /** The body as the route expects it: the same fields with the role `"user"`. */
  function SubmittedBody(v: Values): RegisterBody {
    RegisterBody(Some(v.username), Some(v.email), Some("user"), Some(v.password))
  }

  /** With the length check at 8 and the role sent, every form the schema accepts is a registration
      the route accepts, of a plain user with the typed fields; and a short password is reported
      with the message that names the real bound. */
  lemma AcceptedFormRegisters(v: Values, isEmail: string -> bool)
    ensures FormIssues(v, isEmail) == [] ==>
      ParseUser(SubmittedBody(v), isEmail) == Some(Registration(v.username, v.email, UserRole, v.password))
    ensures 1 <= |v.password| < IntendedMinPassword ==> Issue("password", PasswordMessage) in FormIssues(v, isEmail)
  {
    var issues := FormIssues(v, isEmail);
    assert issues == [] ==>
      1 <= |v.username| <= 20 && |v.email| >= 1 && isEmail(v.email) && |v.password| >= 8;
  }
}
