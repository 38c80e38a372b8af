/** The sign-in configuration: the two credential providers' `authorize` functions and the
    `redirect` callback. */
module AuthConfig {
  import opened Wrappers
  import opened Text
  import opened Lists
  import opened Schema

  /** The fields a sign-in form posts; a field the form did not send is `None`. */
  datatype Credentials = Credentials(email: Option<string>, employeeId: Option<string>, password: Option<string>)

  /** How the call to the ERP authentication service ended: a response with its HTTP status, or a
      rejected promise (network failure). */
  datatype ErpOutcome = Responded(status: int) | Rejected

  /** Every failure inside `authorize` is rethrown under this message. */
  const InvalidCredentials := "Invalid credentials"

  /** `authorize` of the "email-login" provider. `null` credentials give `null` (`Ok(None)`). A
      missing e-mail (the lookup throws), an unknown e-mail, a user with no stored password or a
      missing password (the comparison throws) and a failed comparison are all rethrown as
      "Invalid credentials". Success returns the user found by e-mail, without its password, and
      happens exactly when `compare` accepts the password against the stored hash. `compare` is
      bcrypt's comparison. */
  function EmailAuthorize(users: seq<User>, credentials: Option<Credentials>,
                          compare: (string, string) -> bool)
    : (r: Result<Option<PublicUser>>)
    ensures credentials.None? <==> r == Ok(None)
    ensures r.Err? ==> r.error == InvalidCredentials
    ensures r.Ok? && r.value.Some? <==>
      && credentials.Some? && credentials.value.email.Some? && credentials.value.password.Some?
      && exists u :: u in users && u.email == credentials.value.email.value
                   && u.password.Some? && compare(credentials.value.password.value, u.password.value)
                   && UserByEmail(users, u.email) == Some(u)
    ensures r.Ok? && r.value.Some? ==>
      exists u :: u in users && u.email == credentials.value.email.value && r.value.value == Public(u)
  {
    if credentials.None? then Ok(None)
    else
      var c := credentials.value;
      if c.email.None? then Err(InvalidCredentials)
      else
        match UserByEmail(users, c.email.value)
        case None => Err(InvalidCredentials)
        case Some(u) =>
          if u.password.None? || c.password.None? then Err(InvalidCredentials)
          else if compare(c.password.value, u.password.value) then Ok(Some(Public(u)))
          else Err(InvalidCredentials)
  }

  /** With unique e-mails, the right password of a user signs that user in. */
  lemma EmailLoginSignsInOwner(users: seq<User>, u: User, password: string, compare: (string, string) -> bool)
    requires UsersValid(users)
    requires u in users && u.password.Some? && compare(password, u.password.value)
    ensures EmailAuthorize(users, Some(Credentials(Some(u.email), None, Some(password))), compare)
            == Ok(Some(Public(u)))
  {
    forall y | y in users && y.email == u.email ensures y == u {
      var i :| 0 <= i < |users| && users[i] == y;
      var j :| 0 <= j < |users| && users[j] == u;
      assert UserEmail(users[i]) == UserEmail(users[j]);
    }
    FindOnly(users, (x: User) => x.email == u.email, u);
  }

  /** `authorize` of the "employeeId-login" provider, as written. `null` credentials give `null`.
      A missing or unknown employee id and a rejected ERP call are rethrown as "Invalid
      credentials". Any response at all, a 401 included, signs the user in: the test is on the
      `Response` object, which is always truthy, not on its status. */
  function EmployeeIdAuthorize(users: seq<User>, credentials: Option<Credentials>, erp: ErpOutcome)
    : (r: Result<Option<PublicUser>>)
    ensures credentials.None? <==> r == Ok(None)
    ensures r.Err? ==> r.error == InvalidCredentials
    ensures r.Ok? && r.value.Some? <==>
      && credentials.Some? && credentials.value.employeeId.Some?
      && UserByEmployeeId(users, credentials.value.employeeId.value).Some?
      && erp.Responded?
    ensures r.Ok? && r.value.Some? ==>
      r.value.value == Public(UserByEmployeeId(users, credentials.value.employeeId.value).value)
  {
    if credentials.None? then Ok(None)
    else
      var c := credentials.value;
      if c.employeeId.None? then Err(InvalidCredentials)
      else
        match UserByEmployeeId(users, c.employeeId.value)
        case None => Err(InvalidCredentials)
        case Some(u) =>
          match erp
          case Rejected => Err(InvalidCredentials)
          case Responded(_) => Ok(Some(Public(u)))
  }

  /** The ERP service refusing the password (401) still signs the user in. */
  lemma RefusedErpLoginSucceeds(users: seq<User>, u: User, employeeId: string, password: string)
    requires u in users && u.employeeId == Some(employeeId)
    ensures EmployeeIdAuthorize(users, Some(Credentials(None, Some(employeeId), Some(password))), Responded(401)).Ok?
    ensures EmployeeIdAuthorize(users, Some(Credentials(None, Some(employeeId), Some(password))), Responded(401)).value.Some?
  {
    assert UserByEmployeeId(users, employeeId).Some?;
  }

  /** `response.ok`: a status from 200 to 299. */
  predicate Ok2xx(status: int) {
    200 <= status <= 299
  }

  /** The employee-id `authorize` as evidently intended: the ERP response must be `ok`; any other
      status is rethrown as "Invalid credentials" like a wrong password. */
  function EmployeeIdAuthorizeChecked(users: seq<User>, credentials: Option<Credentials>, erp: ErpOutcome)
    : (r: Result<Option<PublicUser>>)
    ensures credentials.None? <==> r == Ok(None)
    ensures r.Err? ==> r.error == InvalidCredentials
    ensures r.Ok? && r.value.Some? <==>
      && credentials.Some? && credentials.value.employeeId.Some?
      && UserByEmployeeId(users, credentials.value.employeeId.value).Some?
      && erp.Responded? && Ok2xx(erp.status)
    ensures r.Ok? && r.value.Some? ==>
      r.value.value == Public(UserByEmployeeId(users, credentials.value.employeeId.value).value)
  {
    match erp
    case Responded(s) =>
      if !Ok2xx(s) && credentials.Some? then Err(InvalidCredentials)
      else EmployeeIdAuthorize(users, credentials, erp)
    case Rejected => EmployeeIdAuthorize(users, credentials, erp)
  }

  /** The corrected provider agrees with the written one on every `ok` response and every failure,
      and refuses what the written one lets through on any other status. */
  lemma CheckedAgreesOnOk(users: seq<User>, credentials: Option<Credentials>, erp: ErpOutcome)
    ensures erp.Rejected? || Ok2xx(erp.status) ==>
      EmployeeIdAuthorizeChecked(users, credentials, erp) == EmployeeIdAuthorize(users, credentials, erp)
    ensures erp.Responded? && !Ok2xx(erp.status) && credentials.Some? ==>
      EmployeeIdAuthorizeChecked(users, credentials, erp) == Err(InvalidCredentials)
  {
  }

  /** The `redirect` callback. A path starting with "/" is put under `baseUrl`; an absolute URL
      whose origin is `baseUrl` is kept; any other URL becomes `baseUrl`. `originOf` is
      `new URL(url).origin`, `None` when the URL does not parse (the constructor throws, `Err`). */
  function Redirect(url: string, baseUrl: string, originOf: string -> Option<string>): (r: Result<string>)
    ensures StartsWith(url, "/") ==> r == Ok(baseUrl + url)
    ensures !StartsWith(url, "/") ==>
      && (r.Err? <==> originOf(url).None?)
      && (originOf(url) == Some(baseUrl) ==> r == Ok(url))
      && (originOf(url).Some? && originOf(url) != Some(baseUrl) ==> r == Ok(baseUrl))
    ensures r.Ok? ==> StartsWith(r.value, baseUrl) || originOf(r.value) == Some(baseUrl)
  {
    if StartsWith(url, "/") then
      assert (baseUrl + url)[..|baseUrl|] == baseUrl;
      Ok(baseUrl + url)
    else
      match originOf(url)
      case None => Err("Invalid URL")
      case Some(o) =>
        if o == baseUrl then Ok(url)
        else
          assert baseUrl[..|baseUrl|] == baseUrl;
          Ok(baseUrl)
  }
}
