/** The route that e-mails a password-reset link. */
module ForgotPassword {
  import opened Wrappers
  import opened Text
  import opened Schema
  import opened AuthUtils

  /** The JSON body of the request. */
  datatype ForgotRequest = ForgotRequest(email: Option<string>)

  /** A message handed to the mailer: the recipient and the reset link. */
  datatype Mail = Mail(to: string, link: string)

  /** The reply for every address, known or not, so that it does not reveal which accounts exist. */
  const SentReply := Reply(200, MessageBody("If an account exists, a reset email has been sent"))

  const ServerError := Reply(500, ErrorBody("Internal server error"))

  /** The link of the e-mail: the site's base URL, the reset page and the token. The link ends
      with the token, so the reset page reads back exactly the token that was issued. */
  function ResetLink(baseUrl: string, token: string): (link: string)
    ensures StartsWith(link, baseUrl + "/reset-password?token=")
    ensures link[|baseUrl + "/reset-password?token="|..] == token
  {
    var prefix := baseUrl + "/reset-password?token=";
    assert (prefix + token)[..|prefix|] == prefix;
    prefix + token
  }

  /** Different tokens give different links under one base URL, so a link names one token. */
  lemma ResetLinkDistinguishesTokens(baseUrl: string, token: string, other: string)
    ensures ResetLink(baseUrl, token) == ResetLink(baseUrl, other) <==> token == other
  {
    var k := |baseUrl + "/reset-password?token="|;
    if ResetLink(baseUrl, token) == ResetLink(baseUrl, other) {
      assert token == ResetLink(baseUrl, token)[k..] == ResetLink(baseUrl, other)[k..] == other;
    }
  }

  /** `POST /api/forgot-password`. A body that is not JSON is a 500 and a missing e-mail a 400.
      The user is looked up by the lower-cased e-mail; an unknown address gets the same reply as a
      known one, with no token created and no mail sent. For a known user the previous tokens are
      replaced by a fresh one and a link to it is mailed to the stored address. A failed insert or a
      failed delivery is a 500 (by then the token table has changed). `baseUrl` is the configured
      site URL, `random` the 32 random bytes of the token, `newId` the id the database gives the
      token row and `delivered` whether the mailer succeeds. */
  method ForgotPasswordRoute(db: Database, request: Option<ForgotRequest>, baseUrl: string,
                             random: seq<byte>, now: int, newId: string, delivered: bool)
    returns (r: Reply, sent: Option<Mail>)
    requires db.Valid()
    requires |random| == 32
    requires forall t :: t in db.resetTokens ==> t.id != newId
    modifies db
    ensures db.Valid()
    ensures unchanged(db`users, db`posts, db`likes, db`categories)
    ensures request.None? ==> r == ServerError && sent.None? && unchanged(db)
    ensures request.Some? && !Truthy(request.value.email) ==>
      r == Reply(400, ErrorBody("Email is required")) && sent.None? && unchanged(db)
    ensures (request.Some? && Truthy(request.value.email) &&
             UserByEmail(old(db.users), Lower(request.value.email.value)).None?) ==>
      r == SentReply && sent.None? && unchanged(db)
    ensures (request.Some? && Truthy(request.value.email) &&
             UserByEmail(old(db.users), Lower(request.value.email.value)).Some?) ==>
      var user := UserByEmail(old(db.users), Lower(request.value.email.value)).value;
      var token := GenerateResetToken(random);
      var kept := OtherUsersTokens(old(db.resetTokens), user.id);
      var row := ResetToken(newId, token, user.id, now + TokenLifetime);
      if TokenByValue(kept, token).Some? then
        r == ServerError && sent.None? && db.resetTokens == kept
      else
        && db.resetTokens == kept + [row]
        && TokensOf(db.resetTokens, user.id) == [row]
        && (delivered ==> r == SentReply && sent == Some(Mail(user.email, ResetLink(baseUrl, token))))
        && (!delivered ==> r == ServerError && sent.None?)
  {
    if request.None? {
      return ServerError, None;
    }
    var email := request.value.email;
    if !Truthy(email) {
      return Reply(400, ErrorBody("Email is required")), None;
    }
    var user := UserByEmail(db.users, Lower(email.value));
    if user.None? {
      return SentReply, None;
    }
    var created := CreatePasswordResetToken(db, user.value.id, random, now, newId);
    if created.Err? {
      return ServerError, None;
    }
    if !delivered {
      return ServerError, None;
    }
    sent := Some(Mail(user.value.email, ResetLink(baseUrl, created.value)));
    r := SentReply;
  }
}
