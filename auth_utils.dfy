/** Password-reset tokens: generating one, issuing it to a user and checking it. */
module AuthUtils {
  import opened Wrappers
  import opened Lists
  import opened Schema

  newtype byte = x: int | 0 <= x < 256

  /** How long a reset token stays valid: one hour, in milliseconds. */
  const TokenLifetime := 3600000

  /** The message of the error Prisma throws when an inserted row repeats a unique column. */
  const UniqueViolation := "Unique constraint failed on the fields: (`token`)"

  /** The message of the error Prisma throws when an inserted row refers to a missing user. */
  const ForeignKeyViolation := "Foreign key constraint failed on the field: `userId`"

  /** The lower-case hexadecimal digit of a value below 16. */
  function HexDigit(n: int): (c: char)
    requires 0 <= n < 16
  {
    if n < 10 then ('0' as int + n) as char else ('a' as int + n - 10) as char
  }

  predicate IsHexDigit(c: char) {
    '0' <= c <= '9' || 'a' <= c <= 'f'
  }

  /** The value of a lower-case hexadecimal digit. */
  function DigitValue(c: char): (v: Option<int>)
    ensures v.Some? <==> IsHexDigit(c)
    ensures v.Some? ==> 0 <= v.value < 16 && HexDigit(v.value) == c
  {
    if '0' <= c <= '9' then Some(c as int - '0' as int)
    else if 'a' <= c <= 'f' then Some(c as int - 'a' as int + 10)
    else None
  }

  /** `buffer.toString('hex')`: two lower-case digits per byte, high half first. */
  function Hex(bytes: seq<byte>): (s: string)
    ensures |s| == 2 * |bytes|
    ensures forall i :: 0 <= i < |s| ==> IsHexDigit(s[i])
    decreases |bytes|
  {
    if bytes == [] then []
    else [HexDigit(bytes[0] as int / 16), HexDigit(bytes[0] as int % 16)] + Hex(bytes[1..])
  }

  /** Reads the bytes back from a hexadecimal string; `None` for odd lengths and foreign characters. */
  function Unhex(s: string): (r: Option<seq<byte>>)
    ensures r.Some? ==> 2 * |r.value| == |s|
    decreases |s|
  {
    if s == [] then Some([])
    else if |s| == 1 then None
    else
      match (DigitValue(s[0]), DigitValue(s[1]), Unhex(s[2..]))
      case (Some(hi), Some(lo), Some(rest)) => Some([(hi * 16 + lo) as byte] + rest)
      case _ => None
  }

  /** The hexadecimal encoding loses nothing: decoding it gives the bytes back, so distinct random
      bytes give distinct tokens. */
  lemma {:induction false} UnhexHex(bytes: seq<byte>)
    ensures Unhex(Hex(bytes)) == Some(bytes)
    decreases |bytes|
  {
    if bytes != [] {
      var s := Hex(bytes);
      var b := bytes[0] as int;
      assert s[2..] == Hex(bytes[1..]);
      UnhexHex(bytes[1..]);
      assert DigitValue(s[0]) == Some(b / 16);
      assert DigitValue(s[1]) == Some(b % 16);
      assert bytes == [bytes[0]] + bytes[1..];
    }
  }

  /** `generateResetToken`: the hexadecimal encoding of 32 random bytes, 64 characters from
      [0-9a-f]. */
  function GenerateResetToken(random: seq<byte>): (token: string)
    requires |random| == 32
    ensures |token| == 64
    ensures forall i :: 0 <= i < |token| ==> IsHexDigit(token[i])
    ensures Unhex(token) == Some(random)
  {
    UnhexHex(random);
    Hex(random)
  }

  /** The tokens of every user but `userId`: what `deleteMany({ where: { userId } })` leaves. */
  function OtherUsersTokens(tokens: seq<ResetToken>, userId: string): seq<ResetToken> {
    Filter(tokens, (t: ResetToken) => t.userId != userId)
  }

  /** The tokens of the user `userId`. */
  function TokensOf(tokens: seq<ResetToken>, userId: string): seq<ResetToken> {
    Filter(tokens, (t: ResetToken) => t.userId == userId)
  }

  /** The token table without the row `id`. */
  function WithoutToken(tokens: seq<ResetToken>, id: string): seq<ResetToken> {
    Filter(tokens, (t: ResetToken) => t.id != id)
  }

  /** After the old tokens of a user are deleted and one is added for them, it is their only token. */
  lemma ReplacedTokenIsOnlyOne(tokens: seq<ResetToken>, t: ResetToken)
    ensures TokensOf(OtherUsersTokens(tokens, t.userId) + [t], t.userId) == [t]
  {
    var kept := OtherUsersTokens(tokens, t.userId);
    FilterAppend(kept, t, (x: ResetToken) => x.userId == t.userId);
    FilterNothing(kept, (x: ResetToken) => x.userId == t.userId);
  }

  /** Replacing the token of one user leaves the tokens of every other user as they were. */
  lemma {:induction false} ReplacedTokenKeepsOthers(tokens: seq<ResetToken>, t: ResetToken, other: string)
    requires other != t.userId
    ensures TokensOf(OtherUsersTokens(tokens, t.userId) + [t], other) == TokensOf(tokens, other)
  {
    FilterAppend(OtherUsersTokens(tokens, t.userId), t, (x: ResetToken) => x.userId == other);
    OthersOfOthers(tokens, t.userId, other);
  }

  lemma {:induction false} OthersOfOthers(tokens: seq<ResetToken>, userId: string, other: string)
    requires other != userId
    ensures TokensOf(OtherUsersTokens(tokens, userId), other) == TokensOf(tokens, other)
    decreases |tokens|
  {
    if tokens != [] {
      OthersOfOthers(tokens[1..], userId, other);
    }
  }

  /** Deleting rows keeps the token table's unique columns and owner references. */
  lemma FilterTokensValid(tokens: seq<ResetToken>, users: seq<User>, keep: ResetToken -> bool)
    requires TokensValid(tokens, users)
    ensures TokensValid(Filter(tokens, keep), users)
  {
    FilterUnique(tokens, keep, TokenId);
    FilterUnique(tokens, keep, TokenValue);
    FilterUnique(tokens, keep, TokenOwner);
  }

  /** `createPasswordResetToken`: deletes every token of the user, then inserts a fresh one that
      expires one hour after `now` and returns it. The insert throws if the user does not exist or
      if another user holds the same token string; the delete has happened by then. */
  method CreatePasswordResetToken(db: Database, userId: string, random: seq<byte>, now: int, newId: string)
    returns (r: Result<string>)
    requires db.Valid()
    requires |random| == 32
    requires forall t :: t in db.resetTokens ==> t.id != newId
    modifies db
    ensures db.Valid()
    ensures unchanged(db`users, db`posts, db`likes, db`categories)
    ensures var kept := OtherUsersTokens(old(db.resetTokens), userId);
      var token := GenerateResetToken(random);
      if UserById(old(db.users), userId).None? then
        r == Err(ForeignKeyViolation) && db.resetTokens == kept
      else if TokenByValue(kept, token).Some? then
        r == Err(UniqueViolation) && db.resetTokens == kept
      else
        && r == Ok(token)
        && db.resetTokens == kept + [ResetToken(newId, token, userId, now + TokenLifetime)]
        && TokensOf(db.resetTokens, userId) == [ResetToken(newId, token, userId, now + TokenLifetime)]
        && forall other :: other != userId ==> TokensOf(db.resetTokens, other) == TokensOf(old(db.resetTokens), other)
  {
    var token := GenerateResetToken(random);
    var expiresAt := now + TokenLifetime;
    FilterTokensValid(db.resetTokens, db.users, (t: ResetToken) => t.userId != userId);
    db.resetTokens := OtherUsersTokens(db.resetTokens, userId);
    if UserById(db.users, userId).None? {
      return Err(ForeignKeyViolation);
    }
    if TokenByValue(db.resetTokens, token).Some? {
      return Err(UniqueViolation);
    }
    var row := ResetToken(newId, token, userId, expiresAt);
    AppendUnique(db.resetTokens, row, TokenId);
    AppendUnique(db.resetTokens, row, TokenValue);
    AppendUnique(db.resetTokens, row, TokenOwner);
    ReplacedTokenIsOnlyOne(old(db.resetTokens), row);
    forall other | other != userId
      ensures TokensOf(db.resetTokens + [row], other) == TokensOf(old(db.resetTokens), other)
    {
      ReplacedTokenKeepsOthers(old(db.resetTokens), row, other);
    }
    db.resetTokens := db.resetTokens + [row];
    r := Ok(token);
  }

  /** The result of `validateResetToken`. */
  datatype Validation = TokenInvalid(error: string) | TokenValid(user: User, tokenId: string)

  /** `validateResetToken`: an unknown token is 'Invalid token'; a token whose expiry is strictly
      before `now` is deleted and reported as 'Token expired'; any other token is valid and comes
      with its owner and its id. */
  method ValidateResetToken(db: Database, token: string, now: int) returns (v: Validation)
    requires db.Valid()
    modifies db
    ensures db.Valid()
    ensures unchanged(db`users, db`posts, db`likes, db`categories)
    ensures var found := TokenByValue(old(db.resetTokens), token);
      if found.None? then
        v == TokenInvalid("Invalid token") && unchanged(db)
      else if found.value.expiresAt < now then
        v == TokenInvalid("Token expired") && db.resetTokens == WithoutToken(old(db.resetTokens), found.value.id)
      else
        && unchanged(db)
        && v == TokenValid(UserById(db.users, found.value.userId).value, found.value.id)
        && v.user.id == found.value.userId
  {
    var found := TokenByValue(db.resetTokens, token);
    if found.None? {
      return TokenInvalid("Invalid token");
    }
    var row := found.value;
    if row.expiresAt < now {
      FilterTokensValid(db.resetTokens, db.users, (t: ResetToken) => t.id != row.id);
      db.resetTokens := WithoutToken(db.resetTokens, row.id);
      return TokenInvalid("Token expired");
    }
    var owner := UserById(db.users, row.userId);
    v := TokenValid(owner.value, row.id);
  }

  /** Every token in a valid table is found by its string, and by nothing else. */
  lemma TokenLookupFindsRow(tokens: seq<ResetToken>, users: seq<User>, t: ResetToken)
    requires TokensValid(tokens, users) && t in tokens
    ensures TokenByValue(tokens, t.token) == Some(t)
  {
    forall y | y in tokens && y.token == t.token ensures y == t {
      var i :| 0 <= i < |tokens| && tokens[i] == y;
      var j :| 0 <= j < |tokens| && tokens[j] == t;
      assert i == j;
    }
    FindOnly(tokens, (x: ResetToken) => x.token == t.token, t);
  }

  /** Once a token's row is deleted its string finds nothing, since no other row has that string. */
  lemma ConsumedTokenIsGone(tokens: seq<ResetToken>, users: seq<User>, t: ResetToken)
    requires TokensValid(tokens, users) && t in tokens
    ensures TokenByValue(WithoutToken(tokens, t.id), t.token).None?
  {
    var rest := WithoutToken(tokens, t.id);
    forall y | y in rest ensures y.token != t.token {
      var i :| 0 <= i < |tokens| && tokens[i] == y;
      var j :| 0 <= j < |tokens| && tokens[j] == t;
      assert i != j;
    }
  }
}
