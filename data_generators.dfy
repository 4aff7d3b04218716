/**
 * Engine objects to storage records (src/lib/oauth2/model/dataGenerators.js):
 * references are flattened to `*_id` fields and milliseconds become whole
 * seconds, rounding down. Together with DataToDomain this gives the round
 * trips of the mapping layer.
 */
module DataGenerators {
  import opened Wrappers
  import opened Records
  import opened Domain
  import opened DataToDomain

  /** `Math.floor(date.getTime() / 1000)`; an absent time stays absent. */
  function ConvertDateToUnixTime(date: Option<int>): (r: Option<int>)
    ensures r.None? <==> date.None?
    ensures r.Some? ==> r.value * 1000 <= date.value < r.value * 1000 + 1000
  {
    match date
    case None => None
    // Dafny's `/` by a positive divisor rounds toward negative infinity, as Math.floor does.
    case Some(ms) => Some(ms / 1000)
  }

  /** Flattens the references to their ids and stores the expiry in whole seconds. */
  function GenerateAccessToken(token: Token, client: Client, user: User): (r: AccessTokenItem)
    ensures r.accessToken == token.accessToken && r.scope == token.scope
    ensures r.clientId == client.id && r.userId == user.id
    ensures r.expiresOn == ConvertDateToUnixTime(token.accessTokenExpiresAt)
  {
    AccessTokenItem(
      token.accessToken,
      ConvertDateToUnixTime(token.accessTokenExpiresAt),
      token.scope,
      client.id,
      user.id)
  }

  /** Stores the refresh token beside its access token, with the ids flattened and the expiry in whole seconds. */
  function GenerateRefreshToken(token: Token, client: Client, user: User): (r: RefreshTokenItem)
    requires token.refreshToken.Some?
    ensures r.accessToken == token.accessToken && r.refreshToken == token.refreshToken.value && r.scope == token.scope
    ensures r.clientId == client.id && r.userId == user.id
    ensures r.expiresOn == ConvertDateToUnixTime(token.refreshTokenExpiresAt)
  {
    RefreshTokenItem(
      token.accessToken,
      token.refreshToken.value,
      ConvertDateToUnixTime(token.refreshTokenExpiresAt),
      token.scope,
      client.id,
      user.id)
  }

  /** The stored key is `code`, taken from the engine's `authorizationCode`. */
  function GenerateAuthorization(code: CodeGrant, client: Client, user: User): (r: AuthorizationItem)
    ensures r.code == code.authorizationCode && r.scope == code.scope && r.redirectUri == code.redirectUri
    ensures r.clientId == client.id && r.userId == user.id
    ensures r.expiresOn == ConvertDateToUnixTime(code.expiresAt)
  {
    AuthorizationItem(
      code.authorizationCode,
      ConvertDateToUnixTime(code.expiresAt),
      code.scope,
      code.redirectUri,
      client.id,
      user.id)
  }

  /** A time rounded down to its whole second. */
  function WholeSecond(ms: Option<int>): (r: Option<int>)
    ensures r.None? <==> ms.None?
    ensures r.Some? ==> r.value % 1000 == 0 && r.value <= ms.value < r.value + 1000
  {
    match ms
    case None => None
    case Some(m) => Some(m - m % 1000)
  }

  /** Seconds to a Date and back is the identity. */
  lemma SecondsRoundTrip(unixtime: Option<int>)
    ensures ConvertDateToUnixTime(ConvertUnixTimeToDate(unixtime)) == unixtime
  {
  }

  /** A Date to seconds and back loses exactly the milliseconds below the second. */
  lemma MillisecondsRoundTrip(date: Option<int>)
    ensures ConvertUnixTimeToDate(ConvertDateToUnixTime(date)) == WholeSecond(date)
  {
  }

  /** Saving an access token and reading it back gives the same token, to the second. */
  lemma AccessTokenRoundTrip(token: Token, client: Client, user: User)
    ensures TransformAccessToken(GenerateAccessToken(token, client, user)) ==
            AccessToken(token.accessToken, WholeSecond(token.accessTokenExpiresAt), token.scope,
                        Ref(Some(client.id)), Ref(Some(user.id)))
  {
    MillisecondsRoundTrip(token.accessTokenExpiresAt);
  }

  /** Saving a refresh token and reading it back gives the same token, paired access token included. */
  lemma RefreshTokenRoundTrip(token: Token, client: Client, user: User)
    requires token.refreshToken.Some?
    ensures TransformRefreshToken(GenerateRefreshToken(token, client, user)) ==
            RefreshToken(token.accessToken, token.refreshToken.value, WholeSecond(token.refreshTokenExpiresAt),
                         token.scope, Ref(Some(client.id)), Ref(Some(user.id)))
  {
    MillisecondsRoundTrip(token.refreshTokenExpiresAt);
  }

  /** Saving a code and reading it back gives it under the name `code`. */
  lemma AuthorizationRoundTrip(code: CodeGrant, client: Client, user: User)
    ensures TransformAuthorization(GenerateAuthorization(code, client, user)) ==
            AuthorizationCode(code.authorizationCode, WholeSecond(code.expiresAt), code.scope, code.redirectUri,
                              Ref(Some(client.id)), Ref(Some(user.id)))
  {
    MillisecondsRoundTrip(code.expiresAt);
  }

  /** A stored access token read into the domain and written back is the same record. */
  lemma AccessTokenItemRoundTrip(item: AccessTokenItem, client: Client, user: User)
    requires client.id == item.clientId && user.id == item.userId
    ensures var t := TransformAccessToken(item);
            GenerateAccessToken(Token(t.accessToken, t.accessTokenExpiresAt, None, None, t.scope), client, user) == item
  {
    SecondsRoundTrip(item.expiresOn);
  }

  /** A stored refresh token read into the domain and written back is the same record. */
  lemma RefreshTokenItemRoundTrip(item: RefreshTokenItem, client: Client, user: User)
    requires client.id == item.clientId && user.id == item.userId
    ensures var t := TransformRefreshToken(item);
            GenerateRefreshToken(Token(t.accessToken, None, Some(t.refreshToken), t.refreshTokenExpiresAt, t.scope), client, user) == item
  {
    SecondsRoundTrip(item.expiresOn);
  }

  /** A stored code read into the domain and written back is the same record. */
  lemma AuthorizationItemRoundTrip(item: AuthorizationItem, client: Client, user: User)
    requires client.id == item.clientId && user.id == item.userId
    ensures var c := TransformAuthorization(item);
            GenerateAuthorization(CodeGrant(c.code, c.expiresAt, c.scope, c.redirectUri), client, user) == item
  {
    SecondsRoundTrip(item.expiresOn);
  }

  /** Only the ids of the client and the user reach a token record; grants, usernames and the rest do not. */
  lemma GeneratorsReadOnlyIds(token: Token, client: Client, other: Client, user: User, otherUser: User)
    requires other.id == client.id && otherUser.id == user.id
    ensures GenerateAccessToken(token, other, otherUser) == GenerateAccessToken(token, client, user)
    ensures token.refreshToken.Some? ==>
              GenerateRefreshToken(token, other, otherUser) == GenerateRefreshToken(token, client, user)
  {
  }

  /** An expiry field is stored exactly when the engine set one. */
  lemma ExpiryStoredIffSet(token: Token, code: CodeGrant, client: Client, user: User)
    ensures GenerateAccessToken(token, client, user).expiresOn.Some? <==> token.accessTokenExpiresAt.Some?
    ensures token.refreshToken.Some? ==>
              (GenerateRefreshToken(token, client, user).expiresOn.Some? <==> token.refreshTokenExpiresAt.Some?)
    ensures GenerateAuthorization(code, client, user).expiresOn.Some? <==> code.expiresAt.Some?
  {
  }
}
