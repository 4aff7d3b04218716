/**
 * The objects exchanged with the OAuth2 protocol engine. References to a
 * client or a user are `{ id }` objects whose id may be missing; times are
 * whole milliseconds since the epoch (a JavaScript `Date`).
 */
module Domain {
  import opened Wrappers

  /** `{ id }`. */
  datatype Ref = Ref(id: Option<string>)

  /** What `getClient` hands the engine. `redirectUris` is `null` when the record has none. */
  datatype Client = Client(id: string, redirectUris: Option<seq<string>>, grants: seq<string>, user: Ref)

  /** An authenticated resource owner: `{ id, username }` and nothing else. */
  datatype User = User(id: string, username: string)

  datatype AccessToken = AccessToken(
    accessToken: string,
    accessTokenExpiresAt: Option<int>,
    scope: Option<string>,
    client: Ref,
    user: Ref)

  datatype RefreshToken = RefreshToken(
    accessToken: string,
    refreshToken: string,
    refreshTokenExpiresAt: Option<int>,
    scope: Option<string>,
    client: Ref,
    user: Ref)

  /** What `getAuthorizationCode` hands the engine; note the field is `code`. */
  datatype AuthorizationCode = AuthorizationCode(
    code: string,
    expiresAt: Option<int>,
    scope: Option<string>,
    redirectUri: Option<string>,
    client: Ref,
    user: Ref)

  /** The token the engine asks `saveToken` to persist. */
  datatype Token = Token(
    accessToken: string,
    accessTokenExpiresAt: Option<int>,
    refreshToken: Option<string>,
    refreshTokenExpiresAt: Option<int>,
    scope: Option<string>)

  /** The code the engine asks `saveAuthorizationCode` to persist; note the field is `authorizationCode`. */
  datatype CodeGrant = CodeGrant(
    authorizationCode: string,
    expiresAt: Option<int>,
    scope: Option<string>,
    redirectUri: Option<string>)

  /** `{ ...token, client, user }`. */
  datatype SavedToken = SavedToken(token: Token, client: Client, user: User)

  /** `{ ...code, client, user }`. */
  datatype SavedCode = SavedCode(code: CodeGrant, client: Client, user: User)

  /** JavaScript truthiness of an optional string: absent and "" are falsy. */
  predicate Truthy(s: Option<string>) {
    s.Some? && s.value != ""
  }
}
