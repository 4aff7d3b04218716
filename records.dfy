/**
 * The flat records the five tables hold. A field that was `undefined` when the
 * record was written is absent (`None`): the attribute-value wrapper drops it.
 * Times are whole seconds since the epoch.
 */
module Records {
  import opened Wrappers

  /** A resource owner: `username` is the table's primary key, `id` has a secondary index. */
  datatype CredentialItem = CredentialItem(id: string, username: string, password: string) {
    /** The string attribute a key condition can test. */
    function Attr(name: string): Option<string> {
      if name == "id" then Some(id)
      else if name == "username" then Some(username)
      else if name == "password" then Some(password)
      else None
    }
  }

  /** An OAuth client: `client_id` is the primary key, `user_id` has a secondary index. */
  datatype ClientItem = ClientItem(
    clientId: string,
    clientSecret: Option<string>,
    userId: Option<string>,
    description: Option<string>,
    grants: seq<string>,
    redirectUris: Option<seq<string>>)
  {
    function Attr(name: string): Option<string> {
      if name == "client_id" then Some(clientId)
      else if name == "client_secret" then clientSecret
      else if name == "user_id" then userId
      else if name == "description" then description
      else None
    }
  }

  /** An issued access token, keyed by `access_token`. */
  datatype AccessTokenItem = AccessTokenItem(
    accessToken: string,
    expiresOn: Option<int>,
    scope: Option<string>,
    clientId: string,
    userId: string)
  {
    function Attr(name: string): Option<string> {
      if name == "access_token" then Some(accessToken)
      else if name == "scope" then scope
      else if name == "client_id" then Some(clientId)
      else if name == "user_id" then Some(userId)
      else None
    }
  }

  /** An issued refresh token, keyed by `refresh_token`, with the access token issued beside it. */
  datatype RefreshTokenItem = RefreshTokenItem(
    accessToken: string,
    refreshToken: string,
    expiresOn: Option<int>,
    scope: Option<string>,
    clientId: string,
    userId: string)
  {
    function Attr(name: string): Option<string> {
      if name == "access_token" then Some(accessToken)
      else if name == "refresh_token" then Some(refreshToken)
      else if name == "scope" then scope
      else if name == "client_id" then Some(clientId)
      else if name == "user_id" then Some(userId)
      else None
    }
  }

  /** An authorization code, keyed by `code`. */
  datatype AuthorizationItem = AuthorizationItem(
    code: string,
    expiresOn: Option<int>,
    scope: Option<string>,
    redirectUri: Option<string>,
    clientId: string,
    userId: string)
  {
    function Attr(name: string): Option<string> {
      if name == "code" then Some(code)
      else if name == "scope" then scope
      else if name == "redirect_uri" then redirectUri
      else if name == "client_id" then Some(clientId)
      else if name == "user_id" then Some(userId)
      else None
    }
  }

  // Primary keys of the five tables.
  function CredentialKey(x: CredentialItem): string { x.username }
  function ClientKey(x: ClientItem): string { x.clientId }
  function AccessTokenKey(x: AccessTokenItem): string { x.accessToken }
  function RefreshTokenKey(x: RefreshTokenItem): string { x.refreshToken }
  function AuthorizationKey(x: AuthorizationItem): string { x.code }
}
