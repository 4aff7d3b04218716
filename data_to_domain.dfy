/**
 * Storage records to the objects the protocol engine receives
 * (src/lib/oauth2/model/dataToDomain.js): ids are wrapped into `{ id }`
 * references, seconds become milliseconds, and a credential is projected to
 * `{ id, username }`.
 */
module DataToDomain {
  import opened Wrappers
  import opened Records
  import opened Domain

  /** Epoch seconds to a `Date`; an absent time stays absent (no expiry). */
  function ConvertUnixTimeToDate(unixtime: Option<int>): (r: Option<int>)
    ensures r.None? <==> unixtime.None?
    ensures r.Some? ==> r.value % 1000 == 0 && r.value / 1000 == unixtime.value
  {
    match unixtime
    case None => None
    case Some(u) => Some(u * 1000)
  }

  /** `client_id` becomes `id`, `user_id` becomes `user.id`; grants and redirect URIs are carried as stored. */
  function TransformClient(item: ClientItem): (r: Client)
    ensures r.id == item.clientId && r.user == Ref(item.userId)
    ensures r.grants == item.grants && r.redirectUris == item.redirectUris
  {
    Client(item.clientId, item.redirectUris, item.grants, Ref(item.userId))
  }

  /** The ids become `{ id }` references, the paired `access_token` is kept, and the expiry turns into milliseconds. */
  function TransformRefreshToken(item: RefreshTokenItem): (r: RefreshToken)
    ensures r.accessToken == item.accessToken && r.refreshToken == item.refreshToken && r.scope == item.scope
    ensures r.client == Ref(Some(item.clientId)) && r.user == Ref(Some(item.userId))
    ensures r.refreshTokenExpiresAt.Some? <==> item.expiresOn.Some?
    ensures r.refreshTokenExpiresAt.Some? ==> r.refreshTokenExpiresAt.value == item.expiresOn.value * 1000
  {
    RefreshToken(
      item.accessToken,
      item.refreshToken,
      ConvertUnixTimeToDate(item.expiresOn),
      item.scope,
      Ref(Some(item.clientId)),
      Ref(Some(item.userId)))
  }

  /** The ids become `{ id }` references and the expiry turns into milliseconds. */
  function TransformAccessToken(item: AccessTokenItem): (r: AccessToken)
    ensures r.accessToken == item.accessToken && r.scope == item.scope
    ensures r.client == Ref(Some(item.clientId)) && r.user == Ref(Some(item.userId))
    ensures r.accessTokenExpiresAt.Some? <==> item.expiresOn.Some?
    ensures r.accessTokenExpiresAt.Some? ==> r.accessTokenExpiresAt.value == item.expiresOn.value * 1000
  {
    AccessToken(
      item.accessToken,
      ConvertUnixTimeToDate(item.expiresOn),
      item.scope,
      Ref(Some(item.clientId)),
      Ref(Some(item.userId)))
  }

  /** `_.pick(item, ['id', 'username'])`. */
  function TransformCredentials(item: CredentialItem): (r: User)
    ensures r.id == item.id && r.username == item.username
  {
    User(item.id, item.username)
  }

  /** `code` stays `code`, `redirect_uri` becomes `redirectUri`, and the expiry turns into milliseconds. */
  function TransformAuthorization(item: AuthorizationItem): (r: AuthorizationCode)
    ensures r.code == item.code && r.scope == item.scope && r.redirectUri == item.redirectUri
    ensures r.client == Ref(Some(item.clientId)) && r.user == Ref(Some(item.userId))
    ensures r.expiresAt.Some? <==> item.expiresOn.Some?
    ensures r.expiresAt.Some? ==> r.expiresAt.value == item.expiresOn.value * 1000
  {
    AuthorizationCode(
      item.code,
      ConvertUnixTimeToDate(item.expiresOn),
      item.scope,
      item.redirectUri,
      Ref(Some(item.clientId)),
      Ref(Some(item.userId)))
  }

  /** The password hash never reaches the engine: two credentials that differ only in it look the same. */
  lemma TransformCredentialsHidesPassword(item: CredentialItem, otherHash: string)
    ensures TransformCredentials(item.(password := otherHash)) == TransformCredentials(item)
    ensures TransformCredentials(item) == User(item.id, item.username)
  {
  }

  /** A client's secret and description are not handed to the engine. */
  lemma TransformClientHidesSecret(item: ClientItem, secret: Option<string>, description: Option<string>)
    ensures TransformClient(item.(clientSecret := secret, description := description)) == TransformClient(item)
    ensures TransformClient(item).user.id == item.userId
  {
  }
}
