/**
 * The callbacks the OAuth2 protocol engine invokes (src/lib/oauth2/model/index.js).
 * Every lookup queries one table, keeps the items that pass an optional
 * filter, maps them into the engine's shape and takes the first; lookups are
 * functions of the store's contents. The four callbacks that write are
 * methods over the store that perform an exact, ordered list of puts or
 * deletes, each given as a function of the inputs and the store beforehand.
 */
module GrantModel {
  import opened Wrappers
  import opened Tables
  import opened Records
  import opened Domain
  import opened Store
  import opened Text
  import opened Hashing
  import C = CriteriaFromParams
  import D = DataToDomain
  import G = DataGenerators

  // ---------------------------------------------------------------------------
  // The private query helpers.

  /** `getCredential(id)`: the first credential with that id, through the id index. */
  function GetCredential(s: Snapshot, id: Option<string>): (r: Option<CredentialItem>)
    ensures r == FirstWhere(s.credentials, (x: CredentialItem) => id == Some(x.id))
  {
    QueryFirst(s.credentials, Some("IdUsernameGSI"), "id", id, CredentialAttr, (x: CredentialItem) => id == Some(x.id));
    First(Query(s.credentials, C.TransformCredential(Bound("id", id)), CredentialAttr))
  }

  /** `listCredentials(username, hashedPassword)`: that user's credentials whose stored password is the hash. */
  function ListCredentials(s: Snapshot, username: Option<string>, hashedPassword: string): (r: seq<CredentialItem>)
    ensures r == Select(s.credentials, (x: CredentialItem) => username == Some(x.username) && x.password == hashedPassword)
  {
    var byName := (x: CredentialItem) => username == Some(x.username);
    var byHash := (x: CredentialItem) => x.password == hashedPassword;
    QuerySelect(s.credentials, None, "username", username, CredentialAttr, byName);
    SelectSelect(s.credentials, byName, byHash,
                 (x: CredentialItem) => username == Some(x.username) && x.password == hashedPassword);
    Select(Query(s.credentials, C.TransformCredentials(Bound("username", username)), CredentialAttr), byHash)
  }

  /** `listAccessTokens(token)`. */
  function ListAccessTokens(s: Snapshot, token: Option<string>): (r: seq<AccessTokenItem>)
    ensures r == Select(s.accessTokens, (x: AccessTokenItem) => token == Some(x.accessToken))
  {
    QuerySelect(s.accessTokens, None, "access_token", token, AccessTokenAttr,
                (x: AccessTokenItem) => token == Some(x.accessToken));
    Query(s.accessTokens, C.TransformAccessToken(Bound("access_token", token)), AccessTokenAttr)
  }

  /** `listRefreshTokens(token)`. */
  function ListRefreshTokens(s: Snapshot, token: Option<string>): (r: seq<RefreshTokenItem>)
    ensures r == Select(s.refreshTokens, (x: RefreshTokenItem) => token == Some(x.refreshToken))
  {
    QuerySelect(s.refreshTokens, None, "refresh_token", token, RefreshTokenAttr,
                (x: RefreshTokenItem) => token == Some(x.refreshToken));
    Query(s.refreshTokens, C.TransformRefreshToken(Bound("refresh_token", token)), RefreshTokenAttr)
  }

  /** Whether a client record passes `listClients`' filter: no secret given, or exactly that secret stored. */
  predicate SecretMatches(x: ClientItem, clientSecret: Option<string>) {
    clientSecret.None? || x.clientSecret == clientSecret
  }

  /** `listClients(clientId, clientSecret)`; a `null` or `undefined` secret filters nothing. */
  function ListClients(s: Snapshot, clientId: Option<string>, clientSecret: Option<string>): (r: seq<ClientItem>)
    ensures r == Select(s.clients, (x: ClientItem) => clientId == Some(x.clientId) && SecretMatches(x, clientSecret))
  {
    var byId := (x: ClientItem) => clientId == Some(x.clientId);
    var bySecret := (x: ClientItem) => SecretMatches(x, clientSecret);
    QuerySelect(s.clients, None, "client_id", clientId, ClientAttr, byId);
    SelectSelect(s.clients, byId, bySecret,
                 (x: ClientItem) => clientId == Some(x.clientId) && SecretMatches(x, clientSecret));
    Select(Query(s.clients, C.TransformClient(Bound("client_id", clientId)), ClientAttr), bySecret)
  }

  /** `listAuthorizationCodes(code)`. */
  function ListAuthorizationCodes(s: Snapshot, code: Option<string>): (r: seq<AuthorizationItem>)
    ensures r == Select(s.authorizations, (x: AuthorizationItem) => code == Some(x.code))
  {
    QuerySelect(s.authorizations, None, "code", code, AuthorizationAttr, (x: AuthorizationItem) => code == Some(x.code));
    Query(s.authorizations, C.TransformAuthorization(Bound("code", code)), AuthorizationAttr)
  }

  // ---------------------------------------------------------------------------
  // Lookups.

  /** `getClient(clientId, clientSecret)`: the first client with that id (and that exact secret, when one is given). */
  function GetClient(s: Snapshot, clientId: Option<string>, clientSecret: Option<string>): (r: Option<Client>)
    ensures r == MapOption(FirstWhere(s.clients, (x: ClientItem) => clientId == Some(x.clientId) && SecretMatches(x, clientSecret)),
                           D.TransformClient)
  {
    var found := ListClients(s, clientId, clientSecret);
    FirstOfMap(found, D.TransformClient);
    FirstOfSelect(s.clients, (x: ClientItem) => clientId == Some(x.clientId) && SecretMatches(x, clientSecret));
    First(MapAll(found, D.TransformClient))
  }

  /**
   * `getUserFromClient(client)`: the owner of the client with `client.id`, as
   * `{ id, username }`; `None` stands for the `false` returned when the client,
   * its `user_id` or the owner's credential is missing.
   */
  function GetUserFromClient(s: Snapshot, client: Ref): (r: Option<User>)
    ensures r.Some? ==> exists c, x :: c in s.clients && x in s.credentials && client.id == Some(c.clientId) &&
                                       c.userId == Some(x.id) && r.value == User(x.id, x.username)
    ensures var c := FirstWhere(s.clients, (x: ClientItem) => client.id == Some(x.clientId));
            r.None? <==> c.None? || c.value.userId.None? || forall x :: x in s.credentials ==> c.value.userId != Some(x.id)
  {
    var result := GetClient(s, client.id, None);
    var userId := if result.Some? then result.value.user.id else None;
    if userId.None? then None
    else
      FirstWhereExt(s.clients, (x: ClientItem) => client.id == Some(x.clientId) && SecretMatches(x, None),
                    (x: ClientItem) => client.id == Some(x.clientId));
      match GetCredential(s, userId)
      case None => None
      case Some(user) => Some(D.TransformCredentials(user))
  }

  /** `getAccessToken(accessToken)`: the first record with that token, in the engine's shape. */
  function GetAccessToken(s: Snapshot, accessToken: Option<string>): (r: Option<AccessToken>)
    ensures r == MapOption(FirstWhere(s.accessTokens, (x: AccessTokenItem) => accessToken == Some(x.accessToken)),
                           D.TransformAccessToken)
  {
    var found := ListAccessTokens(s, accessToken);
    FirstOfMap(found, D.TransformAccessToken);
    FirstOfSelect(s.accessTokens, (x: AccessTokenItem) => accessToken == Some(x.accessToken));
    First(MapAll(found, D.TransformAccessToken))
  }

  /** `getRefreshToken(refreshToken)`: the first record with that token, in the engine's shape. */
  function GetRefreshToken(s: Snapshot, refreshToken: Option<string>): (r: Option<RefreshToken>)
    ensures r == MapOption(FirstWhere(s.refreshTokens, (x: RefreshTokenItem) => refreshToken == Some(x.refreshToken)),
                           D.TransformRefreshToken)
  {
    var found := ListRefreshTokens(s, refreshToken);
    FirstOfMap(found, D.TransformRefreshToken);
    FirstOfSelect(s.refreshTokens, (x: RefreshTokenItem) => refreshToken == Some(x.refreshToken));
    First(MapAll(found, D.TransformRefreshToken))
  }

  /**
   * `getUser(username, password)`: the first credential with that username
   * whose stored password is `hashPassword(password)`, as `{ id, username }`;
   * `None` stands for `false`.
   */
  function GetUser(s: Snapshot, h: Hasher, username: Option<string>, password: Option<string>): (r: Option<User>)
    ensures r == MapOption(FirstWhere(s.credentials, (x: CredentialItem) =>
                             username == Some(x.username) && x.password == HashPassword(h, password)),
                           D.TransformCredentials)
  {
    var found := ListCredentials(s, username, HashPassword(h, password));
    FirstOfMap(found, D.TransformCredentials);
    FirstOfSelect(s.credentials, (x: CredentialItem) => username == Some(x.username) && x.password == HashPassword(h, password));
    First(MapAll(found, D.TransformCredentials))
  }

  /** `getAuthorizationCode(authorizationCode)`: the first record with that code, in the engine's shape. */
  function GetAuthorizationCode(s: Snapshot, authorizationCode: Option<string>): (r: Option<AuthorizationCode>)
    ensures r == MapOption(FirstWhere(s.authorizations, (x: AuthorizationItem) => authorizationCode == Some(x.code)),
                           D.TransformAuthorization)
  {
    var found := ListAuthorizationCodes(s, authorizationCode);
    FirstOfMap(found, D.TransformAuthorization);
    FirstOfSelect(s.authorizations, (x: AuthorizationItem) => authorizationCode == Some(x.code));
    First(MapAll(found, D.TransformAuthorization))
  }

  // ---------------------------------------------------------------------------
  // Writes.

  /** The puts `saveToken` performs: the access token, then the refresh token when one is set. */
  function SaveTokenWrites(token: Token, client: Client, user: User): (ws: seq<Write>)
    ensures |ws| == if Truthy(token.refreshToken) then 2 else 1
    ensures forall w :: w in ws ==> w.IsPut()
  {
    [PutAccessToken(G.GenerateAccessToken(token, client, user))] +
    if Truthy(token.refreshToken) then [PutRefreshToken(G.GenerateRefreshToken(token, client, user))] else []
  }

  /** `saveToken(token, client, user)`. */
  method SaveToken(db: Database, token: Token, client: Client, user: User) returns (r: SavedToken)
    modifies db
    ensures db.journal == old(db.journal) + SaveTokenWrites(token, client, user)
    ensures db.State() == ApplyAll(old(db.State()), SaveTokenWrites(token, client, user))
    ensures r == SavedToken(token, client, user)
  {
    ghost var s0 := db.State();
    var accessToken := G.GenerateAccessToken(token, client, user);
    db.Perform(PutAccessToken(accessToken));
    assert db.State() == ApplyAll(s0, [PutAccessToken(accessToken)]);
    if Truthy(token.refreshToken) {
      var refreshToken := G.GenerateRefreshToken(token, client, user);
      db.Perform(PutRefreshToken(refreshToken));
      ApplyAllSnoc(s0, [PutAccessToken(accessToken)], PutRefreshToken(refreshToken));
    }
    r := SavedToken(token, client, user);
  }

  /** The refresh-token record `revokeToken` finds for `token`, if any. */
  function RevokeTarget(s: Snapshot, token: RefreshToken): (r: Option<RefreshTokenItem>)
    ensures r == FirstWhere(s.refreshTokens, (x: RefreshTokenItem) => Some(token.refreshToken) == Some(x.refreshToken))
  {
    FirstOfSelect(s.refreshTokens, (x: RefreshTokenItem) => Some(token.refreshToken) == Some(x.refreshToken));
    First(ListRefreshTokens(s, Some(token.refreshToken)))
  }

  /** The deletes `revokeToken` performs: none when nothing matches, else the pair, each by its key alone. */
  function RevokeTokenWrites(s: Snapshot, token: RefreshToken): (ws: seq<Write>)
    ensures RevokeTarget(s, token).None? ==> ws == []
    ensures RevokeTarget(s, token).Some? ==>
              ws == [DeleteAccessToken(RevokeTarget(s, token).value.accessToken), DeleteRefreshToken(token.refreshToken)]
  {
    match RevokeTarget(s, token)
    case None => []
    case Some(f) => [DeleteAccessToken(f.accessToken), DeleteRefreshToken(f.refreshToken)]
  }

  /** `revokeToken(token)`: `true` after deleting the pair, `false` when no record matches. */
  method RevokeToken(db: Database, token: RefreshToken) returns (revoked: bool)
    modifies db
    ensures revoked <==> RevokeTarget(old(db.State()), token).Some?
    ensures db.journal == old(db.journal) + RevokeTokenWrites(old(db.State()), token)
    ensures db.State() == ApplyAll(old(db.State()), RevokeTokenWrites(old(db.State()), token))
  {
    ghost var s0 := db.State();
    var refreshToken := RevokeTarget(db.State(), token);
    if refreshToken.None? {
      return false;
    }
    var accessTokenKey := refreshToken.value.accessToken;
    var refreshTokenKey := refreshToken.value.refreshToken;
    db.Perform(DeleteAccessToken(accessTokenKey));
    ApplyAllOne(s0, DeleteAccessToken(accessTokenKey));
    db.Perform(DeleteRefreshToken(refreshTokenKey));
    ApplyAllSnoc(s0, [DeleteAccessToken(accessTokenKey)], DeleteRefreshToken(refreshTokenKey));
    revoked := true;
  }

  /** `saveAuthorizationCode(code, client, user)`. */
  method SaveAuthorizationCode(db: Database, code: CodeGrant, client: Client, user: User) returns (r: SavedCode)
    modifies db
    ensures db.journal == old(db.journal) + [PutAuthorization(G.GenerateAuthorization(code, client, user))]
    ensures db.State() == Apply(old(db.State()), PutAuthorization(G.GenerateAuthorization(code, client, user)))
    ensures r == SavedCode(code, client, user)
  {
    var authorization := G.GenerateAuthorization(code, client, user);
    db.Perform(PutAuthorization(authorization));
    r := SavedCode(code, client, user);
  }

  /** The key `revokeAuthorizationCode` deletes by: `{ code }` of the first matching record. */
  function RevokeCodeKey(s: Snapshot, code: AuthorizationCode): (r: Option<string>)
    ensures r.Some? <==> exists x :: x in s.authorizations && x.code == code.code
    ensures r.Some? ==> r.value == code.code
  {
    var found := ListAuthorizationCodes(s, Some(code.code));
    FirstOfMap(found, (item: AuthorizationItem) => item.code);
    assert found != [] ==> found[0] in found;
    First(MapAll(found, (item: AuthorizationItem) => item.code))
  }

  /** The deletes `revokeAuthorizationCode` performs. */
  function RevokeCodeWrites(s: Snapshot, code: AuthorizationCode): (ws: seq<Write>)
    ensures RevokeCodeKey(s, code).None? ==> ws == []
    ensures RevokeCodeKey(s, code).Some? ==> ws == [DeleteAuthorization(code.code)]
  {
    match RevokeCodeKey(s, code)
    case None => []
    case Some(key) => [DeleteAuthorization(key)]
  }

  /** `revokeAuthorizationCode(code)`: `true` after deleting the code, `false` when it is not stored. */
  method RevokeAuthorizationCode(db: Database, code: AuthorizationCode) returns (revoked: bool)
    modifies db
    ensures revoked <==> RevokeCodeKey(old(db.State()), code).Some?
    ensures db.journal == old(db.journal) + RevokeCodeWrites(old(db.State()), code)
    ensures db.State() == ApplyAll(old(db.State()), RevokeCodeWrites(old(db.State()), code))
  {
    var key := RevokeCodeKey(db.State(), code);
    if key.None? {
      return false;
    }
    db.Perform(DeleteAuthorization(key.value));
    revoked := true;
  }

  // ---------------------------------------------------------------------------
  // Scope.

  /** `list.indexOf(x)`: the first position of `x`, or -1. */
  function IndexOf(list: seq<string>, x: string): (i: int)
    ensures -1 <= i < |list|
    ensures i >= 0 <==> x in list
    ensures i >= 0 ==> list[i] == x && forall j :: 0 <= j < i ==> list[j] != x
  {
    if list == [] then -1
    else if list[0] == x then 0
    else
      var i := IndexOf(list[1..], x);
      assert i >= 0 ==> list[i + 1] == x;
      if i < 0 then -1 else i + 1
  }

  /** `requested.every(s => authorized.indexOf(s) >= 0)`. */
  function Every(requested: seq<string>, authorized: seq<string>): (r: bool)
    ensures r <==> forall p :: p in requested ==> p in authorized
  {
    if requested == [] then true
    else IndexOf(authorized, requested[0]) >= 0 && Every(requested[1..], authorized)
  }

  /**
   * `verifyScope(token, scope)`: false for a falsy granted scope; otherwise
   * true iff every space-separated piece of the request is a piece of the grant.
   */
  function VerifyScope(token: AccessToken, scope: string): (r: bool)
    ensures r <==> Truthy(token.scope) && forall p :: p in Split(scope, ' ') ==> p in Split(token.scope.value, ' ')
  {
    if !Truthy(token.scope) then false
    else
      var requestedScopes := Split(scope, ' ');
      var authorizedScopes := Split(token.scope.value, ' ');
      assert Every(requestedScopes, authorizedScopes) ==> forall p :: p in requestedScopes ==> p in authorizedScopes;
      assert (forall p :: p in requestedScopes ==> p in authorizedScopes) ==> Every(requestedScopes, authorizedScopes);
      Every(requestedScopes, authorizedScopes)
  }

  // ---------------------------------------------------------------------------
  // Properties of the callbacks.

  /** With unique client ids, a secret lets the client through only when it is exactly the stored one; a wrong secret and an unknown client look the same. */
  lemma GetClientWithSecret(s: Snapshot, clientId: string, clientSecret: string)
    requires Valid(s)
    ensures GetClient(s, Some(clientId), Some(clientSecret)) ==
            match Find(s.clients, ClientKey, clientId)
            case Some(c) => (if c.clientSecret == Some(clientSecret) then Some(D.TransformClient(c)) else None)
            case None => None
  {
    FirstWhereExt(s.clients,
                  (x: ClientItem) => Some(clientId) == Some(x.clientId) && SecretMatches(x, Some(clientSecret)),
                  (x: ClientItem) => ClientKey(x) == clientId && x.clientSecret == Some(clientSecret));
    FirstWhereKeyed(s.clients, ClientKey, clientId,
                    (x: ClientItem) => x.clientSecret == Some(clientSecret),
                    (x: ClientItem) => ClientKey(x) == clientId && x.clientSecret == Some(clientSecret));
  }

  /** Without a secret, `getClient` is the keyed lookup of the id. */
  lemma GetClientWithoutSecret(s: Snapshot, clientId: string)
    ensures GetClient(s, Some(clientId), None) == MapOption(Find(s.clients, ClientKey, clientId), D.TransformClient)
  {
    FirstClientById(s.clients, clientId);
  }

  /** Looking for the id with no secret to match is the keyed lookup. */
  lemma FirstClientById(t: seq<ClientItem>, clientId: string)
    ensures FirstWhere(t, (x: ClientItem) => Some(clientId) == Some(x.clientId) && SecretMatches(x, None)) ==
            Find(t, ClientKey, clientId)
  {
    FirstWhereExt(t,
                  (x: ClientItem) => Some(clientId) == Some(x.clientId) && SecretMatches(x, None),
                  (x: ClientItem) => ClientKey(x) == clientId);
  }

  /** A client found with a secret is the client found without one. */
  lemma GetClientSecretNarrows(s: Snapshot, clientId: string, clientSecret: string)
    requires Valid(s)
    requires GetClient(s, Some(clientId), Some(clientSecret)).Some?
    ensures GetClient(s, Some(clientId), Some(clientSecret)) == GetClient(s, Some(clientId), None)
  {
    GetClientWithSecret(s, clientId, clientSecret);
    GetClientWithoutSecret(s, clientId);
  }

  /** Right after a client is put, `getClient` on its id finds it exactly when the secret offered matches the stored one (or none is offered). */
  lemma GetClientAfterPut(s: Snapshot, x: ClientItem, clientSecret: Option<string>)
    ensures GetClient(Apply(s, PutClient(x)), Some(x.clientId), clientSecret) ==
            (if SecretMatches(x, clientSecret) then Some(D.TransformClient(x)) else None)
  {
    var id := x.clientId;
    FirstWhereAfterUpsert(s.clients, ClientKey, x,
                          (y: ClientItem) => Some(id) == Some(y.clientId) && SecretMatches(y, clientSecret));
  }

  /** A user stored with `hashPassword(p)` is authenticated by `p`. */
  lemma GetUserAfterPut(s: Snapshot, h: Hasher, id: string, username: string, password: Option<string>)
    ensures GetUser(Apply(s, PutCredential(CredentialItem(id, username, HashPassword(h, password)))), h, Some(username), password) ==
            Some(User(id, username))
  {
    var x := CredentialItem(id, username, HashPassword(h, password));
    var hash := HashPassword(h, password);
    FirstWhereAfterUpsert(s.credentials, CredentialKey, x,
                          (y: CredentialItem) => Some(username) == Some(y.username) && y.password == hash);
  }

  /** With an injective digest, any other password (an omitted one included, unless the password is "undefined") is refused. */
  lemma GetUserWrongPassword(s: Snapshot, h: Hasher, id: string, username: string, password: Option<string>, other: Option<string>)
    requires Injective(h)
    requires JsText(other) != JsText(password)
    ensures GetUser(Apply(s, PutCredential(CredentialItem(id, username, HashPassword(h, password)))), h, Some(username), other) == None
  {
    var x := CredentialItem(id, username, HashPassword(h, password));
    var hash := HashPassword(h, other);
    HashDistinguishes(h, password, other);
    FirstWhereAfterUpsert(s.credentials, CredentialKey, x,
                          (y: CredentialItem) => Some(username) == Some(y.username) && y.password == hash);
  }

  /** An omitted password is checked exactly like the password "undefined". */
  lemma GetUserOmittedPassword(s: Snapshot, h: Hasher, username: Option<string>)
    ensures GetUser(s, h, username, None) == GetUser(s, h, username, Some("undefined"))
  {
  }

  /** What `saveToken`'s puts do to the tables: an upsert into the access table, and one into the refresh table when a refresh token is set. */
  lemma SaveTokenState(s: Snapshot, token: Token, client: Client, user: User)
    ensures var s' := ApplyAll(s, SaveTokenWrites(token, client, user));
            && s'.accessTokens == Upsert(s.accessTokens, AccessTokenKey, G.GenerateAccessToken(token, client, user))
            && s'.refreshTokens == (if Truthy(token.refreshToken)
                                    then Upsert(s.refreshTokens, RefreshTokenKey, G.GenerateRefreshToken(token, client, user))
                                    else s.refreshTokens)
            && s'.credentials == s.credentials && s'.clients == s.clients && s'.authorizations == s.authorizations
  {
    var a := PutAccessToken(G.GenerateAccessToken(token, client, user));
    if Truthy(token.refreshToken) {
      var b := PutRefreshToken(G.GenerateRefreshToken(token, client, user));
      assert SaveTokenWrites(token, client, user) == [a, b];
      ApplyAllTwo(s, a, b);
      ApplyEffect(s, a);
      ApplyEffect(Apply(s, a), b);
    } else {
      assert SaveTokenWrites(token, client, user) == [a];
      ApplyAllOne(s, a);
      ApplyEffect(s, a);
    }
  }

  /** A saved token is read back by its access token, to the second. */
  lemma SaveTokenThenGetAccessToken(s: Snapshot, token: Token, client: Client, user: User)
    ensures GetAccessToken(ApplyAll(s, SaveTokenWrites(token, client, user)), Some(token.accessToken)) ==
            Some(AccessToken(token.accessToken, G.WholeSecond(token.accessTokenExpiresAt), token.scope,
                             Ref(Some(client.id)), Ref(Some(user.id))))
  {
    SaveTokenState(s, token, client, user);
    var k := token.accessToken;
    FirstWhereAfterUpsert(s.accessTokens, AccessTokenKey, G.GenerateAccessToken(token, client, user),
                          (y: AccessTokenItem) => Some(k) == Some(y.accessToken));
    G.AccessTokenRoundTrip(token, client, user);
  }

  /** A saved token with a refresh token is read back by it, paired access token included; without one the refresh table is untouched. */
  lemma SaveTokenThenGetRefreshToken(s: Snapshot, token: Token, client: Client, user: User)
    ensures Truthy(token.refreshToken) ==>
              GetRefreshToken(ApplyAll(s, SaveTokenWrites(token, client, user)), token.refreshToken) ==
              Some(RefreshToken(token.accessToken, token.refreshToken.value, G.WholeSecond(token.refreshTokenExpiresAt),
                                token.scope, Ref(Some(client.id)), Ref(Some(user.id))))
    ensures !Truthy(token.refreshToken) ==>
              ApplyAll(s, SaveTokenWrites(token, client, user)).refreshTokens == s.refreshTokens
  {
    SaveTokenState(s, token, client, user);
    if Truthy(token.refreshToken) {
      var k := token.refreshToken.value;
      FirstWhereAfterUpsert(s.refreshTokens, RefreshTokenKey, G.GenerateRefreshToken(token, client, user),
                            (y: RefreshTokenItem) => Some(k) == Some(y.refreshToken));
      G.RefreshTokenRoundTrip(token, client, user);
    }
  }

  /** Revoking a stored refresh token removes it and its paired access token and leaves everything else in place. */
  lemma RevokeTokenEffect(s: Snapshot, token: RefreshToken, otherAccess: string, otherRefresh: string)
    requires RevokeTarget(s, token).Some?
    requires otherAccess != RevokeTarget(s, token).value.accessToken && otherRefresh != token.refreshToken
    ensures var s' := ApplyAll(s, RevokeTokenWrites(s, token));
            && GetRefreshToken(s', Some(token.refreshToken)) == None
            && GetAccessToken(s', Some(RevokeTarget(s, token).value.accessToken)) == None
            && GetRefreshToken(s', Some(otherRefresh)) == GetRefreshToken(s, Some(otherRefresh))
            && GetAccessToken(s', Some(otherAccess)) == GetAccessToken(s, Some(otherAccess))
            && s'.credentials == s.credentials && s'.clients == s.clients && s'.authorizations == s.authorizations
  {
    var f := RevokeTarget(s, token).value;
    var ak := f.accessToken;
    var rk := token.refreshToken;
    ApplyAllTwo(s, DeleteAccessToken(ak), DeleteRefreshToken(rk));
    ApplyEffect(s, DeleteAccessToken(ak));
    ApplyEffect(Apply(s, DeleteAccessToken(ak)), DeleteRefreshToken(rk));
    var s' := ApplyAll(s, RevokeTokenWrites(s, token));
    assert s'.accessTokens == RemoveKey(s.accessTokens, AccessTokenKey, ak);
    assert s'.refreshTokens == RemoveKey(s.refreshTokens, RefreshTokenKey, rk);
    FirstWhereAfterRemove(s.accessTokens, AccessTokenKey, ak, (y: AccessTokenItem) => Some(ak) == Some(y.accessToken));
    FirstWhereAfterRemoveOther(s.accessTokens, AccessTokenKey, ak, (y: AccessTokenItem) => Some(otherAccess) == Some(y.accessToken));
    FirstWhereAfterRemove(s.refreshTokens, RefreshTokenKey, rk, (y: RefreshTokenItem) => Some(rk) == Some(y.refreshToken));
    FirstWhereAfterRemoveOther(s.refreshTokens, RefreshTokenKey, rk, (y: RefreshTokenItem) => Some(otherRefresh) == Some(y.refreshToken));
  }

  /** A refresh token revokes once: revoking it again finds nothing and writes nothing. */
  lemma RevokeTokenOnce(s: Snapshot, token: RefreshToken)
    ensures RevokeTokenWrites(ApplyAll(s, RevokeTokenWrites(s, token)), token) == []
  {
    var ws := RevokeTokenWrites(s, token);
    if ws != [] {
      var f := RevokeTarget(s, token).value;
      var rk := token.refreshToken;
      ApplyAllTwo(s, DeleteAccessToken(f.accessToken), DeleteRefreshToken(rk));
      ApplyEffect(s, DeleteAccessToken(f.accessToken));
      ApplyEffect(Apply(s, DeleteAccessToken(f.accessToken)), DeleteRefreshToken(rk));
      assert ApplyAll(s, ws).refreshTokens == RemoveKey(s.refreshTokens, RefreshTokenKey, rk);
      FirstWhereAfterRemove(s.refreshTokens, RefreshTokenKey, rk, (y: RefreshTokenItem) => Some(rk) == Some(y.refreshToken));
    }
  }

  /** A saved code is read back under `code`, to the second; the other tables do not change. */
  lemma SaveCodeThenGet(s: Snapshot, code: CodeGrant, client: Client, user: User)
    ensures var s' := Apply(s, PutAuthorization(G.GenerateAuthorization(code, client, user)));
            && GetAuthorizationCode(s', Some(code.authorizationCode)) ==
                 Some(AuthorizationCode(code.authorizationCode, G.WholeSecond(code.expiresAt), code.scope, code.redirectUri,
                                        Ref(Some(client.id)), Ref(Some(user.id))))
            && s'.credentials == s.credentials && s'.clients == s.clients
            && s'.accessTokens == s.accessTokens && s'.refreshTokens == s.refreshTokens
  {
    var x := G.GenerateAuthorization(code, client, user);
    ApplyEffect(s, PutAuthorization(x));
    GetAuthorizationAfterPut(s, x);
    G.AuthorizationRoundTrip(code, client, user);
  }

  /** After a put, the stored authorization is the one its code finds. */
  lemma GetAuthorizationAfterPut(s: Snapshot, x: AuthorizationItem)
    ensures GetAuthorizationCode(Apply(s, PutAuthorization(x)), Some(x.code)) == Some(D.TransformAuthorization(x))
  {
    var k := x.code;
    assert Apply(s, PutAuthorization(x)).authorizations == Upsert(s.authorizations, AuthorizationKey, x);
    FirstWhereAfterUpsert(s.authorizations, AuthorizationKey, x, (y: AuthorizationItem) => Some(k) == Some(y.code));
  }

  /** A code is single-use: once revoked it is gone, and a second revocation reports `false` and deletes nothing. */
  lemma RevokeCodeOnce(s: Snapshot, code: AuthorizationCode)
    ensures var s' := ApplyAll(s, RevokeCodeWrites(s, code));
            && GetAuthorizationCode(s', Some(code.code)) == None
            && RevokeCodeKey(s', code).None?
            && RevokeCodeWrites(s', code) == []
  {
    var ws := RevokeCodeWrites(s, code);
    var k := code.code;
    if ws != [] {
      ApplyAllOne(s, DeleteAuthorization(k));
      assert ApplyAll(s, ws).authorizations == RemoveKey(s.authorizations, AuthorizationKey, k);
      FirstWhereAfterRemove(s.authorizations, AuthorizationKey, k, (y: AuthorizationItem) => Some(k) == Some(y.code));
    } else {
      assert ApplyAll(s, ws) == s;
    }
  }

  /** The granted scope itself always passes. */
  lemma VerifyScopeGranted(token: AccessToken)
    requires Truthy(token.scope)
    ensures VerifyScope(token, token.scope.value)
  {
  }

  /** Only which pieces are requested matters, not their order or repetition. */
  lemma VerifyScopeOrderFree(token: AccessToken, a: string, b: string)
    requires forall p :: p in Split(a, ' ') <==> p in Split(b, ' ')
    ensures VerifyScope(token, a) == VerifyScope(token, b)
  {
  }

  /** Granting more pieces never makes a request fail. */
  lemma VerifyScopeMonotone(narrow: AccessToken, wide: AccessToken, scope: string)
    requires Truthy(wide.scope)
    requires Truthy(narrow.scope) ==> forall p :: p in Split(narrow.scope.value, ' ') ==> p in Split(wide.scope.value, ' ')
    ensures VerifyScope(narrow, scope) ==> VerifyScope(wide, scope)
  {
  }

  /** A request written as space-separated scope tokens passes iff each token is granted (section 3.3 of RFC 6749). */
  lemma VerifyScopeOfTokens(token: AccessToken, requested: seq<string>)
    requires |requested| >= 1
    requires forall i :: 0 <= i < |requested| ==> ' ' !in requested[i]
    ensures VerifyScope(token, Join(requested, ' ')) <==>
            Truthy(token.scope) && forall p :: p in requested ==> p in Split(token.scope.value, ' ')
  {
    SplitJoin(requested, ' ');
  }
}
