/**
 * The key-value store the repositories and the grant model talk to, in place
 * of the DynamoDB adapter: five tables and the journal of every put and delete
 * the store has received, in order. `Apply` is what one write does to the
 * tables; the class keeps its tables equal to the journal replayed.
 */
module Store {
  import opened Wrappers
  import opened Records
  import opened Tables
  import opened CriteriaFromParams

  datatype Snapshot = Snapshot(
    credentials: seq<CredentialItem>,
    clients: seq<ClientItem>,
    accessTokens: seq<AccessTokenItem>,
    refreshTokens: seq<RefreshTokenItem>,
    authorizations: seq<AuthorizationItem>)

  /** One call to `putItem` or `deleteItem`; a delete names the table's primary key only. */
  datatype Write =
    | PutCredential(credential: CredentialItem)
    | DeleteCredential(username: string)
    | PutClient(client: ClientItem)
    | DeleteClient(clientId: string)
    | PutAccessToken(accessToken: AccessTokenItem)
    | DeleteAccessToken(accessTokenKey: string)
    | PutRefreshToken(refreshToken: RefreshTokenItem)
    | DeleteRefreshToken(refreshTokenKey: string)
    | PutAuthorization(authorization: AuthorizationItem)
    | DeleteAuthorization(code: string)
  {
    predicate IsPut() {
      PutCredential? || PutClient? || PutAccessToken? || PutRefreshToken? || PutAuthorization?
    }
  }

  /** Every table's primary key identifies at most one record. */
  ghost predicate Valid(s: Snapshot) {
    && KeysUnique(s.credentials, CredentialKey)
    && KeysUnique(s.clients, ClientKey)
    && KeysUnique(s.accessTokens, AccessTokenKey)
    && KeysUnique(s.refreshTokens, RefreshTokenKey)
    && KeysUnique(s.authorizations, AuthorizationKey)
  }

  /** What one write does: a put upserts on the primary key, a delete removes by it (absent is not an error). */
  function Apply(s: Snapshot, w: Write): Snapshot {
    match w
    case PutCredential(x) => s.(credentials := Upsert(s.credentials, CredentialKey, x))
    case DeleteCredential(k) => s.(credentials := RemoveKey(s.credentials, CredentialKey, k))
    case PutClient(x) => s.(clients := Upsert(s.clients, ClientKey, x))
    case DeleteClient(k) => s.(clients := RemoveKey(s.clients, ClientKey, k))
    case PutAccessToken(x) => s.(accessTokens := Upsert(s.accessTokens, AccessTokenKey, x))
    case DeleteAccessToken(k) => s.(accessTokens := RemoveKey(s.accessTokens, AccessTokenKey, k))
    case PutRefreshToken(x) => s.(refreshTokens := Upsert(s.refreshTokens, RefreshTokenKey, x))
    case DeleteRefreshToken(k) => s.(refreshTokens := RemoveKey(s.refreshTokens, RefreshTokenKey, k))
    case PutAuthorization(x) => s.(authorizations := Upsert(s.authorizations, AuthorizationKey, x))
    case DeleteAuthorization(k) => s.(authorizations := RemoveKey(s.authorizations, AuthorizationKey, k))
  }

  /**
   * What a write leaves behind: only its own table changes; a put's record is
   * the one its key now finds, and every other key keeps its records; after a
   * delete the key finds nothing and every other record stays.
   */
  lemma ApplyEffect(s: Snapshot, w: Write)
    ensures var r := Apply(s, w);
            && (!(w.PutCredential? || w.DeleteCredential?) ==> r.credentials == s.credentials)
            && (!(w.PutClient? || w.DeleteClient?) ==> r.clients == s.clients)
            && (!(w.PutAccessToken? || w.DeleteAccessToken?) ==> r.accessTokens == s.accessTokens)
            && (!(w.PutRefreshToken? || w.DeleteRefreshToken?) ==> r.refreshTokens == s.refreshTokens)
            && (!(w.PutAuthorization? || w.DeleteAuthorization?) ==> r.authorizations == s.authorizations)
    ensures w.PutCredential? ==>
              && Find(Apply(s, w).credentials, CredentialKey, w.credential.username) == Some(w.credential)
              && forall y :: y in s.credentials && y.username != w.credential.username ==> y in Apply(s, w).credentials
    ensures w.PutClient? ==>
              && Find(Apply(s, w).clients, ClientKey, w.client.clientId) == Some(w.client)
              && forall y :: y in s.clients && y.clientId != w.client.clientId ==> y in Apply(s, w).clients
    ensures w.PutAccessToken? ==>
              && Find(Apply(s, w).accessTokens, AccessTokenKey, w.accessToken.accessToken) == Some(w.accessToken)
              && forall y :: y in s.accessTokens && y.accessToken != w.accessToken.accessToken ==> y in Apply(s, w).accessTokens
    ensures w.PutRefreshToken? ==>
              && Find(Apply(s, w).refreshTokens, RefreshTokenKey, w.refreshToken.refreshToken) == Some(w.refreshToken)
              && forall y :: y in s.refreshTokens && y.refreshToken != w.refreshToken.refreshToken ==> y in Apply(s, w).refreshTokens
    ensures w.PutAuthorization? ==>
              && Find(Apply(s, w).authorizations, AuthorizationKey, w.authorization.code) == Some(w.authorization)
              && forall y :: y in s.authorizations && y.code != w.authorization.code ==> y in Apply(s, w).authorizations
    ensures w.DeleteCredential? ==>
              && Find(Apply(s, w).credentials, CredentialKey, w.username) == None
              && forall y :: y in s.credentials && y.username != w.username ==> y in Apply(s, w).credentials
    ensures w.DeleteClient? ==>
              && Find(Apply(s, w).clients, ClientKey, w.clientId) == None
              && forall y :: y in s.clients && y.clientId != w.clientId ==> y in Apply(s, w).clients
    ensures w.DeleteAccessToken? ==>
              && Find(Apply(s, w).accessTokens, AccessTokenKey, w.accessTokenKey) == None
              && forall y :: y in s.accessTokens && y.accessToken != w.accessTokenKey ==> y in Apply(s, w).accessTokens
    ensures w.DeleteRefreshToken? ==>
              && Find(Apply(s, w).refreshTokens, RefreshTokenKey, w.refreshTokenKey) == None
              && forall y :: y in s.refreshTokens && y.refreshToken != w.refreshTokenKey ==> y in Apply(s, w).refreshTokens
    ensures w.DeleteAuthorization? ==>
              && Find(Apply(s, w).authorizations, AuthorizationKey, w.code) == None
              && forall y :: y in s.authorizations && y.code != w.code ==> y in Apply(s, w).authorizations
  {
  }

  /** A write keeps every primary key unique. */
  lemma ApplyKeepsValid(s: Snapshot, w: Write)
    requires Valid(s)
    ensures Valid(Apply(s, w))
  {
    match w
    case PutCredential(x) => UpsertKeepsKeysUnique(s.credentials, CredentialKey, x);
    case DeleteCredential(k) => RemoveKeyKeepsKeysUnique(s.credentials, CredentialKey, k);
    case PutClient(x) => UpsertKeepsKeysUnique(s.clients, ClientKey, x);
    case DeleteClient(k) => RemoveKeyKeepsKeysUnique(s.clients, ClientKey, k);
    case PutAccessToken(x) => UpsertKeepsKeysUnique(s.accessTokens, AccessTokenKey, x);
    case DeleteAccessToken(k) => RemoveKeyKeepsKeysUnique(s.accessTokens, AccessTokenKey, k);
    case PutRefreshToken(x) => UpsertKeepsKeysUnique(s.refreshTokens, RefreshTokenKey, x);
    case DeleteRefreshToken(k) => RemoveKeyKeepsKeysUnique(s.refreshTokens, RefreshTokenKey, k);
    case PutAuthorization(x) => UpsertKeepsKeysUnique(s.authorizations, AuthorizationKey, x);
    case DeleteAuthorization(k) => RemoveKeyKeepsKeysUnique(s.authorizations, AuthorizationKey, k);
  }

  /** The writes of `ws`, in order. */
  function ApplyAll(s: Snapshot, ws: seq<Write>): Snapshot
    decreases |ws|
  {
    if ws == [] then s else Apply(ApplyAll(s, ws[..|ws| - 1]), ws[|ws| - 1])
  }

  /** Any journal of writes keeps every primary key unique. */
  lemma {:induction false} ApplyAllKeepsValid(s: Snapshot, ws: seq<Write>)
    requires Valid(s)
    ensures Valid(ApplyAll(s, ws))
    decreases |ws|
  {
    if ws != [] {
      ApplyAllKeepsValid(s, ws[..|ws| - 1]);
      ApplyKeepsValid(ApplyAll(s, ws[..|ws| - 1]), ws[|ws| - 1]);
    }
  }

  /** Replaying a journal extended by one write is replaying it and then that write. */
  lemma ApplyAllSnoc(s: Snapshot, ws: seq<Write>, w: Write)
    ensures ApplyAll(s, ws + [w]) == Apply(ApplyAll(s, ws), w)
  {
    assert (ws + [w])[..|ws|] == ws;
  }

  /** Replaying a journal of one write is that write. */
  lemma ApplyAllOne(s: Snapshot, w: Write)
    ensures ApplyAll(s, [w]) == Apply(s, w)
  {
    assert [w][..0] == [];
  }

  /** Replaying a journal of two writes is the first write, then the second. */
  lemma ApplyAllTwo(s: Snapshot, w: Write, v: Write)
    ensures ApplyAll(s, [w, v]) == Apply(Apply(s, w), v)
  {
    ApplyAllOne(s, w);
    ApplyAllSnoc(s, [w], v);
    assert [w] + [v] == [w, v];
  }

  /** Replaying two journals in a row is replaying their concatenation. */
  lemma {:induction false} ApplyAllAppend(s: Snapshot, ws: seq<Write>, vs: seq<Write>)
    ensures ApplyAll(ApplyAll(s, ws), vs) == ApplyAll(s, ws + vs)
    decreases |vs|
  {
    if vs == [] {
      assert ws + vs == ws;
    } else {
      var init, last := vs[..|vs| - 1], vs[|vs| - 1];
      assert ws + vs == (ws + init) + [last];
      calc {
        ApplyAll(ApplyAll(s, ws), vs);
        Apply(ApplyAll(ApplyAll(s, ws), init), last);
        { ApplyAllAppend(s, ws, init); }
        Apply(ApplyAll(s, ws + init), last);
        { ApplyAllSnoc(s, ws + init, last); }
        ApplyAll(s, (ws + init) + [last]);
      }
    }
  }

  /** The records of a table that satisfy a key condition, in the table's order. */
  function Query<T(!new)>(table: seq<T>, c: Criteria, attr: (T, string) -> Option<string>): (r: seq<T>)
    ensures |r| <= |table|
    ensures forall x :: x in r <==> x in table && c.Holds(attr(x, c.attribute))
  {
    Select(table, x => c.Holds(attr(x, c.attribute)))
  }

  /** The parameter object `{ field: v }`; an `undefined` value leaves the field out. */
  function Bound(field: string, v: Option<string>): (params: map<string, string>)
    ensures field in params <==> v.Some?
    ensures v.Some? ==> params[field] == v.value
  {
    if v.Some? then map[field := v.value] else map[]
  }

  /** A key condition on `field` bound to `v` selects the items whose `field` is present and equals `v`. */
  lemma QuerySelect<T(!new)>(table: seq<T>, index: Option<string>, field: string, v: Option<string>,
                              attr: (T, string) -> Option<string>, p: T -> bool)
    requires forall x :: p(x) == (v.Some? && attr(x, field) == v)
    ensures Query(table, Bind(index, field, Bound(field, v)), attr) == Select(table, p)
  {
    var c := Bind(index, field, Bound(field, v));
    SelectExt(table, x => c.Holds(attr(x, c.attribute)), p);
  }

  /** The first item of such a query is the first item of the table that meets the condition. */
  lemma QueryFirst<T(!new)>(table: seq<T>, index: Option<string>, field: string, v: Option<string>,
                             attr: (T, string) -> Option<string>, p: T -> bool)
    requires forall x :: p(x) == (v.Some? && attr(x, field) == v)
    ensures First(Query(table, Bind(index, field, Bound(field, v)), attr)) == FirstWhere(table, p)
  {
    QuerySelect(table, index, field, v, attr, p);
    FirstOfSelect(table, p);
  }

  function CredentialAttr(x: CredentialItem, name: string): Option<string> { x.Attr(name) }
  function ClientAttr(x: ClientItem, name: string): Option<string> { x.Attr(name) }
  function AccessTokenAttr(x: AccessTokenItem, name: string): Option<string> { x.Attr(name) }
  function RefreshTokenAttr(x: RefreshTokenItem, name: string): Option<string> { x.Attr(name) }
  function AuthorizationAttr(x: AuthorizationItem, name: string): Option<string> { x.Attr(name) }

  class Database {
    var credentials: seq<CredentialItem>
    var clients: seq<ClientItem>
    var accessTokens: seq<AccessTokenItem>
    var refreshTokens: seq<RefreshTokenItem>
    var authorizations: seq<AuthorizationItem>
    /** Every write received so far, oldest first. */
    var journal: seq<Write>

    function State(): Snapshot
      reads this
    {
      Snapshot(credentials, clients, accessTokens, refreshTokens, authorizations)
    }

    constructor (initial: Snapshot)
      ensures State() == initial && journal == []
    {
      credentials := initial.credentials;
      clients := initial.clients;
      accessTokens := initial.accessTokens;
      refreshTokens := initial.refreshTokens;
      authorizations := initial.authorizations;
      journal := [];
    }

    /** Sends one write to the store. */
    method Perform(w: Write)
      modifies this
      ensures State() == Apply(old(State()), w)
      ensures journal == old(journal) + [w]
    {
      var s := Apply(State(), w);
      credentials, clients, accessTokens, refreshTokens, authorizations :=
        s.credentials, s.clients, s.accessTokens, s.refreshTokens, s.authorizations;
      journal := journal + [w];
    }
  }
}
