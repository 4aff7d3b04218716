/**
 * The client administration commands (bin/client.js): the grant list built
 * from the command-line flags, the redirect URIs taken from
 * `--authorization-code`, and the guards of `create` and `update` before
 * their single store write. The fresh client id (`uuid()`) and generated
 * secrets are inputs; console output is left out.
 */
module ClientCli {
  import opened Wrappers
  import opened Text
  import opened Tables
  import opened Records
  import opened Store
  import Credentials
  import Clients
  import GrantModel

  /** `--authorization-code`: absent, given bare (`true`), or given a comma-separated list. */
  datatype AuthCode = NotGiven | BareFlag | Given(uris: seq<string>)

  /** The flags of `create` and `update`; `secret` is `update`'s `--secret`. */
  datatype Options = Options(
    clientCredentials: bool, refreshToken: bool, authorizationCode: AuthCode, password: bool, secret: bool)

  /** The JavaScript truth value of `options.authorizationCode`: a bare flag or any array. */
  predicate AuthCodeSet(a: AuthCode) {
    !a.NotGiven?
  }

  /** The four grants the commands can enable. */
  datatype Grant = ClientCredentials | RefreshToken | AuthorizationCode | Password {
    /** The grant's name as stored in `grants`. */
    function Name(): string {
      match this
      case ClientCredentials => "client_credentials"
      case RefreshToken => "refresh_token"
      case AuthorizationCode => "authorization_code"
      case Password => "password"
    }
  }

  /** The grant's place in the order `generateGrants` tests the flags. */
  function Rank(g: Grant): nat {
    match g
    case ClientCredentials => 0
    case RefreshToken => 1
    case AuthorizationCode => 2
    case Password => 3
  }

  /** Whether the flag for grant `g` is set. */
  predicate Enabled(o: Options, g: Grant) {
    match g
    case ClientCredentials => o.clientCredentials
    case RefreshToken => o.refreshToken
    case AuthorizationCode => AuthCodeSet(o.authorizationCode)
    case Password => o.password
  }

  /** `g` when its flag is set. */
  function Keep(o: Options, g: Grant): seq<Grant> {
    if Enabled(o, g) then [g] else []
  }

  /** The grants whose flag is set, in the fixed order. */
  function EnabledGrants(o: Options): seq<Grant> {
    Keep(o, ClientCredentials) + Keep(o, RefreshToken) + Keep(o, AuthorizationCode) + Keep(o, Password)
  }

  /** Their names, as the command stores them. */
  function GrantsFor(o: Options): (r: seq<string>)
    ensures |r| == |EnabledGrants(o)|
    ensures forall i :: 0 <= i < |r| ==> r[i] == EnabledGrants(o)[i].Name()
  {
    MapAll(EnabledGrants(o), (g: Grant) => g.Name())
  }

  /** Distinct grants have distinct names. */
  lemma NameInjective(a: Grant, b: Grant)
    ensures a.Name() == b.Name() ==> a == b
  {
    if a.Name() == b.Name() {
      assert a.Name()[0] == b.Name()[0];
    }
  }

  /** The names of the enabled grants, spelled out one grant at a time. */
  lemma GrantsForUnfolded(o: Options)
    ensures GrantsFor(o) ==
              (if o.clientCredentials then ["client_credentials"] else []) +
              (if o.refreshToken then ["refresh_token"] else []) +
              (if AuthCodeSet(o.authorizationCode) then ["authorization_code"] else []) +
              (if o.password then ["password"] else [])
  {
    var f := (g: Grant) => g.Name();
    var a, b, c, d := Keep(o, ClientCredentials), Keep(o, RefreshToken), Keep(o, AuthorizationCode), Keep(o, Password);
    MapAllAppend(a + b + c, d, f);
    MapAllAppend(a + b, c, f);
    MapAllAppend(a, b, f);
  }

  /** `generateGrants(options)`: pushes each enabled grant's name in turn. */
  method GenerateGrants(o: Options) returns (grants: seq<string>)
    ensures grants == GrantsFor(o)
  {
    grants := [];
    if o.clientCredentials {
      grants := grants + ["client_credentials"];
    }
    if o.refreshToken {
      grants := grants + ["refresh_token"];
    }
    if AuthCodeSet(o.authorizationCode) {
      grants := grants + ["authorization_code"];
    }
    if o.password {
      grants := grants + ["password"];
    }
    GrantsForUnfolded(o);
  }

  /** Grants in strictly increasing rank, hence none twice. */
  predicate Ascending(gs: seq<Grant>) {
    forall i, j :: 0 <= i < j < |gs| ==> Rank(gs[i]) < Rank(gs[j])
  }

  /** Appending the run of a grant ranked above everything so far keeps the grants ascending. */
  lemma AscendingKeep(o: Options, a: seq<Grant>, g: Grant)
    requires Ascending(a)
    requires forall x :: x in a ==> Rank(x) < Rank(g)
    ensures Ascending(a + Keep(o, g))
    ensures forall x :: x in a + Keep(o, g) ==> Rank(x) <= Rank(g)
  {
    if !Enabled(o, g) {
      assert a + Keep(o, g) == a;
    } else {
      var r := a + [g];
      assert Keep(o, g) == [g];
      forall i, j | 0 <= i < j < |r|
        ensures Rank(r[i]) < Rank(r[j])
      {
        assert r[i] == a[i];
        if j < |a| {
          assert r[j] == a[j];
        } else {
          assert a[i] in a;
        }
      }
      assert forall x :: x in r ==> x in a || x == g;
    }
  }

  /** A grant is in its own `Keep` run exactly when enabled, and in no other. */
  lemma KeepMember(o: Options, h: Grant, g: Grant)
    ensures g in Keep(o, h) <==> Enabled(o, h) && g == h
  {
  }

  /** The enabled grants are exactly those whose flag is set. */
  lemma EnabledGrantsMembers(o: Options)
    ensures forall g :: g in EnabledGrants(o) <==> Enabled(o, g)
  {
    var a, b, c, d := Keep(o, ClientCredentials), Keep(o, RefreshToken), Keep(o, AuthorizationCode), Keep(o, Password);
    forall g
      ensures g in EnabledGrants(o) <==> Enabled(o, g)
    {
      assert EnabledGrants(o) == a + b + c + d;
      assert g in a + b + c + d <==> g in a || g in b || g in c || g in d;
      KeepMember(o, ClientCredentials, g);
      KeepMember(o, RefreshToken, g);
      KeepMember(o, AuthorizationCode, g);
      KeepMember(o, Password, g);
    }
  }

  /** The enabled grants come strictly in the fixed order. */
  lemma EnabledGrantsAscending(o: Options)
    ensures Ascending(EnabledGrants(o))
  {
    var a, b, c := Keep(o, ClientCredentials), Keep(o, RefreshToken), Keep(o, AuthorizationCode);
    AscendingKeep(o, [], ClientCredentials);
    assert [] + a == a;
    AscendingKeep(o, a, RefreshToken);
    AscendingKeep(o, a + b, AuthorizationCode);
    AscendingKeep(o, a + b + c, Password);
  }

  /**
   * The enabled grants are exactly those whose flag is set, strictly in the
   * fixed order (so none twice), and there are none exactly when no flag is set.
   */
  lemma EnabledGrantsExact(o: Options)
    ensures forall g :: g in EnabledGrants(o) <==> Enabled(o, g)
    ensures Ascending(EnabledGrants(o))
    ensures EnabledGrants(o) == [] <==>
              !o.clientCredentials && !o.refreshToken && o.authorizationCode.NotGiven? && !o.password
  {
    EnabledGrantsMembers(o);
    EnabledGrantsAscending(o);
    var a, b, c, d := Keep(o, ClientCredentials), Keep(o, RefreshToken), Keep(o, AuthorizationCode), Keep(o, Password);
    assert |EnabledGrants(o)| == |a| + |b| + |c| + |d|;
  }

  /** The stored names: each appears exactly when its grant's flag is set, and none twice. */
  lemma GrantsForExact(o: Options)
    ensures forall g: Grant :: g.Name() in GrantsFor(o) <==> Enabled(o, g)
    ensures forall i, j :: 0 <= i < j < |GrantsFor(o)| ==> GrantsFor(o)[i] != GrantsFor(o)[j]
    ensures GrantsFor(o) == [] <==>
              !o.clientCredentials && !o.refreshToken && o.authorizationCode.NotGiven? && !o.password
  {
    var e := EnabledGrants(o);
    var r := GrantsFor(o);
    EnabledGrantsExact(o);
    forall g: Grant
      ensures g.Name() in r <==> Enabled(o, g)
    {
      if g.Name() in r {
        var i :| 0 <= i < |r| && r[i] == g.Name();
        NameInjective(e[i], g);
      }
      if Enabled(o, g) {
        var i :| 0 <= i < |e| && e[i] == g;
        assert r[i] == g.Name();
      }
    }
    forall i, j | 0 <= i < j < |r|
      ensures r[i] != r[j]
    {
      NameInjective(e[i], e[j]);
    }
  }

  /** `csv(val)`: the comma-separated pieces, empty ones kept. */
  function Csv(val: string): (r: seq<string>)
    ensures |r| >= 1
    ensures Join(r, ',') == val
    ensures forall i :: 0 <= i < |r| ==> ',' !in r[i]
  {
    JoinSplit(val, ',');
    Split(val, ',')
  }

  /** `extractRedirectUris(options)`: `null` for the bare flag, the list when one was given, `undefined` when absent. */
  function ExtractRedirectUris(a: AuthCode): (r: Option<seq<string>>)
    ensures r.Some? <==> a.Given?
    ensures r.Some? ==> r.value == a.uris
  {
    match a
    case Given(uris) => Some(uris)
    case _ => None
  }

  /** A list given on the command line always reaches the store, since `csv` never yields an empty list. */
  lemma GivenUrisAreStored(v: string)
    ensures var uris := ExtractRedirectUris(Given(Csv(v)));
            && uris == Some(Csv(v))
            && Clients.Record("", None, None, None, [], uris).redirectUris == Some(Csv(v))
  {
  }

  /** The writes of `create`: nothing without the owner's credential or without a grant, else one put. */
  function CreateWrites(s: Snapshot, username: string, description: Option<string>, o: Options,
                        freshClient: string, secret: string): (ws: seq<Write>)
    ensures ws == [] <==> Credentials.Get(s, Some(username)).None? || GrantsFor(o) == []
    ensures |ws| <= 1 && forall w :: w in ws ==> w.PutClient?
  {
    match Credentials.Get(s, Some(username))
    case None => []
    case Some(user) =>
      if GrantsFor(o) == [] then []
      else [PutClient(Clients.Record(freshClient, Some(secret), Some(user.id), description, GrantsFor(o),
                                     ExtractRedirectUris(o.authorizationCode)))]
  }

  /** `create <username> [description]`. */
  method Create(db: Database, username: string, description: Option<string>, o: Options,
                freshClient: string, secret: string)
    modifies db
    ensures db.journal == old(db.journal) + CreateWrites(old(db.State()), username, description, o, freshClient, secret)
    ensures db.State() == ApplyAll(old(db.State()), CreateWrites(old(db.State()), username, description, o, freshClient, secret))
  {
    ghost var s0 := db.State();
    var user := Credentials.Get(db.State(), Some(username));
    if user.None? {
      return;
    }
    var grants := GenerateGrants(o);
    var redirectUris := ExtractRedirectUris(o.authorizationCode);
    if grants == [] {
      return;
    }
    Clients.Put(db, freshClient, Some(secret), Some(user.value.id), description, grants, redirectUris);
    ApplyAllOne(s0, PutClient(Clients.Record(freshClient, Some(secret), Some(user.value.id), description, grants, redirectUris)));
  }

  /**
   * A created client is stored under the fresh id, owned by the user's id,
   * carrying the chosen grants, and authenticates with its generated secret.
   */
  lemma CreateThenGet(s: Snapshot, username: string, description: Option<string>, o: Options,
                      freshClient: string, secret: string)
    requires Credentials.Get(s, Some(username)).Some? && GrantsFor(o) != []
    ensures var user := Credentials.Get(s, Some(username)).value;
            var s' := ApplyAll(s, CreateWrites(s, username, description, o, freshClient, secret));
            && Clients.Get(s', Some(freshClient)).Some?
            && var x := Clients.Get(s', Some(freshClient)).value;
            && x.userId == Some(user.id) && x.clientSecret == Some(secret)
            && x.grants == GrantsFor(o) && x.description == description
            && x.redirectUris == (if o.authorizationCode.Given? && o.authorizationCode.uris != [] then Some(o.authorizationCode.uris) else None)
            && x in Clients.ListForUser(s', Some(user.id))
            && GrantModel.GetClient(s', Some(freshClient), Some(secret)).Some?
  {
    var user := Credentials.Get(s, Some(username)).value;
    var x := Clients.Record(freshClient, Some(secret), Some(user.id), description, GrantsFor(o),
                            ExtractRedirectUris(o.authorizationCode));
    ApplyAllOne(s, PutClient(x));
    Clients.GetAfterPut(s, x);
    GrantModel.GetClientAfterPut(s, x, Some(secret));
  }

  const ClientNotFound := "Client not found"

  /** How `update` ends: its writes, or the error it throws. */
  datatype Run = Done(writes: seq<Write>) | Failed(message: string)

  function RunWrites(r: Run): seq<Write> {
    if r.Done? then r.writes else []
  }

  /**
   * The writes of `update`, with the kept secret read from the stored
   * record's attribute `secretField`: nothing without the owner's credential,
   * an error for an unknown client, nothing without a grant, else one put.
   */
  function UpdateRun(s: Snapshot, client: string, username: string, description: Option<string>, o: Options,
                     newSecret: string, secretField: string): (r: Run)
    ensures Credentials.Get(s, Some(username)).None? ==> r == Done([])
    ensures Credentials.Get(s, Some(username)).Some? && Clients.Get(s, Some(client)).None? ==> r == Failed(ClientNotFound)
    ensures r.Done? ==> |r.writes| <= 1 && forall w :: w in r.writes ==> w.PutClient? && w.client.clientId == client
    ensures r.Done? && r.writes == [] <==>
              Credentials.Get(s, Some(username)).None? || (Clients.Get(s, Some(client)).Some? && GrantsFor(o) == [])
  {
    match Credentials.Get(s, Some(username))
    case None => Done([])
    case Some(user) =>
      match Clients.Get(s, Some(client))
      case None => Failed(ClientNotFound)
      case Some(item) =>
        var secret := if o.secret then Some(newSecret) else item.Attr(secretField);
        if GrantsFor(o) == [] then Done([])
        else Done([PutClient(Clients.Record(client, secret, Some(user.id), description, GrantsFor(o),
                                           ExtractRedirectUris(o.authorizationCode)))])
  }

  /** `update` as written: without `--secret` it keeps `item.secret`, an attribute no client record has. */
  function UpdateRunAsWritten(s: Snapshot, client: string, username: string, description: Option<string>, o: Options,
                              newSecret: string): (r: Run)
    ensures r.Done? && r.writes != [] ==>
              r.writes[0].PutClient? && r.writes[0].client.clientSecret == (if o.secret then Some(newSecret) else None)
  {
    var item := Clients.Get(s, Some(client));
    if item.Some? then NoSecretAttribute(item.value); UpdateRun(s, client, username, description, o, newSecret, "secret")
    else UpdateRun(s, client, username, description, o, newSecret, "secret")
  }

  /** `update` as intended: without `--secret` it keeps the stored `client_secret`. */
  function UpdateRunFixed(s: Snapshot, client: string, username: string, description: Option<string>, o: Options,
                          newSecret: string): (r: Run)
    ensures r.Done? && r.writes != [] ==>
              && Clients.Get(s, Some(client)).Some? && r.writes[0].PutClient?
              && r.writes[0].client.clientSecret ==
                   (if o.secret then Some(newSecret) else Clients.Get(s, Some(client)).value.clientSecret)
  {
    var item := Clients.Get(s, Some(client));
    if item.Some? then NoSecretAttribute(item.value); UpdateRun(s, client, username, description, o, newSecret, "client_secret")
    else UpdateRun(s, client, username, description, o, newSecret, "client_secret")
  }

  /**
   * `update <client> <username> [description]` as written: without `--secret`
   * the secret is read from `item.secret`, so the stored record loses its secret.
   */
  method Update(db: Database, client: string, username: string, description: Option<string>, o: Options,
                newSecret: string) returns (error: Option<string>)
    modifies db
    ensures var r := UpdateRunAsWritten(old(db.State()), client, username, description, o, newSecret);
            && error == (if r.Failed? then Some(r.message) else None)
            && db.journal == old(db.journal) + RunWrites(r)
            && db.State() == ApplyAll(old(db.State()), RunWrites(r))
  {
    ghost var s0 := db.State();
    error := None;
    var user := Credentials.Get(db.State(), Some(username));
    if user.None? {
      return;
    }
    var item := Clients.Get(db.State(), Some(client));
    if item.None? {
      error := Some(ClientNotFound);
      return;
    }
    var secret := if o.secret then Some(newSecret) else item.value.Attr("secret");
    var grants := GenerateGrants(o);
    var redirectUris := ExtractRedirectUris(o.authorizationCode);
    if grants == [] {
      return;
    }
    Clients.Put(db, client, secret, Some(user.value.id), description, grants, redirectUris);
    ApplyAllOne(s0, PutClient(Clients.Record(client, secret, Some(user.value.id), description, grants, redirectUris)));
  }

  /** No client record has an attribute named `secret`. */
  lemma NoSecretAttribute(x: ClientItem)
    ensures x.Attr("secret") == None && x.Attr("client_secret") == x.clientSecret
  {
    assert "secret"[0] == 's' && "client_id"[0] == 'c' && "description"[0] == 'd';
    assert "client_secret"[..7] == "client_" && "user_id"[0] == 'u';
  }

  /** When every guard passes, `update` writes one record holding the secret read from `secretField`. */
  lemma UpdateRunPuts(s: Snapshot, client: string, username: string, description: Option<string>, o: Options,
                      newSecret: string, secretField: string)
    requires Credentials.Get(s, Some(username)).Some? && Clients.Get(s, Some(client)).Some?
    requires GrantsFor(o) != []
    ensures RunWrites(UpdateRun(s, client, username, description, o, newSecret, secretField)) ==
              [PutClient(Clients.Record(client,
                                        if o.secret then Some(newSecret) else Clients.Get(s, Some(client)).value.Attr(secretField),
                                        Some(Credentials.Get(s, Some(username)).value.id), description, GrantsFor(o),
                                        ExtractRedirectUris(o.authorizationCode)))]
  {
  }

  /**
   * As written, an `update` without `--secret` stores the client with no
   * secret at all, so the client can no longer authenticate with any secret.
   */
  lemma UpdateAsWrittenDropsSecret(s: Snapshot, client: string, username: string, description: Option<string>,
                                   o: Options, newSecret: string, oldSecret: string)
    requires Credentials.Get(s, Some(username)).Some? && Clients.Get(s, Some(client)).Some?
    requires !o.secret && GrantsFor(o) != []
    ensures var s' := ApplyAll(s, RunWrites(UpdateRunAsWritten(s, client, username, description, o, newSecret)));
            && Clients.Get(s', Some(client)).Some?
            && Clients.Get(s', Some(client)).value.clientSecret == None
            && GrantModel.GetClient(s', Some(client), Some(oldSecret)) == None
  {
    var user := Credentials.Get(s, Some(username)).value;
    NoSecretAttribute(Clients.Get(s, Some(client)).value);
    UpdateRunPuts(s, client, username, description, o, newSecret, "secret");
    var x := Clients.Record(client, None, Some(user.id), description, GrantsFor(o), ExtractRedirectUris(o.authorizationCode));
    ApplyAllOne(s, PutClient(x));
    Clients.GetAfterPut(s, x);
    GrantModel.GetClientAfterPut(s, x, Some(oldSecret));
  }

  /**
   * Corrected, an `update` without `--secret` keeps the stored secret, so a
   * client that authenticated with it before still does; with `--secret` the
   * new secret replaces it.
   */
  lemma UpdateKeepsSecret(s: Snapshot, client: string, username: string, description: Option<string>,
                          o: Options, newSecret: string)
    requires Credentials.Get(s, Some(username)).Some? && Clients.Get(s, Some(client)).Some?
    requires GrantsFor(o) != []
    ensures var before := Clients.Get(s, Some(client)).value;
            var s' := ApplyAll(s, RunWrites(UpdateRunFixed(s, client, username, description, o, newSecret)));
            var kept := if o.secret then Some(newSecret) else before.clientSecret;
            && Clients.Get(s', Some(client)).Some?
            && Clients.Get(s', Some(client)).value.clientSecret == kept
            && Clients.Get(s', Some(client)).value.userId == Some(Credentials.Get(s, Some(username)).value.id)
            && (kept.Some? ==> GrantModel.GetClient(s', Some(client), kept).Some?)
  {
    var user := Credentials.Get(s, Some(username)).value;
    var before := Clients.Get(s, Some(client)).value;
    var kept := if o.secret then Some(newSecret) else before.clientSecret;
    NoSecretAttribute(before);
    UpdateRunPuts(s, client, username, description, o, newSecret, "client_secret");
    var x := Clients.Record(client, kept, Some(user.id), description, GrantsFor(o), ExtractRedirectUris(o.authorizationCode));
    ApplyAllOne(s, PutClient(x));
    Clients.GetAfterPut(s, x);
    GrantModel.GetClientAfterPut(s, x, kept);
  }
}
