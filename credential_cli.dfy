/**
 * The credential administration commands (bin/credential.js) as store
 * operations: `create`, `update` and `destroy`. The prompted password, the
 * fresh id (`uuid()`) and the hasher are inputs; console output is left out.
 * Each command is a method whose journal is the writes a pure function of the
 * store's contents names.
 */
module CredentialCli {
  import opened Wrappers
  import opened Tables
  import opened Records
  import opened Store
  import opened Hashing
  import opened Text
  import opened Domain
  import Credentials
  import Clients
  import GrantModel

  /** The writes of `create`: nothing when the username is taken, else one put of a fresh id and the hashed password. */
  function CreateWrites(s: Snapshot, h: Hasher, username: string, password: string, freshId: string): (ws: seq<Write>)
    ensures ws == [] <==> Credentials.Get(s, Some(username)).Some?
    ensures |ws| <= 1 && forall w :: w in ws ==> w.PutCredential?
  {
    if Credentials.Get(s, Some(username)).Some? then []
    else [PutCredential(CredentialItem(freshId, username, HashPassword(h, Some(password))))]
  }

  /** `create <username>`. */
  method Create(db: Database, h: Hasher, username: string, password: string, freshId: string)
    modifies db
    ensures db.journal == old(db.journal) + CreateWrites(old(db.State()), h, username, password, freshId)
    ensures db.State() == ApplyAll(old(db.State()), CreateWrites(old(db.State()), h, username, password, freshId))
  {
    ghost var s0 := db.State();
    var item := Credentials.Get(db.State(), Some(username));
    if item.Some? {
      return;
    }
    var hashed := HashPassword(h, Some(password));
    Credentials.Put(db, freshId, username, hashed);
    ApplyAllOne(s0, PutCredential(CredentialItem(freshId, username, hashed)));
  }

  /**
   * A created user can sign in with the chosen password at once: `getUser`
   * finds it under the fresh id, and, with an injective digest, no password
   * with a different text does.
   */
  lemma CreateThenSignIn(s: Snapshot, h: Hasher, username: string, password: string, freshId: string, other: Option<string>)
    requires Credentials.Get(s, Some(username)).None?
    ensures var s' := ApplyAll(s, CreateWrites(s, h, username, password, freshId));
            && GrantModel.GetUser(s', h, Some(username), Some(password)) == Some(User(freshId, username))
            && (Injective(h) && JsText(other) != password ==> GrantModel.GetUser(s', h, Some(username), other) == None)
  {
    ApplyAllOne(s, PutCredential(CredentialItem(freshId, username, HashPassword(h, Some(password)))));
    GrantModel.GetUserAfterPut(s, h, freshId, username, Some(password));
    if Injective(h) && JsText(other) != password {
      GrantModel.GetUserWrongPassword(s, h, freshId, username, Some(password), other);
    }
  }

  /** `create` on a taken username changes nothing. */
  lemma CreateExistingKeepsStore(s: Snapshot, h: Hasher, username: string, password: string, freshId: string)
    requires Credentials.Get(s, Some(username)).Some?
    ensures ApplyAll(s, CreateWrites(s, h, username, password, freshId)) == s
  {
  }

  /** The writes of `update`: nothing for an unknown username, else one put that keeps the stored id. */
  function UpdateWrites(s: Snapshot, h: Hasher, username: string, password: string): (ws: seq<Write>)
    ensures ws == [] <==> Credentials.Get(s, Some(username)).None?
    ensures |ws| <= 1 && forall w :: w in ws ==> w.PutCredential? && w.credential.username == username
  {
    match Credentials.Get(s, Some(username))
    case None => []
    case Some(item) => [PutCredential(CredentialItem(item.id, username, HashPassword(h, Some(password))))]
  }

  /** `update <username>`. */
  method Update(db: Database, h: Hasher, username: string, password: string)
    modifies db
    ensures db.journal == old(db.journal) + UpdateWrites(old(db.State()), h, username, password)
    ensures db.State() == ApplyAll(old(db.State()), UpdateWrites(old(db.State()), h, username, password))
  {
    ghost var s0 := db.State();
    var item := Credentials.Get(db.State(), Some(username));
    if item.None? {
      return;
    }
    var hashed := HashPassword(h, Some(password));
    Credentials.Put(db, item.value.id, username, hashed);
    ApplyAllOne(s0, PutCredential(CredentialItem(item.value.id, username, hashed)));
  }

  /**
   * `update` keeps the user's id and replaces only the password hash: the new
   * password signs in as the same user, and every other username reads as before.
   */
  lemma UpdateKeepsId(s: Snapshot, h: Hasher, username: string, password: string, other: Option<string>)
    requires Credentials.Get(s, Some(username)).Some?
    requires other != Some(username)
    ensures var before := Credentials.Get(s, Some(username)).value;
            var s' := ApplyAll(s, UpdateWrites(s, h, username, password));
            && Credentials.Get(s', Some(username)) == Some(before.(password := HashPassword(h, Some(password))))
            && GrantModel.GetUser(s', h, Some(username), Some(password)) == Some(User(before.id, username))
            && Credentials.Get(s', other) == Credentials.Get(s, other)
  {
    var before := Credentials.Get(s, Some(username)).value;
    var x := CredentialItem(before.id, username, HashPassword(h, Some(password)));
    ApplyAllOne(s, PutCredential(x));
    assert before.username == username;
    Credentials.GetAfterPut(s, before.id, username, x.password);
    GrantModel.GetUserAfterPut(s, h, before.id, username, Some(password));
    Credentials.GetAfterPutOther(s, x, other);
  }

  /** `update` of an unknown username changes nothing. */
  lemma UpdateMissingKeepsStore(s: Snapshot, h: Hasher, username: string, password: string)
    requires Credentials.Get(s, Some(username)).None?
    ensures ApplyAll(s, UpdateWrites(s, h, username, password)) == s
  {
  }

  /** One `deleteItem` per client, by its `client_id`, in list order. */
  function ClientDeletes(cs: seq<ClientItem>): (ws: seq<Write>)
    ensures |ws| == |cs|
    decreases |cs|
  {
    if cs == [] then [] else ClientDeletes(cs[..|cs| - 1]) + [DeleteClient(cs[|cs| - 1].clientId)]
  }

  /** The `i`-th write deletes the `i`-th client. */
  lemma {:induction false} ClientDeletesAt(cs: seq<ClientItem>)
    ensures forall i :: 0 <= i < |cs| ==> ClientDeletes(cs)[i] == DeleteClient(cs[i].clientId)
    decreases |cs|
  {
    if cs != [] {
      ClientDeletesAt(cs[..|cs| - 1]);
    }
  }

  /** Deleting one more client appends its delete. */
  lemma ClientDeletesSnoc(cs: seq<ClientItem>, c: ClientItem)
    ensures ClientDeletes(cs + [c]) == ClientDeletes(cs) + [DeleteClient(c.clientId)]
  {
    assert (cs + [c])[..|cs|] == cs;
  }

  /** `x` shares its `client_id` with none of `cs`. */
  predicate Spared(x: ClientItem, cs: seq<ClientItem>) {
    forall c :: c in cs ==> x.clientId != c.clientId
  }

  /** Deleting one more client: its delete is appended and applied last. */
  lemma ClientDeletesStep(s: Snapshot, cs: seq<ClientItem>, i: nat)
    requires i < |cs|
    ensures ClientDeletes(cs[..i + 1]) == ClientDeletes(cs[..i]) + [DeleteClient(cs[i].clientId)]
    ensures ApplyAll(s, ClientDeletes(cs[..i + 1])) == Apply(ApplyAll(s, ClientDeletes(cs[..i])), DeleteClient(cs[i].clientId))
  {
    assert cs[..i + 1] == cs[..i] + [cs[i]];
    ClientDeletesSnoc(cs[..i], cs[i]);
    ApplyAllSnoc(s, ClientDeletes(cs[..i]), DeleteClient(cs[i].clientId));
  }

  /** The writes of `destroy`: nothing for an unknown username; else each listed client, then the credential. */
  function DestroyWrites(s: Snapshot, username: string): (ws: seq<Write>)
    ensures Credentials.Get(s, Some(username)).None? ==> ws == []
    ensures Credentials.Get(s, Some(username)).Some? ==>
              |ws| == |Clients.ListForUser(s, Some(Credentials.Get(s, Some(username)).value.id))| + 1 &&
              ws[|ws| - 1] == DeleteCredential(username) &&
              forall w :: w in ws[..|ws| - 1] ==> w.DeleteClient?
  {
    match Credentials.Get(s, Some(username))
    case None => []
    case Some(user) =>
      ClientDeletesAt(Clients.ListForUser(s, Some(user.id)));
      ClientDeletes(Clients.ListForUser(s, Some(user.id))) + [DeleteCredential(username)]
  }

  /** The credential's delete comes last in `destroy`. */
  lemma DestroyLast(s: Snapshot, username: string, user: CredentialItem)
    requires Credentials.Get(s, Some(username)) == Some(user)
    ensures var cs := Clients.ListForUser(s, Some(user.id));
            && DestroyWrites(s, username) == ClientDeletes(cs) + [DeleteCredential(username)]
            && ApplyAll(s, DestroyWrites(s, username)) == Apply(ApplyAll(s, ClientDeletes(cs)), DeleteCredential(username))
  {
    ApplyAllSnoc(s, ClientDeletes(Clients.ListForUser(s, Some(user.id))), DeleteCredential(username));
  }

  /** The `Promise.each` loop of `destroy`: deletes the given clients by id, one at a time, in order. */
  method DeleteClients(db: Database, cs: seq<ClientItem>)
    modifies db
    ensures db.journal == old(db.journal) + ClientDeletes(cs)
    ensures db.State() == ApplyAll(old(db.State()), ClientDeletes(cs))
  {
    ghost var s0 := db.State();
    ghost var j0 := db.journal;
    var i := 0;
    while i < |cs|
      invariant 0 <= i <= |cs|
      invariant db.journal == j0 + ClientDeletes(cs[..i])
      invariant db.State() == ApplyAll(s0, ClientDeletes(cs[..i]))
    {
      ClientDeletesStep(s0, cs, i);
      Clients.Delete(db, cs[i].clientId);
      i := i + 1;
    }
    assert cs[..i] == cs;
  }

  /** `destroy <username>`: deletes the user's clients one by one, and only then the credential. */
  method Destroy(db: Database, username: string)
    modifies db
    ensures db.journal == old(db.journal) + DestroyWrites(old(db.State()), username)
    ensures db.State() == ApplyAll(old(db.State()), DestroyWrites(old(db.State()), username))
  {
    ghost var s0 := db.State();
    var user := Credentials.Get(db.State(), Some(username));
    if user.None? {
      return;
    }
    var existing := Clients.ListForUser(db.State(), Some(user.value.id));
    DeleteClients(db, existing);
    DestroyLast(s0, username, user.value);
    Credentials.Delete(db, username);
  }

  /** Being spared by one more client means not sharing its id either. */
  lemma SparedSnoc(x: ClientItem, cs: seq<ClientItem>, c: ClientItem)
    ensures Spared(x, cs + [c]) <==> Spared(x, cs) && x.clientId != c.clientId
  {
    assert c in cs + [c];
    assert forall d :: d in cs ==> d in cs + [c];
  }

  /** The last client's delete removes its id from the clients table and nothing else. */
  lemma ClientDeletesLast(s: Snapshot, cs: seq<ClientItem>)
    requires cs != []
    ensures var mid := ApplyAll(s, ClientDeletes(cs[..|cs| - 1]));
            ApplyAll(s, ClientDeletes(cs)) == mid.(clients := RemoveKey(mid.clients, ClientKey, cs[|cs| - 1].clientId))
  {
    var n := |cs| - 1;
    ClientDeletesStep(s, cs, n);
    assert cs[..n + 1] == cs;
  }

  /** Deleting a list of clients by id removes exactly the records sharing an id with one of them, and touches no other table. */
  lemma {:induction false} ClientDeletesEffect(s: Snapshot, cs: seq<ClientItem>)
    ensures ApplyAll(s, ClientDeletes(cs)) == s.(clients := ApplyAll(s, ClientDeletes(cs)).clients)
    ensures forall x :: x in ApplyAll(s, ClientDeletes(cs)).clients <==> x in s.clients && Spared(x, cs)
    decreases |cs|
  {
    if cs != [] {
      var init, last := cs[..|cs| - 1], cs[|cs| - 1];
      ClientDeletesEffect(s, init);
      ClientDeletesLast(s, cs);
      assert cs == init + [last];
      forall x
        ensures x in ApplyAll(s, ClientDeletes(cs)).clients <==> x in s.clients && Spared(x, cs)
      {
        SparedSnoc(x, init, last);
      }
    }
  }

  /**
   * After `destroy` the credential is gone and, since the owner index lists
   * every client of the user, no client with that `user_id` remains; nothing
   * that was not stored before appears.
   */
  lemma DestroyRemovesUser(s: Snapshot, username: string)
    requires Credentials.Get(s, Some(username)).Some?
    ensures var id := Credentials.Get(s, Some(username)).value.id;
            var s' := ApplyAll(s, DestroyWrites(s, username));
            && Credentials.Get(s', Some(username)) == None
            && (forall x :: x in s'.clients ==> x in s.clients && x.userId != Some(id))
            && s'.accessTokens == s.accessTokens && s'.refreshTokens == s.refreshTokens
            && s'.authorizations == s.authorizations
  {
    var id := Credentials.Get(s, Some(username)).value.id;
    var cs := Clients.ListForUser(s, Some(id));
    var mid := ApplyAll(s, ClientDeletes(cs));
    ClientDeletesEffect(s, cs);
    ApplyAllSnoc(s, ClientDeletes(cs), DeleteCredential(username));
    Credentials.GetAfterDelete(mid, username, None);
  }

  /** With unique keys, `destroy` keeps every client of other users and every other credential. */
  lemma DestroyKeepsOthers(s: Snapshot, username: string, other: Option<string>)
    requires Valid(s)
    requires Credentials.Get(s, Some(username)).Some?
    requires other != Some(username)
    ensures var id := Credentials.Get(s, Some(username)).value.id;
            var s' := ApplyAll(s, DestroyWrites(s, username));
            && (forall x :: x in s.clients && x.userId != Some(id) ==> x in s'.clients)
            && Credentials.Get(s', other) == Credentials.Get(s, other)
  {
    var id := Credentials.Get(s, Some(username)).value.id;
    var cs := Clients.ListForUser(s, Some(id));
    var mid := ApplyAll(s, ClientDeletes(cs));
    ClientDeletesEffect(s, cs);
    ApplyAllSnoc(s, ClientDeletes(cs), DeleteCredential(username));
    Credentials.GetAfterDelete(mid, username, other);
    forall x | x in s.clients && x.userId != Some(id)
      ensures x in mid.clients
    {
      forall c | c in cs
        ensures x.clientId != c.clientId
      {
        if x.clientId == c.clientId {
          KeyIdentifies(s.clients, ClientKey, x, c);
        }
      }
    }
  }

  /** `destroy` of an unknown username changes nothing. */
  lemma DestroyMissingKeepsStore(s: Snapshot, username: string)
    requires Credentials.Get(s, Some(username)).None?
    ensures ApplyAll(s, DestroyWrites(s, username)) == s
  {
  }
}
