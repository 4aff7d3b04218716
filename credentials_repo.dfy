/**
 * The credentials repository (src/lib/credentials/index.js): lookup by
 * `username` (the primary key) and by `id` through `IdUsernameGSI`, an upsert
 * that stores the password field exactly as given, delete by key, and a full
 * listing.
 */
module Credentials {
  import opened Wrappers
  import opened Tables
  import opened Records
  import opened CriteriaFromParams
  import opened Store

  /** `get(username)`: the first credential with that username, if any. */
  function Get(s: Snapshot, username: Option<string>): (r: Option<CredentialItem>)
    ensures r == FirstWhere(s.credentials, (x: CredentialItem) => username == Some(x.username))
  {
    QueryFirst(s.credentials, None, "username", username, CredentialAttr,
               (x: CredentialItem) => username == Some(x.username));
    First(Query(s.credentials, Bind(None, "username", Bound("username", username)), CredentialAttr))
  }

  /** `getById(id)`: the first credential with that id, through the `IdUsernameGSI` index. */
  function GetById(s: Snapshot, id: Option<string>): (r: Option<CredentialItem>)
    ensures r == FirstWhere(s.credentials, (x: CredentialItem) => id == Some(x.id))
  {
    QueryFirst(s.credentials, Some("IdUsernameGSI"), "id", id, CredentialAttr,
               (x: CredentialItem) => id == Some(x.id));
    First(Query(s.credentials, Bind(Some("IdUsernameGSI"), "id", Bound("id", id)), CredentialAttr))
  }

  /** `put(id, username, password)`: upserts `{ id, username, password }`; no hashing happens here. */
  method Put(db: Database, id: string, username: string, password: string)
    modifies db
    ensures db.journal == old(db.journal) + [PutCredential(CredentialItem(id, username, password))]
    ensures db.State() == Apply(old(db.State()), PutCredential(CredentialItem(id, username, password)))
  {
    db.Perform(PutCredential(CredentialItem(id, username, password)));
  }

  /** `delete(username)`: removes by `{ username }` alone. */
  method Delete(db: Database, username: string)
    modifies db
    ensures db.journal == old(db.journal) + [DeleteCredential(username)]
    ensures db.State() == Apply(old(db.State()), DeleteCredential(username))
  {
    db.Perform(DeleteCredential(username));
  }

  /** `list`: every stored credential, `[]` for an empty table. */
  function List(s: Snapshot): (r: seq<CredentialItem>)
    ensures |r| == |s.credentials|
    ensures forall x :: x in r <==> x in s.credentials
  {
    s.credentials
  }

  /** With unique keys, `get` is the keyed lookup. */
  lemma GetIsFind(s: Snapshot, username: string)
    ensures Get(s, Some(username)) == Find(s.credentials, CredentialKey, username)
  {
    FirstWhereExt(s.credentials, (x: CredentialItem) => Some(username) == Some(x.username),
                  (x: CredentialItem) => CredentialKey(x) == username);
  }

  /** What `put` stored is what `get` returns, password field included, unchanged. */
  lemma GetAfterPut(s: Snapshot, id: string, username: string, password: string)
    ensures Get(Apply(s, PutCredential(CredentialItem(id, username, password))), Some(username)) ==
            Some(CredentialItem(id, username, password))
  {
    var x := CredentialItem(id, username, password);
    FirstWhereAfterUpsert(s.credentials, CredentialKey, x, (y: CredentialItem) => Some(username) == Some(y.username));
  }

  /** A put leaves every other username's lookup as it was. */
  lemma GetAfterPutOther(s: Snapshot, x: CredentialItem, username: Option<string>)
    requires username != Some(x.username)
    ensures Get(Apply(s, PutCredential(x)), username) == Get(s, username)
  {
    FirstWhereAfterUpsertOther(s.credentials, CredentialKey, x, (y: CredentialItem) => username == Some(y.username));
  }

  /** A put is found by its id when no other user holds that id. */
  lemma GetByIdAfterPut(s: Snapshot, x: CredentialItem)
    requires forall y :: y in s.credentials && y.id == x.id ==> y.username == x.username
    ensures GetById(Apply(s, PutCredential(x)), Some(x.id)) == Some(x)
  {
    var id := x.id;
    FirstWhereAfterUpsert(s.credentials, CredentialKey, x, (y: CredentialItem) => Some(id) == Some(y.id));
  }

  /** After a delete the username is gone, and every other username's lookup is as it was. */
  lemma GetAfterDelete(s: Snapshot, username: string, other: Option<string>)
    requires other != Some(username)
    ensures Get(Apply(s, DeleteCredential(username)), Some(username)) == None
    ensures Get(Apply(s, DeleteCredential(username)), other) == Get(s, other)
  {
    FirstWhereAfterRemove(s.credentials, CredentialKey, username, (y: CredentialItem) => Some(username) == Some(y.username));
    FirstWhereAfterRemoveOther(s.credentials, CredentialKey, username, (y: CredentialItem) => other == Some(y.username));
  }
}
