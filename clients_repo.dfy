/**
 * The clients repository (src/lib/clients/index.js): first-match lookup by
 * `client_id`, an upsert that leaves out an empty `redirect_uris`, delete by
 * key, a full listing and the per-owner listing through `UserIdClientIdGSI`.
 */
module Clients {
  import opened Wrappers
  import opened Tables
  import opened Records
  import opened CriteriaFromParams
  import opened Store

  /** `get(client)`: the first record whose `client_id` is `client`, if any. */
  function Get(s: Snapshot, client: Option<string>): (r: Option<ClientItem>)
    ensures r == FirstWhere(s.clients, (x: ClientItem) => client == Some(x.clientId))
  {
    QueryFirst(s.clients, None, "client_id", client, ClientAttr, (x: ClientItem) => client == Some(x.clientId));
    First(Query(s.clients, Bind(None, "client_id", Bound("client_id", client)), ClientAttr))
  }

  /** The record `put` writes: `redirect_uris` is present only for a non-empty list. */
  function Record(client: string, secret: Option<string>, userId: Option<string>, description: Option<string>,
                  grants: seq<string>, redirectUris: Option<seq<string>>): (r: ClientItem)
    ensures r.redirectUris.Some? <==> redirectUris.Some? && redirectUris.value != []
    ensures r.redirectUris.Some? ==> r.redirectUris == redirectUris
    ensures r.redirectUris != Some([])
    ensures r.clientId == client && r.clientSecret == secret && r.userId == userId
    ensures r.description == description && r.grants == grants
  {
    ClientItem(client, secret, userId, description, grants,
               if redirectUris.Some? && redirectUris.value != [] then redirectUris else None)
  }

  /** `put`: builds the record, adds `redirect_uris` when non-empty, and upserts it. */
  method Put(db: Database, client: string, secret: Option<string>, userId: Option<string>,
             description: Option<string>, grants: seq<string>, redirectUris: Option<seq<string>>)
    modifies db
    ensures db.journal == old(db.journal) + [PutClient(Record(client, secret, userId, description, grants, redirectUris))]
    ensures db.State() == Apply(old(db.State()), PutClient(Record(client, secret, userId, description, grants, redirectUris)))
  {
    var item := ClientItem(client, secret, userId, description, grants, None);
    if redirectUris.Some? && redirectUris.value != [] {
      item := item.(redirectUris := redirectUris);
    }
    db.Perform(PutClient(item));
  }

  /** `delete`: removes by `{ client_id }` alone; an absent id is not an error. */
  method Delete(db: Database, client: string)
    modifies db
    ensures db.journal == old(db.journal) + [DeleteClient(client)]
    ensures db.State() == Apply(old(db.State()), DeleteClient(client))
  {
    db.Perform(DeleteClient(client));
  }

  /** `list`: every record, `[]` for an empty table. */
  function List(s: Snapshot): (r: seq<ClientItem>)
    ensures |r| == |s.clients|
    ensures forall x :: x in r <==> x in s.clients
  {
    s.clients
  }

  /** `listForUser(user_id)`: every record owned by `userId`, in table order. */
  function ListForUser(s: Snapshot, userId: Option<string>): (r: seq<ClientItem>)
    ensures r == Select(s.clients, (x: ClientItem) => userId.Some? && x.userId == userId)
    ensures forall x :: x in r <==> x in s.clients && userId.Some? && x.userId == userId
  {
    QuerySelect(s.clients, Some("UserIdClientIdGSI"), "user_id", userId, ClientAttr,
                (x: ClientItem) => userId.Some? && x.userId == userId);
    Query(s.clients, Bind(Some("UserIdClientIdGSI"), "user_id", Bound("user_id", userId)), ClientAttr)
  }

  /** With unique keys, `get` is the keyed lookup. */
  lemma GetIsFind(s: Snapshot, client: string)
    ensures Get(s, Some(client)) == Find(s.clients, ClientKey, client)
  {
    FirstWhereExt(s.clients, (x: ClientItem) => Some(client) == Some(x.clientId), (x: ClientItem) => ClientKey(x) == client);
  }

  /** A put is read back by `get`, and a second put with the same `client_id` replaces the first. */
  lemma GetAfterPut(s: Snapshot, x: ClientItem)
    ensures Get(Apply(s, PutClient(x)), Some(x.clientId)) == Some(x)
    ensures forall y :: y in Apply(s, PutClient(x)).clients && y.clientId == x.clientId ==> y == x
  {
    var k := x.clientId;
    FirstWhereAfterUpsert(s.clients, ClientKey, x, (y: ClientItem) => Some(k) == Some(y.clientId));
  }

  /** A put leaves every other client's lookup as it was. */
  lemma GetAfterPutOther(s: Snapshot, x: ClientItem, client: Option<string>)
    requires client != Some(x.clientId)
    ensures Get(Apply(s, PutClient(x)), client) == Get(s, client)
  {
    FirstWhereAfterUpsertOther(s.clients, ClientKey, x, (y: ClientItem) => client == Some(y.clientId));
  }

  /** After a delete the id is gone, and every other client's lookup is as it was. */
  lemma GetAfterDelete(s: Snapshot, client: string, other: Option<string>)
    requires other != Some(client)
    ensures Get(Apply(s, DeleteClient(client)), Some(client)) == None
    ensures Get(Apply(s, DeleteClient(client)), other) == Get(s, other)
  {
    FirstWhereAfterRemove(s.clients, ClientKey, client, (y: ClientItem) => Some(client) == Some(y.clientId));
    FirstWhereAfterRemoveOther(s.clients, ClientKey, client, (y: ClientItem) => other == Some(y.clientId));
  }

  /** A client put for an owner is listed for that owner, and only the put one for its id. */
  lemma ListForUserAfterPut(s: Snapshot, x: ClientItem)
    requires x.userId.Some?
    ensures x in ListForUser(Apply(s, PutClient(x)), x.userId)
    ensures forall y :: y in ListForUser(Apply(s, PutClient(x)), x.userId) ==>
              y == x || y in ListForUser(s, x.userId)
  {
  }
}
