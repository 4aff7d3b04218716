/**
 * The credentials admin Lambda (src/lambda/credentials.js): `doCall`
 * validates and dispatches to the credentials repository, and every record it
 * hands back has its `password` removed; `handler` wraps the outcome in the
 * ok/error envelope. The fresh id (`uuid()`) is an input.
 */
module CredentialsLambda {
  import opened Wrappers
  import opened Text
  import opened Tables
  import opened Records
  import opened Store
  import opened LambdaCommon
  import Credentials

  const RequiredUsername := "Required param \"username\""
  const RequiredPassword := "Required param \"password\""
  const InvalidUsername := "Invalid param \"username\""

  /** `_.omit(item, ['password'])`; `_.omit(undefined)` is `{}`, both fields absent. */
  datatype PublicCredential = PublicCredential(id: Option<string>, username: Option<string>)

  /** What a resolved call hands back. */
  datatype Response =
    | Found(credential: PublicCredential)     // `get`, `getById`
    | Listed(credentials: seq<PublicCredential>) // `list`
    | Acknowledged                            // `put`, `delete`: the store's response

  /** Drops the password from a record, or gives `{}` for none. */
  function Omit(item: Option<CredentialItem>): (r: PublicCredential)
    ensures item.None? ==> r == PublicCredential(None, None)
    ensures item.Some? ==> r == PublicCredential(Some(item.value.id), Some(item.value.username))
  {
    match item
    case None => PublicCredential(None, None)
    case Some(x) => PublicCredential(Some(x.id), Some(x.username))
  }

  /** The id `put` stores: the parameter's text, or the fresh id when it is `undefined`. */
  function PutId(e: Event, freshId: string): (r: string)
    ensures "id" !in e.params ==> r == freshId
    ensures Param(e, "id") == Some(Null) ==> r == "null"
    ensures "id" in e.params && e.params["id"].Str? ==> r == e.params["id"].s
  {
    TemplateText(Some(ParamOr(e, "id", Str(freshId))))
  }

  /** The record an accepted `put` stores: username checked before password, both stored untrimmed, the password unhashed. */
  function ValidatePut(e: Event, freshId: string): (r: Outcome<CredentialItem>)
    ensures Require(Param(e, "username")).Missing? ==> r == Rejected(RequiredUsername)
    ensures Require(Param(e, "username")).Present? && Require(Param(e, "password")).Missing? ==> r == Rejected(RequiredPassword)
    ensures r.Threw? <==> Require(Param(e, "username")).NotText? ||
                          (Require(Param(e, "username")).Present? && Require(Param(e, "password")).NotText?)
    ensures r.Resolved? <==> Require(Param(e, "username")).Present? && Require(Param(e, "password")).Present?
    ensures r.Resolved? ==> Param(e, "username") == Some(Str(r.value.username)) &&
                            Param(e, "password") == Some(Str(r.value.password)) &&
                            r.value.id == PutId(e, freshId)
  {
    match Require(Param(e, "username"))
    case Missing => Rejected(RequiredUsername)
    case NotText => Threw
    case Present(username) =>
      match Require(Param(e, "password"))
      case Missing => Rejected(RequiredPassword)
      case NotText => Threw
      case Present(password) => Resolved(CredentialItem(PutId(e, freshId), username, password))
  }

  /** What a call does: its outcome and the writes it sends to the store. */
  datatype Call = Call(outcome: Outcome<Response>, writes: seq<Write>)

  /** `doCall(operation, event)` as a function of the store's contents before the call. */
  function Dispatch(s: Snapshot, operation: Option<Value>, e: Event, freshId: string): (c: Call)
    ensures !c.outcome.Resolved? ==> c.writes == []
    ensures operation !in {Some(Str("put")), Some(Str("delete"))} ==> c.writes == []
    ensures operation !in {Some(Str("get")), Some(Str("getById")), Some(Str("put")), Some(Str("delete")), Some(Str("list"))} ==>
              c.outcome == Rejected(NotSupported(operation))
    // `get` and `getById` look the record up and hand it back without its password
    ensures operation == Some(Str("get")) ==> c.outcome == Resolved(Found(Omit(Credentials.Get(s, KeyText(Param(e, "username"))))))
    ensures operation == Some(Str("getById")) ==> c.outcome == Resolved(Found(Omit(Credentials.GetById(s, KeyText(Param(e, "id"))))))
    // `put` fails exactly as its validation does, and otherwise writes the validated record once
    ensures operation == Some(Str("put")) ==>
              var v := ValidatePut(e, freshId);
              && (v.Rejected? ==> c.outcome == Rejected(v.message))
              && (v.Threw? ==> c.outcome.Threw?)
              && (v.Resolved? ==> c.outcome == Resolved(Acknowledged) && c.writes == [PutCredential(v.value)])
    // `delete` needs a `username`, and removes exactly that record
    ensures operation == Some(Str("delete")) ==>
              match Require(Param(e, "username"))
              case Missing => c.outcome == Rejected(InvalidUsername)
              case NotText => c.outcome.Threw?
              case Present(u) => c.outcome == Resolved(Acknowledged) && c.writes == [DeleteCredential(u)]
    // `list` hands back every stored record, in order, without passwords
    ensures operation == Some(Str("list")) ==>
              && c.outcome.Resolved? && c.outcome.value.Listed?
              && |c.outcome.value.credentials| == |Credentials.List(s)|
              && forall i :: 0 <= i < |Credentials.List(s)| ==> c.outcome.value.credentials[i] == Omit(Some(Credentials.List(s)[i]))
  {
    if operation == Some(Str("get")) then
      Call(Resolved(Found(Omit(Credentials.Get(s, KeyText(Param(e, "username")))))), [])
    else if operation == Some(Str("getById")) then
      Call(Resolved(Found(Omit(Credentials.GetById(s, KeyText(Param(e, "id")))))), [])
    else if operation == Some(Str("put")) then
      match ValidatePut(e, freshId)
      case Resolved(x) => Call(Resolved(Acknowledged), [PutCredential(x)])
      case Rejected(m) => Call(Rejected(m), [])
      case Threw => Call(Threw, [])
    else if operation == Some(Str("delete")) then
      match Require(Param(e, "username"))
      case Missing => Call(Rejected(InvalidUsername), [])
      case NotText => Call(Threw, [])
      case Present(username) => Call(Resolved(Acknowledged), [DeleteCredential(username)])
    else if operation == Some(Str("list")) then
      Call(Resolved(Listed(MapAll(Credentials.List(s), (x: CredentialItem) => Omit(Some(x))))), [])
    else
      Call(Rejected(NotSupported(operation)), [])
  }

  /** `doCall`: validates, then performs at most one write through the repository. */
  method DoCall(db: Database, operation: Option<Value>, e: Event, freshId: string) returns (r: Outcome<Response>)
    modifies db
    ensures r == Dispatch(old(db.State()), operation, e, freshId).outcome
    ensures db.journal == old(db.journal) + Dispatch(old(db.State()), operation, e, freshId).writes
    ensures db.State() == ApplyAll(old(db.State()), Dispatch(old(db.State()), operation, e, freshId).writes)
  {
    ghost var s0 := db.State();
    if operation == Some(Str("get")) {
      r := Resolved(Found(Omit(Credentials.Get(db.State(), KeyText(Param(e, "username"))))));
    } else if operation == Some(Str("getById")) {
      r := Resolved(Found(Omit(Credentials.GetById(db.State(), KeyText(Param(e, "id"))))));
    } else if operation == Some(Str("put")) {
      var checked := ValidatePut(e, freshId);
      match checked
      case Resolved(x) =>
        Credentials.Put(db, x.id, x.username, x.password);
        ApplyAllOne(s0, PutCredential(x));
        r := Resolved(Acknowledged);
      case Rejected(m) => r := Rejected(m);
      case Threw => r := Threw;
    } else if operation == Some(Str("delete")) {
      match Require(Param(e, "username"))
      case Missing => r := Rejected(InvalidUsername);
      case NotText => r := Threw;
      case Present(username) =>
        Credentials.Delete(db, username);
        ApplyAllOne(s0, DeleteCredential(username));
        r := Resolved(Acknowledged);
    } else if operation == Some(Str("list")) {
      r := Resolved(Listed(MapAll(Credentials.List(db.State()), (x: CredentialItem) => Omit(Some(x)))));
    } else {
      r := Rejected(NotSupported(operation));
    }
  }

  /** `handler(event)`: the envelope for the call `event.action` asks for. */
  function Handler(s: Snapshot, e: Event, freshId: string): (r: Option<Envelope<Response>>)
    ensures r.None? <==> Dispatch(s, e.action, e, freshId).outcome.Threw?
    ensures Dispatch(s, e.action, e, freshId).outcome.Resolved? ==> r == Some(Ok(Dispatch(s, e.action, e, freshId).outcome.value))
    ensures Dispatch(s, e.action, e, freshId).outcome.Rejected? ==> r == Some(Error(Dispatch(s, e.action, e, freshId).outcome.message))
    ensures e.action !in {Some(Str("get")), Some(Str("getById")), Some(Str("put")), Some(Str("delete")), Some(Str("list"))} ==>
              r == Some(Error(NotSupported(e.action)))
  {
    Handle(Dispatch(s, e.action, e, freshId).outcome)
  }

  /** No response of the read operations carries a password: `get`, `getById` and `list` show only ids and usernames of stored records. */
  lemma ReadsHidePasswords(s: Snapshot, e: Event, freshId: string, op: string)
    requires op in {"get", "getById", "list"}
    ensures var o := Dispatch(s, Some(Str(op)), e, freshId).outcome;
            && o.Resolved?
            && (o.value.Found? ==>
                  (|| o.value.credential == PublicCredential(None, None)
                   || exists x :: x in s.credentials && o.value.credential == PublicCredential(Some(x.id), Some(x.username))))
            && (o.value.Listed? ==>
                  (&& |o.value.credentials| == |s.credentials|
                   && forall i :: 0 <= i < |s.credentials| ==>
                        o.value.credentials[i] == PublicCredential(Some(s.credentials[i].id), Some(s.credentials[i].username))))
  {
    var o := Dispatch(s, Some(Str(op)), e, freshId).outcome;
    if op == "get" {
      var found := Credentials.Get(s, KeyText(Param(e, "username")));
      if found.Some? {
        var i :| 0 <= i < |s.credentials| && s.credentials[i] == found.value;
        assert found.value in s.credentials;
      }
    } else if op == "getById" {
      var found := Credentials.GetById(s, KeyText(Param(e, "id")));
      if found.Some? {
        var i :| 0 <= i < |s.credentials| && s.credentials[i] == found.value;
        assert found.value in s.credentials;
      }
    }
  }

  /** An error envelope always means the store was left alone. */
  lemma ErrorEnvelopeWritesNothing(s: Snapshot, e: Event, freshId: string)
    requires Handler(s, e, freshId).Some? && Handler(s, e, freshId).value.Error?
    ensures Dispatch(s, e.action, e, freshId).writes == []
  {
  }

  /** An accepted `put` stores the password exactly as supplied, and `get` then returns it without the password. */
  lemma PutThenGet(s: Snapshot, e: Event, freshId: string)
    requires ValidatePut(e, freshId).Resolved?
    ensures var x := ValidatePut(e, freshId).value;
            var s' := ApplyAll(s, Dispatch(s, Some(Str("put")), e, freshId).writes);
            && Credentials.Get(s', Some(x.username)) == Some(x)
            && Some(Str(Credentials.Get(s', Some(x.username)).value.password)) == Param(e, "password")
            && Dispatch(s', Some(Str("get")), Event(Some(Str("get")), map["username" := Str(x.username)]), freshId).outcome ==
               Resolved(Found(PublicCredential(Some(x.id), Some(x.username))))
  {
    var x := ValidatePut(e, freshId).value;
    ApplyAllOne(s, PutCredential(x));
    Credentials.GetAfterPut(s, x.id, x.username, x.password);
  }

  /** An accepted `delete` removes the record, and `get` then finds no username (an empty `{}`). */
  lemma DeleteThenGet(s: Snapshot, e: Event, freshId: string)
    requires Require(Param(e, "username")).Present?
    ensures var username := Require(Param(e, "username")).text;
            var c := Dispatch(s, Some(Str("delete")), e, freshId);
            var s' := ApplyAll(s, c.writes);
            && c.outcome == Resolved(Acknowledged)
            && Credentials.Get(s', Some(username)) == None
            && Dispatch(s', Some(Str("get")), Event(Some(Str("get")), map["username" := Str(username)]), freshId).outcome ==
               Resolved(Found(PublicCredential(None, None)))
  {
    var username := Require(Param(e, "username")).text;
    ApplyAllOne(s, DeleteCredential(username));
    Credentials.GetAfterDelete(s, username, None);
  }
}
