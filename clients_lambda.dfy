/**
 * The clients admin Lambda (src/lambda/clients.js): `doCall` validates the
 * event's parameters in a fixed order and dispatches to the clients
 * repository; `handler` wraps the outcome in the ok/error envelope. The
 * fresh client id (`uuid()`) and the default secret are inputs.
 */
module ClientsLambda {
  import opened Wrappers
  import opened Text
  import opened Records
  import opened Store
  import opened LambdaCommon
  import Clients

  const InvalidGrants := "Invalid array param \"grants\""
  const RequiredGrants := "Required array param \"grants\""
  const InvalidRedirectUris := "Invalid array param \"redirect_uris\""
  const InvalidClientId := "Invalid param \"client_id\""
  const InvalidClientSecret := "Invalid param \"client_secret\""
  const RequiredUserId := "Required param \"user_id\""

  /** What a resolved call hands back. */
  datatype Response =
    | Found(item: Option<ClientItem>)   // `get`: the record or `undefined`
    | Listed(items: seq<ClientItem>)    // `list`, `listForUser`
    | Stored                            // `put`: the store's acknowledgement
    | Nothing                           // `delete`: `null`

  /** The arguments of a `put` that passed validation. */
  datatype PutArgs = PutArgs(
    clientId: string, clientSecret: string, userId: string,
    description: Option<string>, grants: seq<string>, redirectUris: Option<seq<string>>)

  /** `grants`, defaulting to `[]`. */
  function Grants(e: Event): Value { ParamOr(e, "grants", Arr([])) }

  /** `redirect_uris`, defaulting to `null`. */
  function RedirectUris(e: Event): Value { ParamOr(e, "redirect_uris", Null) }

  /** A description is stored when it is text. */
  function Description(e: Event): Option<string> {
    match Param(e, "description")
    case Some(Str(s)) => Some(s)
    case _ => None
  }

  predicate GrantsOk(e: Event) { Grants(e).Arr? && Grants(e).items != [] }

  predicate RedirectUrisOk(e: Event) { RedirectUris(e).Null? || RedirectUris(e).Arr? }

  /**
   * The checks of the `put` branch, in source order: the first that fails
   * decides the message (a `.trim()` on a non-text value throws instead).
   */
  function ValidatePut(e: Event, freshId: string, defaultSecret: string): (r: Outcome<PutArgs>)
    ensures !Grants(e).Arr? ==> r == Rejected(InvalidGrants)
    ensures Grants(e) == Arr([]) ==> r == Rejected(RequiredGrants)
    ensures GrantsOk(e) && !RedirectUrisOk(e) ==> r == Rejected(InvalidRedirectUris)
    ensures GrantsOk(e) && RedirectUrisOk(e) ==>
              match Require(Some(ParamOr(e, "client_id", Str(freshId))))
              case Missing => r == Rejected(InvalidClientId)
              case NotText => r == Threw
              case Present(_) =>
                match Require(Some(ParamOr(e, "client_secret", Str(defaultSecret))))
                case Missing => r == Rejected(InvalidClientSecret)
                case NotText => r == Threw
                case Present(_) =>
                  match Require(Param(e, "user_id"))
                  case Missing => r == Rejected(RequiredUserId)
                  case NotText => r == Threw
                  case Present(_) => r.Resolved?
    ensures r.Resolved? ==>
              && r.value.grants == Grants(e).items && r.value.grants != []
              && !IsBlank(r.value.clientId) && !IsBlank(r.value.clientSecret) && !IsBlank(r.value.userId)
              && r.value.clientId == (if "client_id" in e.params then e.params["client_id"].s else freshId)
              && r.value.clientSecret == (if "client_secret" in e.params then e.params["client_secret"].s else defaultSecret)
              && Param(e, "user_id") == Some(Str(r.value.userId))
              && r.value.redirectUris == (if RedirectUris(e).Arr? then Some(RedirectUris(e).items) else None)
  {
    var grants := Grants(e);
    var redirectUris := RedirectUris(e);
    if !grants.Arr? then Rejected(InvalidGrants)
    else if grants.items == [] then Rejected(RequiredGrants)
    else if !(redirectUris.Null? || redirectUris.Arr?) then Rejected(InvalidRedirectUris)
    else
      match Require(Some(ParamOr(e, "client_id", Str(freshId))))
      case Missing => Rejected(InvalidClientId)
      case NotText => Threw
      case Present(clientId) =>
        match Require(Some(ParamOr(e, "client_secret", Str(defaultSecret))))
        case Missing => Rejected(InvalidClientSecret)
        case NotText => Threw
        case Present(clientSecret) =>
          match Require(Param(e, "user_id"))
          case Missing => Rejected(RequiredUserId)
          case NotText => Threw
          case Present(userId) =>
            Resolved(PutArgs(clientId, clientSecret, userId, Description(e), grants.items,
                             if redirectUris.Arr? then Some(redirectUris.items) else None))
  }

  /** What a call does: its outcome and the writes it sends to the store. */
  datatype Call = Call(outcome: Outcome<Response>, writes: seq<Write>)

  /** `doCall(operation, event)` as a function of the store's contents before the call. */
  function Dispatch(s: Snapshot, operation: Option<Value>, e: Event, freshId: string, defaultSecret: string): (c: Call)
    ensures !c.outcome.Resolved? ==> c.writes == []
    ensures operation !in {Some(Str("put")), Some(Str("delete"))} ==> c.writes == []
    ensures operation !in {Some(Str("get")), Some(Str("put")), Some(Str("delete")), Some(Str("listForUser")), Some(Str("list"))} ==>
              c.outcome == Rejected(NotSupported(operation))
    // `get` looks the client up by `client_id` and never fails
    ensures operation == Some(Str("get")) ==> c.outcome == Resolved(Found(Clients.Get(s, KeyText(Param(e, "client_id")))))
    // `put` fails exactly as its validation does, and otherwise writes the validated client once
    ensures operation == Some(Str("put")) ==>
              var v := ValidatePut(e, freshId, defaultSecret);
              && (v.Rejected? ==> c.outcome == Rejected(v.message))
              && (v.Threw? ==> c.outcome.Threw?)
              && (v.Resolved? ==>
                    && c.outcome == Resolved(Stored) && |c.writes| == 1 && c.writes[0].PutClient?
                    && c.writes[0].client.clientId == v.value.clientId
                    && c.writes[0].client.clientSecret == Some(v.value.clientSecret)
                    && c.writes[0].client.userId == Some(v.value.userId)
                    && c.writes[0].client.grants == v.value.grants)
    // `delete` needs a `client_id`, and removes exactly that client
    ensures operation == Some(Str("delete")) ==>
              match Require(Param(e, "client_id"))
              case Missing => c.outcome == Rejected(InvalidClientId)
              case NotText => c.outcome.Threw?
              case Present(id) => c.outcome == Resolved(Nothing) && c.writes == [DeleteClient(id)]
    // `listForUser` needs a `user_id`, and lists that user's clients
    ensures operation == Some(Str("listForUser")) ==>
              match Require(Param(e, "user_id"))
              case Missing => c.outcome == Rejected(RequiredUserId)
              case NotText => c.outcome.Threw?
              case Present(u) => c.outcome == Resolved(Listed(Clients.ListForUser(s, Some(u))))
    ensures operation == Some(Str("list")) ==> c.outcome == Resolved(Listed(Clients.List(s)))
  {
    if operation == Some(Str("get")) then
      Call(Resolved(Found(Clients.Get(s, KeyText(Param(e, "client_id"))))), [])
    else if operation == Some(Str("put")) then
      match ValidatePut(e, freshId, defaultSecret)
      case Resolved(a) =>
        Call(Resolved(Stored),
             [PutClient(Clients.Record(a.clientId, Some(a.clientSecret), Some(a.userId), a.description, a.grants, a.redirectUris))])
      case Rejected(m) => Call(Rejected(m), [])
      case Threw => Call(Threw, [])
    else if operation == Some(Str("delete")) then
      match Require(Param(e, "client_id"))
      case Missing => Call(Rejected(InvalidClientId), [])
      case NotText => Call(Threw, [])
      case Present(clientId) => Call(Resolved(Nothing), [DeleteClient(clientId)])
    else if operation == Some(Str("listForUser")) then
      match Require(Param(e, "user_id"))
      case Missing => Call(Rejected(RequiredUserId), [])
      case NotText => Call(Threw, [])
      case Present(userId) => Call(Resolved(Listed(Clients.ListForUser(s, Some(userId)))), [])
    else if operation == Some(Str("list")) then
      Call(Resolved(Listed(Clients.List(s))), [])
    else
      Call(Rejected(NotSupported(operation)), [])
  }

  /** `doCall`: validates, then performs at most one write through the repository. */
  method DoCall(db: Database, operation: Option<Value>, e: Event, freshId: string, defaultSecret: string)
    returns (r: Outcome<Response>)
    modifies db
    ensures r == Dispatch(old(db.State()), operation, e, freshId, defaultSecret).outcome
    ensures db.journal == old(db.journal) + Dispatch(old(db.State()), operation, e, freshId, defaultSecret).writes
    ensures db.State() == ApplyAll(old(db.State()), Dispatch(old(db.State()), operation, e, freshId, defaultSecret).writes)
  {
    ghost var s0 := db.State();
    if operation == Some(Str("get")) {
      r := Resolved(Found(Clients.Get(db.State(), KeyText(Param(e, "client_id")))));
    } else if operation == Some(Str("put")) {
      var checked := ValidatePut(e, freshId, defaultSecret);
      match checked
      case Resolved(a) =>
        Clients.Put(db, a.clientId, Some(a.clientSecret), Some(a.userId), a.description, a.grants, a.redirectUris);
        ApplyAllOne(s0, PutClient(Clients.Record(a.clientId, Some(a.clientSecret), Some(a.userId), a.description, a.grants, a.redirectUris)));
        r := Resolved(Stored);
      case Rejected(m) => r := Rejected(m);
      case Threw => r := Threw;
    } else if operation == Some(Str("delete")) {
      match Require(Param(e, "client_id"))
      case Missing => r := Rejected(InvalidClientId);
      case NotText => r := Threw;
      case Present(clientId) =>
        Clients.Delete(db, clientId);
        ApplyAllOne(s0, DeleteClient(clientId));
        r := Resolved(Nothing);
    } else if operation == Some(Str("listForUser")) {
      match Require(Param(e, "user_id"))
      case Missing => r := Rejected(RequiredUserId);
      case NotText => r := Threw;
      case Present(userId) => r := Resolved(Listed(Clients.ListForUser(db.State(), Some(userId))));
    } else if operation == Some(Str("list")) {
      r := Resolved(Listed(Clients.List(db.State())));
    } else {
      r := Rejected(NotSupported(operation));
    }
  }

  /** `handler(event)`: the envelope for the call `event.action` asks for. */
  function Handler(s: Snapshot, e: Event, freshId: string, defaultSecret: string): (r: Option<Envelope<Response>>)
    ensures r.None? <==> Dispatch(s, e.action, e, freshId, defaultSecret).outcome.Threw?
    ensures Dispatch(s, e.action, e, freshId, defaultSecret).outcome.Resolved? ==> r == Some(Ok(Dispatch(s, e.action, e, freshId, defaultSecret).outcome.value))
    ensures Dispatch(s, e.action, e, freshId, defaultSecret).outcome.Rejected? ==> r == Some(Error(Dispatch(s, e.action, e, freshId, defaultSecret).outcome.message))
    ensures e.action !in {Some(Str("get")), Some(Str("put")), Some(Str("delete")), Some(Str("listForUser")), Some(Str("list"))} ==>
              r == Some(Error(NotSupported(e.action)))
  {
    Handle(Dispatch(s, e.action, e, freshId, defaultSecret).outcome)
  }

  /** An error envelope always means the store was left alone. */
  lemma ErrorEnvelopeWritesNothing(s: Snapshot, e: Event, freshId: string, defaultSecret: string)
    requires Handler(s, e, freshId, defaultSecret).Some? && Handler(s, e, freshId, defaultSecret).value.Error?
    ensures Dispatch(s, e.action, e, freshId, defaultSecret).writes == []
  {
  }

  /** An accepted `put` stores the parameters as given (untrimmed), its secret, and `redirect_uris` only when non-empty; `get` then finds it. */
  lemma PutThenGet(s: Snapshot, e: Event, freshId: string, defaultSecret: string)
    requires ValidatePut(e, freshId, defaultSecret).Resolved?
    ensures var a := ValidatePut(e, freshId, defaultSecret).value;
            var s' := ApplyAll(s, Dispatch(s, Some(Str("put")), e, freshId, defaultSecret).writes);
            && Clients.Get(s', Some(a.clientId)) ==
                 Some(ClientItem(a.clientId, Some(a.clientSecret), Some(a.userId), a.description, a.grants,
                                 if a.redirectUris.Some? && a.redirectUris.value != [] then a.redirectUris else None))
            && (Clients.Get(s', Some(a.clientId)).value.redirectUris != Some([]))
  {
    var a := ValidatePut(e, freshId, defaultSecret).value;
    var x := Clients.Record(a.clientId, Some(a.clientSecret), Some(a.userId), a.description, a.grants, a.redirectUris);
    ApplyAllOne(s, PutClient(x));
    Clients.GetAfterPut(s, x);
  }

  /** An accepted `delete` removes the client, and `get` finds nothing afterwards. */
  lemma DeleteThenGet(s: Snapshot, e: Event, freshId: string, defaultSecret: string)
    requires Require(Param(e, "client_id")).Present?
    ensures var id := Require(Param(e, "client_id")).text;
            var c := Dispatch(s, Some(Str("delete")), e, freshId, defaultSecret);
            && c.outcome == Resolved(Nothing)
            && Clients.Get(ApplyAll(s, c.writes), Some(id)) == None
  {
    var id := Require(Param(e, "client_id")).text;
    ApplyAllOne(s, DeleteClient(id));
    Clients.GetAfterDelete(s, id, None);
  }
}
