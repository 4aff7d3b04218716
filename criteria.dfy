/**
 * Key conditions for the store (src/lib/oauth2/model/criteriaFromParams.js).
 * Each builder reads one field of its parameters and produces
 * `{ index?, where: "F = :F", values: { ":F": params.F } }`; a missing field
 * is dropped from `values`, as the attribute-value wrapper drops `undefined`.
 */
module CriteriaFromParams {
  import opened Wrappers

  datatype Criteria = Criteria(index: Option<string>, attribute: string, values: map<string, string>) {

    /** The key condition expression. */
    function Where(): string {
      attribute + " = :" + attribute
    }

    /** The placeholder the condition binds. */
    function Placeholder(): string {
      ":" + attribute
    }

    /** Whether an item whose `attribute` has value `v` satisfies the condition. */
    predicate Holds(v: Option<string>) {
      Placeholder() in values && v == Some(values[Placeholder()])
    }
  }

  /** The shape every builder shares. */
  function Bind(index: Option<string>, field: string, params: map<string, string>): (c: Criteria)
    ensures c.index == index && c.Where() == field + " = :" + field
    ensures forall v :: c.Holds(v) <==> field in params && v == Some(params[field])
  {
    Criteria(index, field, if field in params then map[":" + field := params[field]] else map[])
  }

  /** The only builder that names an index: credentials by `id` through `IdUsernameGSI`. */
  function TransformCredential(params: map<string, string>): (c: Criteria)
    ensures c.index == Some("IdUsernameGSI") && c.Where() == "id = :id"
    ensures forall v :: c.Holds(v) <==> "id" in params && v == Some(params["id"])
  {
    Bind(Some("IdUsernameGSI"), "id", params)
  }

  function TransformCredentials(params: map<string, string>): (c: Criteria)
    ensures c.index == None && c.Where() == "username = :username"
    ensures forall v :: c.Holds(v) <==> "username" in params && v == Some(params["username"])
  {
    Bind(None, "username", params)
  }

  function TransformAccessToken(params: map<string, string>): (c: Criteria)
    ensures c.index == None && c.Where() == "access_token = :access_token"
    ensures forall v :: c.Holds(v) <==> "access_token" in params && v == Some(params["access_token"])
  {
    Bind(None, "access_token", params)
  }

  function TransformRefreshToken(params: map<string, string>): (c: Criteria)
    ensures c.index == None && c.Where() == "refresh_token = :refresh_token"
    ensures forall v :: c.Holds(v) <==> "refresh_token" in params && v == Some(params["refresh_token"])
  {
    Bind(None, "refresh_token", params)
  }

  function TransformClient(params: map<string, string>): (c: Criteria)
    ensures c.index == None && c.Where() == "client_id = :client_id"
    ensures forall v :: c.Holds(v) <==> "client_id" in params && v == Some(params["client_id"])
  {
    Bind(None, "client_id", params)
  }

  function TransformAuthorization(params: map<string, string>): (c: Criteria)
    ensures c.index == None && c.Where() == "code = :code"
    ensures forall v :: c.Holds(v) <==> "code" in params && v == Some(params["code"])
  {
    Bind(None, "code", params)
  }

  /** A builder reads only its own field: parameters that agree on it give the same criteria. */
  lemma BindReadsOnlyItsField(index: Option<string>, field: string, p: map<string, string>, q: map<string, string>)
    requires (field in p <==> field in q) && (field in p ==> p[field] == q[field])
    ensures Bind(index, field, p) == Bind(index, field, q)
  {
  }
}
