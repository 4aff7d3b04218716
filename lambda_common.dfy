/**
 * What the two admin Lambda handlers (src/lambda/clients.js and
 * src/lambda/credentials.js) share: the JSON values an event carries, the
 * `_.isNil(v) || v.trim() === ''` check, the outcome of `doCall` and the
 * envelope the handler sends back.
 */
module LambdaCommon {
  import opened Wrappers
  import opened Text

  /** A JSON value of the event; `Other` is a number, boolean or object, with the text `String(v)` gives. */
  datatype Value = Null | Str(s: string) | Arr(items: seq<string>) | Other(text: string)

  /** The event: `action` and the `params` object (a missing key is `undefined`). */
  datatype Event = Event(action: Option<Value>, params: map<string, Value>)

  /** `_.get(event, 'params.' + name)`. */
  function Param(e: Event, name: string): (r: Option<Value>)
    ensures r.Some? <==> name in e.params
  {
    if name in e.params then Some(e.params[name]) else None
  }

  /** `_.get(event, 'params.' + name, default)`: the default replaces `undefined` only, never `null`. */
  function ParamOr(e: Event, name: string, default: Value): (r: Value)
    ensures name !in e.params ==> r == default
    ensures name in e.params ==> r == e.params[name]
  {
    Param(e, name).GetOr(default)
  }

  /** The text a value becomes inside a template string. */
  function TemplateText(v: Option<Value>): string {
    match v
    case None => "undefined"
    case Some(Null) => "null"
    case Some(Str(s)) => s
    case Some(Arr(items)) => Join(items, ',')
    case Some(Other(text)) => text
  }

  /** A lookup key as the store sees it: only a string can match a stored key. */
  function KeyText(v: Option<Value>): (r: Option<string>)
    ensures r.Some? <==> v.Some? && v.value.Str?
    ensures r.Some? ==> r.value == v.value.s
  {
    match v
    case Some(Str(s)) => Some(s)
    case _ => None
  }

  /** The result of `_.isNil(v) || v.trim() === ''`. */
  datatype Presence = Missing | Present(text: string) | NotText

  /**
   * `null`, `undefined` and whitespace-only text are missing; other text is
   * present, untrimmed; `.trim()` on any other value throws.
   */
  function Require(v: Option<Value>): (r: Presence)
    ensures r.Present? <==> v.Some? && v.value.Str? && !IsBlank(v.value.s)
    ensures r.Present? ==> r.text == v.value.s
    ensures r.NotText? <==> v.Some? && (v.value.Arr? || v.value.Other?)
  {
    match v
    case None => Missing
    case Some(Null) => Missing
    case Some(Str(s)) => if IsBlank(s) then Missing else Present(s)
    case Some(_) => NotText
  }

  /** How `doCall` ends: its promise resolves or rejects, or it throws before returning one. */
  datatype Outcome<T> = Resolved(value: T) | Rejected(message: string) | Threw

  /** The payload handed to the callback. */
  datatype Envelope<T> = Ok(response: T) | Error(message: string)

  /** `handler`: `{ status: 'ok', response }` or `{ status: 'error', error: { message } }`; a synchronous throw escapes and no payload is sent. */
  function Handle<T>(o: Outcome<T>): (r: Option<Envelope<T>>)
    ensures r.None? <==> o.Threw?
    ensures o.Resolved? ==> r == Some(Ok(o.value))
    ensures o.Rejected? ==> r == Some(Error(o.message))
  {
    match o
    case Resolved(v) => Some(Ok(v))
    case Rejected(m) => Some(Error(m))
    case Threw => None
  }

  /** The message for an action `doCall` does not know. */
  function NotSupported(action: Option<Value>): string {
    "Operation " + TemplateText(action) + " not supported"
  }
}
