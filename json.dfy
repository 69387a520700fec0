/** The JSON values the OData service answers with, the JavaScript truthiness the
    resolvers test them with, the failures the resolvers raise, and the
    unwrapping of an OData payload into what the GraphQL field receives. */
module Payload {
  import opened Wrappers
  import opened Text

  /** A decoded JSON value. Object members keep the order they were decoded in. */
  datatype Json =
    | JNull
    | JBool(b: bool)
    | JNum(n: int)
    | JStr(s: string)
    | JArr(items: seq<Json>)
    | JObj(members: seq<(string, Json)>)

  /** The value of the first member called `key`; `None` plays `undefined`, which
      is also what reading a property of a number, string, boolean or array gives. */
  function Member(j: Json, key: string): (r: Option<Json>)
    ensures r.Some? ==> j.JObj? && exists i :: 0 <= i < |j.members| && j.members[i] == (key, r.value)
    ensures r.None? ==> !j.JObj? || forall i :: 0 <= i < |j.members| ==> j.members[i].0 != key
  {
    match j
    case JObj(ms) => Find(ms, key)
    case _ => None
  }

  function Find(ms: seq<(string, Json)>, key: string): (r: Option<Json>)
    ensures r.Some? ==> exists i :: 0 <= i < |ms| && ms[i] == (key, r.value)
    ensures r.None? ==> forall i :: 0 <= i < |ms| ==> ms[i].0 != key
  {
    if ms == [] then None
    else if ms[0].0 == key then Some(ms[0].1)
    else
      var r := Find(ms[1..], key);
      assert r.Some? ==> ms[1..][0..] == ms[1..];
      r
  }

  /** JavaScript truthiness: `null`, `false`, `0` and `''` are falsy; every array
      and object is truthy, the empty ones included. */
  predicate Truthy(j: Json)
  {
    match j
    case JNull => false
    case JBool(b) => b
    case JNum(n) => n != 0
    case JStr(s) => s != ""
    case JArr(_) => true
    case JObj(_) => true
  }

  /** Truthiness of a property read: `undefined` is falsy. */
  predicate Present(m: Option<Json>)
  {
    m.Some? && Truthy(m.value)
  }

  /** What a resolver throws. `Error` is a plain `new Error(message)`, `TypeError`
      the runtime's error for reading a property of `null` or `undefined`, and
      `ApolloError` the upstream failure of index.js with its code and
      extensions (the message is kept as the JSON value the body held). */
  datatype Failure =
    | Error(message: string)
    | TypeError(message: string)
    | ApolloError(text: Json, code: int, error: Json, request: string)

  /** A successful resolution: the URL that was requested and the value handed
      back to GraphQL. */
  datatype Answer = Answer(request: string, value: Json)

  /** `json.error ? json : json.value ? json.value : json`. Reading `error` off a
      `null` payload throws. */
  function Unwrap(json: Json): (r: Result<Json, Failure>)
    ensures json.JNull? <==> r.Failure?
    ensures r.Success? && r.value != json ==>
      !Present(Member(json, "error")) && Member(json, "value") == Some(r.value) && Truthy(r.value)
  {
    if json.JNull? then Failure(TypeError("Cannot read property 'error' of null"))
    else if Present(Member(json, "error")) then Success(json)
    else if Present(Member(json, "value")) then Success(Member(json, "value").value)
    else Success(json)
  }

  /** The answer to a request: a failure before the request is made passes
      through; otherwise the payload fetched from the URL is unwrapped. */
  function Respond(request: Result<string, Failure>, fetch: string -> Json): Result<Answer, Failure>
  {
    match request
    case Failure(e) => Failure(e)
    case Success(url) =>
      match Unwrap(fetch(url))
      case Failure(e) => Failure(e)
      case Success(v) => Success(Answer(url, v))
  }

  /** The collection envelope `{"@odata.context": ctx, "value": [...]}`. */
  function Envelope(context: string, items: seq<Json>): Json
  {
    JObj([("@odata.context", JStr(context)), ("value", JArr(items))])
  }

  /** Unwrapping a collection envelope gives back its items unchanged, even when
      there are none (an empty array is truthy). */
  lemma UnwrapEnvelope(context: string, items: seq<Json>)
    ensures Unwrap(Envelope(context, items)) == Success(JArr(items))
  {
    var ms := Envelope(context, items).members;
    assert Find(ms, "error") == None by {
      assert Find(ms[1..][1..], "error") == None;
    }
    assert Find(ms, "value") == Some(JArr(items)) by {
      assert ms[1..][0].0 == "value";
    }
  }

  /** A payload whose `error` is truthy is handed back whole. */
  lemma UnwrapError(json: Json)
    requires Present(Member(json, "error"))
    ensures Unwrap(json) == Success(json)
  {
  }

  /** A payload with neither a truthy `error` nor a truthy `value` (a bare
      entity) is handed back whole; one with a truthy `value` and no truthy
      `error` gives that value. */
  lemma UnwrapEntityOrValue(json: Json)
    requires !json.JNull? && !Present(Member(json, "error"))
    ensures Present(Member(json, "value")) ==> Unwrap(json) == Success(Member(json, "value").value)
    ensures !Present(Member(json, "value")) ==> Unwrap(json) == Success(json)
  {
  }
}
