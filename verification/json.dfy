/** Parsed JSON documents, as the gateway client sees them after `JSON.parse`. */
module Json {

  /** One JSON value. `JNull` is also what Ruby's `nil` stands for. */
  datatype JsonValue =
    | JNull
    | JBool(b: bool)
    | JNumber(n: int)
    | JString(s: string)
    | JArray(elements: seq<JsonValue>)
    | JObject(members: map<string, JsonValue>)

  type Object = map<string, JsonValue>

  /** Outcome of the JSON parser, an oracle of this model: a document or a parser exception. */
  datatype ParseResult = Parsed(value: JsonValue) | ParserError(message: string)

  /** Ruby's `Hash#[]`: the stored value, or nil when the key is absent. */
  function Get(m: Object, key: string): (v: JsonValue)
    ensures key in m ==> v == m[key]
    ensures key !in m ==> v == JNull
  {
    if key in m then m[key] else JNull
  }

  /** No key occurs twice. */
  predicate Distinct(keys: seq<string>)
  {
    forall i, j :: 0 <= i < j < |keys| ==> keys[i] != keys[j]
  }
}
