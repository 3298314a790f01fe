/** The response normaliser every operation's `call` applies to the parsed reply: the key
    `errorCode` alone decides between the gateway's error record and the operation's result
    record; a parser exception is a third outcome. */
module Normaliser {
  import Wrappers
  import opened Json

  const ErrorCodeKey: string := "errorCode"
  const ErrorMessageKey: string := "errorMessage"
  const RequestIdKey: string := "requestId"

  /** The error struct built from an upstream error reply. */
  datatype ErrorRecord = ErrorRecord(errorCode: JsonValue, errorMessage: JsonValue, requestId: JsonValue)

  /** What the returned struct's `error` attribute holds: the gateway's record, or the
      parser exception itself. */
  datatype ErrorValue = Gateway(record: ErrorRecord) | ParserException(message: string)

  /** The result of the reply branch of `call`. The first three variants are the struct it
      returns; the fourth stands for the NoMethodError it raises when the parsed document is
      not a JSON object (only a Hash answers `key?`), which nothing rescues. `call` can raise
      before reaching this branch (token, transport, and in B2C always the body's NameError);
      those exceptions are not outcomes of the normaliser. */
  datatype Outcome<R> =
    | Success(result: R)
    | GatewayError(error: ErrorRecord)
    | ParseError(message: string)
    | NotAnObject(document: JsonValue)
  {
    predicate Raises()
    {
      NotAnObject?
    }

    /** The struct's `result` attribute; None stands for nil. */
    function ResultAttribute(): Wrappers.Option<R>
    {
      if Success? then Wrappers.Some(result) else Wrappers.None
    }

    /** The struct's `error` attribute; None stands for nil. */
    function ErrorAttribute(): Wrappers.Option<ErrorValue>
    {
      match this
      case GatewayError(e) => Wrappers.Some(Gateway(e))
      case ParseError(m) => Wrappers.Some(ParserException(m))
      case _ => Wrappers.None
    }

    function Map<S>(f: R -> S): Outcome<S>
    {
      match this
      case Success(r) => Success(f(r))
      case GatewayError(e) => GatewayError(e)
      case ParseError(m) => ParseError(m)
      case NotAnObject(d) => NotAnObject(d)
    }
  }

  /** A parsed object carrying the key `errorCode`, whatever its value. */
  predicate IsErrorReply(parsed: ParseResult)
  {
    parsed.Parsed? && parsed.value.JObject? && ErrorCodeKey in parsed.value.members
  }

  /** A parsed object without the key `errorCode`. */
  predicate IsResultReply(parsed: ParseResult)
  {
    parsed.Parsed? && parsed.value.JObject? && ErrorCodeKey !in parsed.value.members
  }

  /** The three upstream error fields, nil where absent. */
  function ErrorFields(m: Object): ErrorRecord
  {
    ErrorRecord(Get(m, ErrorCodeKey), Get(m, ErrorMessageKey), Get(m, RequestIdKey))
  }

  /** The value under each key of the operation's key list, nil where absent. */
  function Pick(m: Object, keys: seq<string>): (vs: seq<JsonValue>)
    ensures |vs| == |keys|
    ensures forall i :: 0 <= i < |keys| ==> vs[i] == Get(m, keys[i])
  {
    seq(|keys|, i requires 0 <= i < |keys| => Get(m, keys[i]))
  }

  /** The i-th picked value, nil past the end. */
  function Field(vs: seq<JsonValue>, i: nat): JsonValue
  {
    if i < |vs| then vs[i] else JNull
  }

  /** The generic normaliser, parameterised by the operation's list of upstream result keys. */
  function Normalise(parsed: ParseResult, keys: seq<string>): (o: Outcome<seq<JsonValue>>)
    ensures o.ParseError? <==> parsed.ParserError?
    ensures parsed.ParserError? ==> o.message == parsed.message
    ensures o.NotAnObject? <==> parsed.Parsed? && !parsed.value.JObject?
    ensures o.GatewayError? <==> IsErrorReply(parsed)
    ensures o.GatewayError? ==> o.error == ErrorFields(parsed.value.members)
    ensures o.Success? <==> IsResultReply(parsed)
    ensures o.Success? ==>
      |o.result| == |keys| && forall i :: 0 <= i < |keys| ==> o.result[i] == Get(parsed.value.members, keys[i])
  {
    match parsed
    case ParserError(message) => ParseError(message)
    case Parsed(doc) =>
      if !doc.JObject? then NotAnObject(doc)
      else if ErrorCodeKey in doc.members then GatewayError(ErrorFields(doc.members))
      else Success(Pick(doc.members, keys))
  }

  /** Every struct the normaliser returns has exactly one of `result` and `error` non-nil;
      the normaliser raises instead exactly when the parsed document is not a JSON object. */
  lemma ExactlyOneAttribute(parsed: ParseResult, keys: seq<string>)
    ensures Normalise(parsed, keys).Raises() <==> parsed.Parsed? && !parsed.value.JObject?
    ensures !Normalise(parsed, keys).Raises() ==>
      (Normalise(parsed, keys).ResultAttribute().Some? <==> Normalise(parsed, keys).ErrorAttribute().None?)
    ensures parsed.ParserError? ==>
      Normalise(parsed, keys).ResultAttribute() == Wrappers.None
      && Normalise(parsed, keys).ErrorAttribute() == Wrappers.Some(ParserException(parsed.message))
  {
  }

  /** Only the presence of `errorCode` matters: replacing its value, or any other entry of an
      error reply, leaves the outcome an error. */
  lemma DecidedByKeyPresence(m: Object, v1: JsonValue, v2: JsonValue, keys: seq<string>)
    ensures Normalise(Parsed(JObject(m[ErrorCodeKey := v1])), keys).GatewayError?
    ensures Normalise(Parsed(JObject(m[ErrorCodeKey := v1])), keys).error.errorCode == v1
    ensures Normalise(Parsed(JObject(m[ErrorCodeKey := v2])), keys).GatewayError?
    ensures Normalise(Parsed(JObject(m - {ErrorCodeKey})), keys).Success?
  {
  }

  /** An upstream object with the given values under the given keys. */
  function Render(keys: seq<string>, values: seq<JsonValue>): (m: Object)
    requires |values| == |keys| && Distinct(keys)
    ensures m.Keys == set i | 0 <= i < |keys| :: keys[i]
    ensures forall i :: 0 <= i < |keys| ==> m[keys[i]] == values[i]
  {
    map i | 0 <= i < |keys| :: keys[i] := values[i]
  }

  /** An upstream error reply carrying the given record. */
  function RenderError(e: ErrorRecord): (m: Object)
    ensures ErrorCodeKey in m && ErrorFields(m) == e
  {
    map[ErrorCodeKey := e.errorCode, ErrorMessageKey := e.errorMessage, RequestIdKey := e.requestId]
  }

  /** A reply carrying exactly the result keys normalises to those values. */
  lemma SuccessRoundTrip(keys: seq<string>, values: seq<JsonValue>)
    requires |values| == |keys| && Distinct(keys) && ErrorCodeKey !in keys
    ensures Normalise(Parsed(JObject(Render(keys, values))), keys) == Success(values)
  {
    var m := Render(keys, values);
    var picked := Pick(m, keys);
    assert forall i :: 0 <= i < |keys| ==> picked[i] == values[i];
    assert picked == values;
  }

  /** An error reply normalises to its record, whatever the operation. */
  lemma ErrorRoundTrip(e: ErrorRecord, keys: seq<string>)
    ensures Normalise(Parsed(JObject(RenderError(e))), keys) == GatewayError(e)
  {
  }

  /** The transport's answer; the status code is never consulted. */
  datatype HttpResponse = HttpResponse(status: int, body: string)

  /** Parse the response body with the JSON parser, then normalise. */
  function Receive(response: HttpResponse, parse: string -> ParseResult, keys: seq<string>): Outcome<seq<JsonValue>>
  {
    Normalise(parse(response.body), keys)
  }

  /** Two responses with the same body give the same outcome, whatever their status codes. */
  lemma StatusIgnored(body: string, status1: int, status2: int, parse: string -> ParseResult, keys: seq<string>)
    ensures Receive(HttpResponse(status1, body), parse, keys) == Receive(HttpResponse(status2, body), parse, keys)
  {
  }
}
