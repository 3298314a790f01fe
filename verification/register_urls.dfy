/** `RegisterUrls`: registers the confirmation and validation URLs of a short code. */
module RegisterUrls {
  import opened Wrappers
  import opened Json
  import opened Normaliser

  /** The constructor's arguments, each copied into the body as given. */
  datatype Registration = Registration(shortCode: JsonValue, responseType: JsonValue, confirmationUrl: JsonValue, validationUrl: JsonValue)

  /** The success struct. Its first attribute keeps the class's own spelling,
      `originator_converstion_id`, which is what callers read. */
  datatype Reply = Reply(originatorConverstionId: JsonValue, responseCode: JsonValue, responseDescription: JsonValue)

  /** The upstream keys `call` reads, as written: the first is misspelled. */
  const ReplyKeys: seq<string> := ["OriginatorConverstionID", "ResponseCode", "ResponseDescription"]

  /** The upstream keys with the identifier spelled as the B2C class reads it,
      `OriginatorConversationID`. Nothing in the source fixes how this endpoint's
      reply spells the key. */
  const CorrectedReplyKeys: seq<string> := ["OriginatorConversationID", "ResponseCode", "ResponseDescription"]

  /** The two response types the body's comment names; nothing checks against them. */
  const DocumentedResponseTypes: set<JsonValue> := {JString("Cancelled"), JString("Completed")}

  const BodyKeys: set<string> := {"ShortCode", "ResponseType", "ConfirmationURL", "ValidationURL"}

  function ReplyFromFields(vs: seq<JsonValue>): Reply
  {
    Reply(Field(vs, 0), Field(vs, 1), Field(vs, 2))
  }

  function ReplyFields(r: Reply): seq<JsonValue>
  {
    [r.originatorConverstionId, r.responseCode, r.responseDescription]
  }

  /** The branch of `call` after parsing, as written: the result's identifier comes from the
      misspelled key `OriginatorConverstionID`. */
  function NormaliseReply(parsed: ParseResult): (o: Outcome<Reply>)
    ensures parsed.ParserError? ==> o == ParseError(parsed.message)
    ensures IsErrorReply(parsed) ==> o == GatewayError(ErrorFields(parsed.value.members))
    ensures IsResultReply(parsed) ==>
      var m := parsed.value.members;
      o == Success(Reply(Get(m, "OriginatorConverstionID"), Get(m, "ResponseCode"), Get(m, "ResponseDescription")))
    ensures parsed.Parsed? && !parsed.value.JObject? ==> o == NotAnObject(parsed.value)
  {
    Normalise(parsed, ReplyKeys).Map(ReplyFromFields)
  }

  /** A reply that uses the misspelled key round-trips through the class as written. */
  lemma ReplyRoundTrip(r: Reply)
    ensures NormaliseReply(Parsed(JObject(Render(ReplyKeys, ReplyFields(r))))) == Success(r)
  {
    SuccessRoundTrip(ReplyKeys, ReplyFields(r));
  }

  /** A reply spelled `OriginatorConversationID` loses its identifier: the class as written
      reports nil for it and keeps the other two fields. */
  lemma MisspelledKeyDropsIdentifier(r: Reply)
    ensures NormaliseReply(Parsed(JObject(Render(CorrectedReplyKeys, ReplyFields(r)))))
            == Success(r.(originatorConverstionId := JNull))
  {
    var m := Render(CorrectedReplyKeys, ReplyFields(r));
    assert m.Keys == {"OriginatorConversationID", "ResponseCode", "ResponseDescription"} by {
      assert CorrectedReplyKeys[0] in m && CorrectedReplyKeys[1] in m && CorrectedReplyKeys[2] in m;
    }
    assert m["ResponseCode"] == r.responseCode by { assert CorrectedReplyKeys[1] == "ResponseCode"; }
    assert m["ResponseDescription"] == r.responseDescription by { assert CorrectedReplyKeys[2] == "ResponseDescription"; }
  }

  /** The branch of `call` reading the identifier under `OriginatorConversationID`, the
      spelling the B2C class reads. */
  function NormaliseReplyCorrected(parsed: ParseResult): (o: Outcome<Reply>)
    ensures parsed.ParserError? ==> o == ParseError(parsed.message)
    ensures IsErrorReply(parsed) ==> o == GatewayError(ErrorFields(parsed.value.members))
    ensures IsResultReply(parsed) ==>
      var m := parsed.value.members;
      o == Success(Reply(Get(m, "OriginatorConversationID"), Get(m, "ResponseCode"), Get(m, "ResponseDescription")))
    ensures parsed.Parsed? && !parsed.value.JObject? ==> o == NotAnObject(parsed.value)
  {
    Normalise(parsed, CorrectedReplyKeys).Map(ReplyFromFields)
  }

  /** With the spelling the B2C class reads, every field of a result, the identifier
      included, survives normalisation. */
  lemma CorrectedReplyRoundTrip(r: Reply)
    ensures NormaliseReplyCorrected(Parsed(JObject(Render(CorrectedReplyKeys, ReplyFields(r))))) == Success(r)
  {
    SuccessRoundTrip(CorrectedReplyKeys, ReplyFields(r));
  }

  /** The body literal: exactly the four keys, each holding its constructor argument. */
  function Body(r: Registration): (b: Object)
    ensures b.Keys == BodyKeys
    ensures b["ShortCode"] == r.shortCode && b["ResponseType"] == r.responseType
    ensures b["ConfirmationURL"] == r.confirmationUrl && b["ValidationURL"] == r.validationUrl
  {
    map[
      "ShortCode" := r.shortCode,
      "ResponseType" := r.responseType,
      "ConfirmationURL" := r.confirmationUrl,
      "ValidationURL" := r.validationUrl]
  }

  /** The inverse of Body: the registration a body carries, provided it has exactly the
      body's keys. */
  function ReadBody(b: Object): Option<Registration>
  {
    if b.Keys == BodyKeys then
      Some(Registration(b["ShortCode"], b["ResponseType"], b["ConfirmationURL"], b["ValidationURL"]))
    else None
  }

  /** Reading a body recovers the registration, and only bodies built by Body are read. */
  lemma BodyRoundTrip(r: Registration, b: Object)
    ensures ReadBody(Body(r)) == Some(r)
    ensures ReadBody(b) == Some(r) ==> Body(r) == b
  {
    if ReadBody(b) == Some(r) {
      var b' := Body(r);
      assert forall k :: k in BodyKeys ==> b'[k] == b[k];
    }
  }

  /** Changing the response type changes that key of the body and nothing else. The second
      clause adds nothing to Body's own contract: it spells out that a value outside the two
      documented ones is sent as given, because nothing checks it. */
  lemma ResponseTypeUnchecked(r: Registration, v: JsonValue)
    ensures Body(r.(responseType := v)) == Body(r)["ResponseType" := v]
    ensures v !in DocumentedResponseTypes ==> Body(r.(responseType := v))["ResponseType"] == v
  {
    var b1, b2 := Body(r.(responseType := v)), Body(r)["ResponseType" := v];
    assert forall k :: k in BodyKeys ==> b1[k] == b2[k];
  }
}
