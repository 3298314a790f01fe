/** `SimulateC2bViaTillNumber`: simulates a customer paying a till number. */
module SimulateC2bViaTillNumber {
  import opened Wrappers
  import opened Json
  import opened Normaliser

  /** The constructor's arguments. */
  datatype Simulation = Simulation(amount: JsonValue, phoneNumber: JsonValue, tillNumber: JsonValue)

  /** The success struct. */
  datatype Reply = Reply(merchantRequestId: JsonValue, checkoutRequestId: JsonValue, responseCode: JsonValue, responseDescription: JsonValue, customerMessage: JsonValue)

  const ReplyKeys: seq<string> := ["MerchantRequestID", "CheckoutRequestID", "ResponseCode", "ResponseDescription", "CustomerMessage"]

  const CommandId: string := "CustomerBuyGoodsOnline"

  const BodyKeys: set<string> := {"ShortCode", "CommandID", "Amount", "Msisdn"}

  function ReplyFromFields(vs: seq<JsonValue>): Reply
  {
    Reply(Field(vs, 0), Field(vs, 1), Field(vs, 2), Field(vs, 3), Field(vs, 4))
  }

  function ReplyFields(r: Reply): seq<JsonValue>
  {
    [r.merchantRequestId, r.checkoutRequestId, r.responseCode, r.responseDescription, r.customerMessage]
  }

  /** The branch of `call` after parsing: the gateway's error fields for an error reply, the
      five result fields (nil where absent) otherwise, the parser exception as itself. */
  function NormaliseReply(parsed: ParseResult): (o: Outcome<Reply>)
    ensures parsed.ParserError? ==> o == ParseError(parsed.message)
    ensures IsErrorReply(parsed) ==> o == GatewayError(ErrorFields(parsed.value.members))
    ensures IsResultReply(parsed) ==>
      var m := parsed.value.members;
      o == Success(Reply(Get(m, "MerchantRequestID"), Get(m, "CheckoutRequestID"), Get(m, "ResponseCode"),
                         Get(m, "ResponseDescription"), Get(m, "CustomerMessage")))
    ensures parsed.Parsed? && !parsed.value.JObject? ==> o == NotAnObject(parsed.value)
  {
    Normalise(parsed, ReplyKeys).Map(ReplyFromFields)
  }

  /** A gateway reply carrying a result's five fields normalises back to that result. */
  lemma ReplyRoundTrip(r: Reply)
    ensures NormaliseReply(Parsed(JObject(Render(ReplyKeys, ReplyFields(r))))) == Success(r)
  {
    SuccessRoundTrip(ReplyKeys, ReplyFields(r));
  }

  /** An error reply normalises to its three error fields, whatever else it carries. */
  lemma ErrorReplyRoundTrip(e: ErrorRecord)
    ensures NormaliseReply(Parsed(JObject(RenderError(e)))) == GatewayError(e)
  {
    ErrorRoundTrip(e, ReplyKeys);
  }

  /** The body literal: exactly four keys, the till number as ShortCode, the phone number as
      Msisdn and the constant command. */
  function Body(s: Simulation): (b: Object)
    ensures b.Keys == BodyKeys
    ensures b["ShortCode"] == s.tillNumber && b["Msisdn"] == s.phoneNumber
    ensures b["Amount"] == s.amount && b["CommandID"] == JString(CommandId)
  {
    map[
      "ShortCode" := s.tillNumber,
      "CommandID" := JString(CommandId),
      "Amount" := s.amount,
      "Msisdn" := s.phoneNumber]
  }

  /** The inverse of Body: the simulation a body carries, provided it has exactly the body's
      keys and its constant command. */
  function ReadBody(b: Object): Option<Simulation>
  {
    if b.Keys == BodyKeys && b["CommandID"] == JString(CommandId) then
      Some(Simulation(b["Amount"], b["Msisdn"], b["ShortCode"]))
    else None
  }

  /** Reading a body recovers the simulation, and only bodies built by Body are read. */
  lemma BodyRoundTrip(s: Simulation, b: Object)
    ensures ReadBody(Body(s)) == Some(s)
    ensures ReadBody(b) == Some(s) ==> Body(s) == b
  {
    if ReadBody(b) == Some(s) {
      var b' := Body(s);
      assert forall k :: k in BodyKeys ==> b'[k] == b[k];
    }
  }
}
