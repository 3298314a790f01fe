/** `StkPushViaPaybillNumber`: merchant-initiated push payment to a pay-bill number. */
module StkPushViaPaybillNumber {
  import opened Wrappers
  import opened Json
  import opened Normaliser
  import opened Clock
  import opened Decimal
  import Credentials
  import Base64
  import Utf8

  /** The constructor's arguments. The pay-bill number is interpolated into the password and
      is taken as already rendered to a string. */
  datatype Push = Push(amount: JsonValue, phoneNumber: JsonValue, accountNumber: JsonValue, payBillNumber: string)

  /** The success struct. */
  datatype Reply = Reply(merchantRequestId: JsonValue, checkoutRequestId: JsonValue, responseCode: JsonValue, responseDescription: JsonValue, customerMessage: JsonValue)

  const ReplyKeys: seq<string> := ["MerchantRequestID", "CheckoutRequestID", "ResponseCode", "ResponseDescription", "CustomerMessage"]

  const TransactionType: string := "CustomerPayBillOnline"
  const TransactionDesc: string := "Payment of X"

  const BodyKeys: set<string> :=
    {"BusinessShortCode", "Password", "Timestamp", "TransactionType", "Amount", "PartyA", "PartyB",
     "PhoneNumber", "CallBackURL", "AccountReference", "TransactionDesc"}

  function ReplyFromFields(vs: seq<JsonValue>): Reply
  {
    Reply(Field(vs, 0), Field(vs, 1), Field(vs, 2), Field(vs, 3), Field(vs, 4))
  }

  function ReplyFields(r: Reply): seq<JsonValue>
  {
    [r.merchantRequestId, r.checkoutRequestId, r.responseCode, r.responseDescription, r.customerMessage]
  }

  /** The branch of `call` after parsing: the gateway's error fields for an error reply, the
      five result fields (nil where absent) otherwise, the parser exception as itself. */
  function NormaliseReply(parsed: ParseResult): (o: Outcome<Reply>)
    ensures parsed.ParserError? ==> o == ParseError(parsed.message)
    ensures IsErrorReply(parsed) ==> o == GatewayError(ErrorFields(parsed.value.members))
    ensures IsResultReply(parsed) ==>
      var m := parsed.value.members;
      o == Success(Reply(Get(m, "MerchantRequestID"), Get(m, "CheckoutRequestID"), Get(m, "ResponseCode"),
                         Get(m, "ResponseDescription"), Get(m, "CustomerMessage")))
    ensures parsed.Parsed? && !parsed.value.JObject? ==> o == NotAnObject(parsed.value)
  {
    Normalise(parsed, ReplyKeys).Map(ReplyFromFields)
  }

  /** A gateway reply carrying a result's five fields normalises back to that result,
      unchanged. */
  lemma ReplyRoundTrip(r: Reply)
    ensures NormaliseReply(Parsed(JObject(Render(ReplyKeys, ReplyFields(r))))) == Success(r)
  {
    SuccessRoundTrip(ReplyKeys, ReplyFields(r));
  }

  /** `timestamp.to_s`. */
  function TimestampText(clock: DateTime): string
    requires Valid(clock)
  {
    Show(Timestamp(clock))
  }

  /** `password`: the pay-bill number, pass key and timestamp, Base64-encoded. */
  function PasswordText(p: Push, passKey: string, clock: DateTime): string
    requires Valid(clock)
  {
    Credentials.Password(p.payBillNumber, passKey, Timestamp(clock))
  }

  /** The body literal, given the values of `password` and `timestamp.to_s`: exactly the
      eleven keys, the pay-bill number twice, the phone number twice and the two constants. */
  function Body(p: Push, callbackUrl: string, password: string, timestamp: string): (b: Object)
    ensures b.Keys == BodyKeys
    ensures b["BusinessShortCode"] == b["PartyB"] == JString(p.payBillNumber)
    ensures b["PartyA"] == b["PhoneNumber"] == p.phoneNumber
    ensures b["TransactionType"] == JString(TransactionType) && b["TransactionDesc"] == JString(TransactionDesc)
    ensures b["Amount"] == p.amount && b["AccountReference"] == p.accountNumber
    ensures b["CallBackURL"] == JString(callbackUrl)
    ensures b["Timestamp"] == JString(timestamp)
    ensures b["Password"] == JString(password)
  {
    map[
      "BusinessShortCode" := JString(p.payBillNumber),
      "Password" := JString(password),
      "Timestamp" := JString(timestamp),
      "TransactionType" := JString(TransactionType),
      "Amount" := p.amount,
      "PartyA" := p.phoneNumber,
      "PartyB" := JString(p.payBillNumber),
      "PhoneNumber" := p.phoneNumber,
      "CallBackURL" := JString(callbackUrl),
      "AccountReference" := p.accountNumber,
      "TransactionDesc" := JString(TransactionDesc)]
  }

  /** The body `call` sends. `password` and `timestamp` each read the clock; the two
      readings are separate parameters, the password's first as the literal evaluates it
      first. */
  function Prepare(p: Push, passKey: string, callbackUrl: string, passwordClock: DateTime, timestampClock: DateTime): Object
    requires Valid(passwordClock) && Valid(timestampClock)
  {
    Body(p, callbackUrl, PasswordText(p, passKey, passwordClock), TimestampText(timestampClock))
  }

  /** A body whose Password decodes to its own BusinessShortCode, the pass key and its own
      Timestamp. */
  predicate PasswordMatches(b: Object, passKey: string)
  {
    && "BusinessShortCode" in b && b["BusinessShortCode"].JString?
    && "Timestamp" in b && b["Timestamp"].JString?
    && "Password" in b && b["Password"].JString?
    && Base64.Decode(b["Password"].s)
       == Some(Utf8.Encode(b["BusinessShortCode"].s + passKey + b["Timestamp"].s))
  }

  /** The body's password agrees with its Timestamp field exactly when both clock reads
      fall in the same second. */
  lemma PasswordMatchesIffSameSecond(p: Push, passKey: string, callbackUrl: string, c1: DateTime, c2: DateTime)
    requires Valid(c1) && Valid(c2)
    ensures PasswordMatches(Prepare(p, passKey, callbackUrl, c1, c2), passKey) <==> c1 == c2
  {
    var b := Prepare(p, passKey, callbackUrl, c1, c2);
    var t1, t2 := Timestamp(c1), Timestamp(c2);
    if PasswordMatches(b, passKey) {
      assert b["Password"].s == Credentials.Password(p.payBillNumber, passKey, t1);
      assert b["Timestamp"].s == Show(t2);
      assert Credentials.Utf8Plaintext(p.payBillNumber, passKey, t1) == Credentials.Utf8Plaintext(p.payBillNumber, passKey, t2);
      Credentials.PlaintextIdentifiesTimestamp(p.payBillNumber, passKey, t1, t2);
      TimestampInjective(c1, c2);
    }
  }

  /** From year 1000 on the Timestamp field is the 14-character `YYYYMMDDHHMMSS` string of
      the reading (through year 9999). */
  lemma TimestampField(p: Push, passKey: string, callbackUrl: string, c1: DateTime, c2: DateTime)
    requires Valid(c1) && Valid(c2) && c2.year >= 1000
    ensures Prepare(p, passKey, callbackUrl, c1, c2)["Timestamp"] == JString(Format(c2))
    ensures c2.year < 10000 ==> |Prepare(p, passKey, callbackUrl, c1, c2)["Timestamp"].s| == 14
  {
    TimestampShowsFormat(c2);
  }

  /** The inverse of Body: the constructor arguments, callback URL, password and timestamp a
      body carries, provided its keys, constants and duplicated fields are as Body writes
      them. */
  function ReadBody(b: Object): Option<(Push, string, string, string)>
  {
    if && b.Keys == BodyKeys
       && b["BusinessShortCode"].JString? && b["PartyB"] == b["BusinessShortCode"]
       && b["PhoneNumber"] == b["PartyA"]
       && b["TransactionType"] == JString(TransactionType)
       && b["TransactionDesc"] == JString(TransactionDesc)
       && b["CallBackURL"].JString? && b["Password"].JString? && b["Timestamp"].JString?
    then Some((Push(b["Amount"], b["PartyA"], b["AccountReference"], b["BusinessShortCode"].s),
               b["CallBackURL"].s, b["Password"].s, b["Timestamp"].s))
    else None
  }

  /** Reading a body recovers what built it, and only bodies built by Body are read. */
  lemma BodyRoundTrip(p: Push, callbackUrl: string, password: string, timestamp: string, b: Object)
    ensures ReadBody(Body(p, callbackUrl, password, timestamp)) == Some((p, callbackUrl, password, timestamp))
    ensures ReadBody(b) == Some((p, callbackUrl, password, timestamp)) ==> Body(p, callbackUrl, password, timestamp) == b
  {
    if ReadBody(b) == Some((p, callbackUrl, password, timestamp)) {
      var b' := Body(p, callbackUrl, password, timestamp);
      assert forall k :: k in BodyKeys ==> b'[k] == b[k];
    }
  }
}
