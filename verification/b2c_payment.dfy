/** `B2cPayment`: business-to-customer disbursement. */
module B2cPayment {
  import opened Wrappers
  import opened Json
  import opened Normaliser
  import opened HashLiteral
  import opened Clock
  import opened Bytes
  import Credentials
  import Base64

  /** The constructor's arguments. The short code is interpolated into the password and is
      taken as already rendered to a string. */
  datatype Payment = Payment(amount: JsonValue, phoneNumber: JsonValue, shortCode: string, commandId: JsonValue)

  /** The four body values the class names but never defines. */
  datatype Extras = Extras(remarks: JsonValue, timeoutUrl: JsonValue, resultUrl: JsonValue, occasion: JsonValue)

  /** The success struct. */
  datatype Reply = Reply(conversationId: JsonValue, originatorConversationId: JsonValue, responseCode: JsonValue, responseDescription: JsonValue)

  const ReplyKeys: seq<string> := ["ConversationID", "OriginatorConversationID", "ResponseCode", "ResponseDescription"]

  const InitiatorName: string := "M-pesa Gem"

  const BodyKeys: set<string> :=
    {"InitiatorName", "SecurityCredential", "CommandID", "Amount", "PartyA", "PartyB", "Remarks", "QueueTimeOutURL", "ResultURL", "Occasion"}

  function ReplyFromFields(vs: seq<JsonValue>): Reply
  {
    Reply(Field(vs, 0), Field(vs, 1), Field(vs, 2), Field(vs, 3))
  }

  function ReplyFields(r: Reply): seq<JsonValue>
  {
    [r.conversationId, r.originatorConversationId, r.responseCode, r.responseDescription]
  }

  /** The branch of `call` after parsing: an error reply gives the gateway's three error
      fields, any other object gives the four result fields (nil where absent), and a parser
      exception is reported as itself. */
  function NormaliseReply(parsed: ParseResult): (o: Outcome<Reply>)
    ensures parsed.ParserError? ==> o == ParseError(parsed.message)
    ensures IsErrorReply(parsed) ==> o == GatewayError(ErrorFields(parsed.value.members))
    ensures IsResultReply(parsed) ==>
      var m := parsed.value.members;
      o == Success(Reply(Get(m, "ConversationID"), Get(m, "OriginatorConversationID"), Get(m, "ResponseCode"), Get(m, "ResponseDescription")))
    ensures parsed.Parsed? && !parsed.value.JObject? ==> o == NotAnObject(parsed.value)
  {
    Normalise(parsed, ReplyKeys).Map(ReplyFromFields)
  }

  /** A gateway reply carrying a result's four fields normalises back to that result. */
  lemma ReplyRoundTrip(r: Reply)
    ensures NormaliseReply(Parsed(JObject(Render(ReplyKeys, ReplyFields(r))))) == Success(r)
  {
    SuccessRoundTrip(ReplyKeys, ReplyFields(r));
  }

  /** The body literal's entries, in the order it writes them; the last four are names the
      class never defines. */
  function WrittenEntries(p: Payment, credential: string): seq<Entry>
  {
    [ Entry("InitiatorName", Value(JString(InitiatorName))),
      Entry("SecurityCredential", Value(JString(credential))),
      Entry("CommandID", Value(p.commandId)),
      Entry("Amount", Value(p.amount)),
      Entry("PartyA", Value(JString(p.shortCode))),
      Entry("PartyB", Value(p.phoneNumber)),
      Entry("Remarks", Undefined("remarks")),
      Entry("QueueTimeOutURL", Undefined("timeout_url")),
      Entry("ResultURL", Undefined("result_url")),
      Entry("Occasion", Undefined("occasion")) ]
  }

  /** The literal with the four undefined names replaced by the caller's values: the same
      entries as WrittenEntries up to `PartyB`, and the same keys throughout, in order. */
  function CorrectedEntries(p: Payment, x: Extras, credential: string): (es: seq<Entry>)
    ensures |es| == 10 && es[..6] == WrittenEntries(p, credential)[..6]
    ensures forall i :: 6 <= i < 10 ==> es[i].key == WrittenEntries(p, credential)[i].key
    ensures forall i :: 6 <= i < 10 ==> es[i].expr == Value(Body(p, x, credential)[es[i].key])
  {
    [ Entry("InitiatorName", Value(JString(InitiatorName))),
      Entry("SecurityCredential", Value(JString(credential))),
      Entry("CommandID", Value(p.commandId)),
      Entry("Amount", Value(p.amount)),
      Entry("PartyA", Value(JString(p.shortCode))),
      Entry("PartyB", Value(p.phoneNumber)),
      Entry("Remarks", Value(x.remarks)),
      Entry("QueueTimeOutURL", Value(x.timeoutUrl)),
      Entry("ResultURL", Value(x.resultUrl)),
      Entry("Occasion", Value(x.occasion)) ]
  }

  /** The body as the class writes it, given the credential: `remarks`, `timeout_url`,
      `result_url` and `occasion` resolve to nothing. `call` fetches the token first, and
      `security_credential` is evaluated before `remarks` and can raise on its own; once it
      succeeds, building the body raises NameError on `remarks`, the first of the four, and
      the payment request is never sent. */
  function BodyAsWritten(p: Payment, credential: string): (r: Result<Object, RaisedError>)
    ensures r == Raised(NameError("remarks"))
  {
    var entries := WrittenEntries(p, credential);
    assert Defined(entries[..6]);
    RaisesLeftmost(entries, 6);
    Evaluate(entries)
  }

  /** The body with the four missing values supplied by the caller: exactly the ten keys,
      the constant initiator name, PartyA the short code and PartyB the phone number. */
  function Body(p: Payment, x: Extras, credential: string): (b: Object)
    ensures b.Keys == BodyKeys
    ensures b["InitiatorName"] == JString(InitiatorName)
    ensures b["SecurityCredential"] == JString(credential)
    ensures b["CommandID"] == p.commandId && b["Amount"] == p.amount
    ensures b["PartyA"] == JString(p.shortCode) && b["PartyB"] == p.phoneNumber
    ensures b["Remarks"] == x.remarks && b["QueueTimeOutURL"] == x.timeoutUrl
    ensures b["ResultURL"] == x.resultUrl && b["Occasion"] == x.occasion
  {
    map[
      "InitiatorName" := JString(InitiatorName),
      "SecurityCredential" := JString(credential),
      "CommandID" := p.commandId,
      "Amount" := p.amount,
      "PartyA" := JString(p.shortCode),
      "PartyB" := p.phoneNumber,
      "Remarks" := x.remarks,
      "QueueTimeOutURL" := x.timeoutUrl,
      "ResultURL" := x.resultUrl,
      "Occasion" := x.occasion]
  }

  /** Evaluating the corrected literal builds exactly Body, entry by entry. */
  lemma CorrectedLiteral(p: Payment, x: Extras, credential: string)
    ensures Evaluate(CorrectedEntries(p, x, credential)) == Ok(Body(p, x, credential))
  {
    var es := CorrectedEntries(p, x, credential);
    assert Defined(es);
    EvaluateDefined(es);
    CorrectedAssignAll(p, x, credential);
  }

  lemma CorrectedAssignAll(p: Payment, x: Extras, credential: string)
    ensures Assign(CorrectedEntries(p, x, credential)) == Body(p, x, credential)
  {
    var es := CorrectedEntries(p, x, credential);
    CorrectedAssignUpTo8(p, x, credential);
    AssignStep(es, 8);
    AssignStep(es, 9);
    assert es[..10] == es;
  }

  lemma CorrectedAssignUpTo8(p: Payment, x: Extras, credential: string)
    ensures Assign(CorrectedEntries(p, x, credential)[..8]) == map[
      "InitiatorName" := JString(InitiatorName),
      "SecurityCredential" := JString(credential),
      "CommandID" := p.commandId,
      "Amount" := p.amount,
      "PartyA" := JString(p.shortCode),
      "PartyB" := p.phoneNumber,
      "Remarks" := x.remarks,
      "QueueTimeOutURL" := x.timeoutUrl]
  {
    var es := CorrectedEntries(p, x, credential);
    CorrectedAssignUpTo6(p, x, credential);
    AssignStep(es, 6);
    AssignStep(es, 7);
  }

  lemma CorrectedAssignUpTo6(p: Payment, x: Extras, credential: string)
    ensures Assign(CorrectedEntries(p, x, credential)[..6]) == map[
      "InitiatorName" := JString(InitiatorName),
      "SecurityCredential" := JString(credential),
      "CommandID" := p.commandId,
      "Amount" := p.amount,
      "PartyA" := JString(p.shortCode),
      "PartyB" := p.phoneNumber]
  {
    var es := CorrectedEntries(p, x, credential);
    CorrectedAssignUpTo3(p, x, credential);
    AssignStep(es, 3);
    AssignStep(es, 4);
    AssignStep(es, 5);
  }

  lemma CorrectedAssignUpTo3(p: Payment, x: Extras, credential: string)
    ensures Assign(CorrectedEntries(p, x, credential)[..3]) == map[
      "InitiatorName" := JString(InitiatorName),
      "SecurityCredential" := JString(credential),
      "CommandID" := p.commandId]
  {
    var es := CorrectedEntries(p, x, credential);
    assert es[..0] == [];
    AssignStep(es, 0);
    AssignStep(es, 1);
    AssignStep(es, 2);
  }

  /** The inverse of Body: the constructor arguments, extras and credential a body carries,
      provided it has exactly the body's keys and constant. */
  function ReadBody(b: Object): Option<(Payment, Extras, string)>
  {
    if b.Keys == BodyKeys && b["InitiatorName"] == JString(InitiatorName)
       && b["SecurityCredential"].JString? && b["PartyA"].JString? then
      Some((Payment(b["Amount"], b["PartyB"], b["PartyA"].s, b["CommandID"]),
            Extras(b["Remarks"], b["QueueTimeOutURL"], b["ResultURL"], b["Occasion"]),
            b["SecurityCredential"].s))
    else None
  }

  /** Reading a body recovers what built it, and only bodies built by Body are read. */
  lemma BodyRoundTrip(p: Payment, x: Extras, credential: string, b: Object)
    ensures ReadBody(Body(p, x, credential)) == Some((p, x, credential))
    ensures ReadBody(b) == Some((p, x, credential)) ==> Body(p, x, credential) == b
  {
    if ReadBody(b) == Some((p, x, credential)) {
      var b' := Body(p, x, credential);
      assert forall k :: k in BodyKeys ==> b'[k] == b[k];
    }
  }

  /** `security_credential` over one clock reading and an encryption parameter. */
  function Credential(p: Payment, passKey: string, clock: DateTime, encrypt: seq<byte> -> seq<byte>): string
    requires Valid(clock)
  {
    Credentials.SecurityCredential(p.shortCode, passKey, Timestamp(clock), encrypt)
  }

  /** The credential in the body decodes to the ciphertext of the password, and that password
      decodes to PartyA, the pass key and the timestamp. */
  lemma BodyCredential(p: Payment, x: Extras, passKey: string, clock: DateTime, encrypt: seq<byte> -> seq<byte>)
    requires Valid(clock)
    ensures var b := Body(p, x, Credential(p, passKey, clock, encrypt));
      && b["SecurityCredential"].JString?
      && Base64.Decode(b["SecurityCredential"].s)
         == Some(encrypt(Credentials.EncryptionInput(b["PartyA"].s, passKey, Timestamp(clock))))
      && Base64.Decode(Credentials.Password(b["PartyA"].s, passKey, Timestamp(clock)))
         == Some(Credentials.Utf8Plaintext(b["PartyA"].s, passKey, Timestamp(clock)))
  {
  }

  /** With an injective encryption, readings in distinct seconds give distinct credentials. */
  lemma CredentialFresh(p: Payment, passKey: string, c1: DateTime, c2: DateTime, encrypt: seq<byte> -> seq<byte>)
    requires Valid(c1) && Valid(c2)
    requires forall u, v :: encrypt(u) == encrypt(v) ==> u == v
    ensures Credential(p, passKey, c1, encrypt) == Credential(p, passKey, c2, encrypt) <==> c1 == c2
  {
    Credentials.CredentialIdentifiesTimestamp(p.shortCode, passKey, Timestamp(c1), Timestamp(c2), encrypt);
    TimestampInjective(c1, c2);
  }
}
