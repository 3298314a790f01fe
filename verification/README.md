# M-Pesa client core, modelled in Dafny

The Ruby gem `mobile-pesa` wraps four calls of the M-Pesa sandbox API, one class each:

- `B2cPayment`: business-to-customer disbursement;
- `StkPushViaPaybillNumber`: an STK push to a pay-bill number;
- `RegisterUrls`: registers the confirmation and validation URLs of a short code;
- `SimulateC2bViaTillNumber`: simulates a customer paying a till number.

Each class does the same three pure things around one HTTP request:

- it builds a JSON request body from its constructor arguments;
- where needed, it derives a password and a timestamp from the clock and the configured pass key;
- it turns the parsed reply into an `OpenStruct` whose `result` or `error` is set.

This project models those three pieces and proves properties about them.

## Modules

- `Wrappers`: `Option` and `Result`.
- `Json`: JSON values and objects. A missing key reads as nil (`JNull`), as `parsed_body["k"]` does.
- `Normaliser`: the reply branch that all four classes share.
  - It is written once, over an object and a list of result keys.
  - The `Outcome` is `Success`, `GatewayError` or `ParseError`.
  - `NotAnObject` covers a document that is not a JSON object. There `.key?` raises NoMethodError, which nothing rescues.
  - `ResultAttribute` and `ErrorAttribute` are the struct's two attributes.
  - `Render` and `RenderError` build a gateway reply object from given values. They model nothing the client does; they are the inputs for the round-trip lemmas.
- `HashLiteral`: how Ruby evaluates a hash literal. Entries go left to right, and a name that resolves to nothing raises NameError.
- `Decimal`: `Integer#to_s`, `String#to_i` on digit strings, and zero padding.
- `Clock`: the `strftime('%Y%m%d%H%M%S').to_i` timestamp over a calendar reading.
- `Utf8`: the bytes of a Ruby string.
- `Base64`: strict Base64 as defined in section 4 of RFC 4648. It uses the standard alphabet and `=` padding, with no line breaks. It has a canonical decoder as its inverse.
- `Credentials`: the password `strict_encode64("#{code}#{pass_key}#{timestamp}")` and the security credential `strict_encode64(public_encrypt(password))`.
- `B2cPayment`, `StkPushViaPaybillNumber`, `RegisterUrls`, `SimulateC2bViaTillNumber`: one module per class. Each has the reply record, the normaliser instance and the body builder. The B2C and STK modules also have the password, timestamp and credential wiring.

### Parameters standing in for the environment

- The clock reading, the pass key, the callback URL and the parser are all parameters.
- A parse result is either a JSON value or a `ParserError`.
- RSA `public_encrypt` is a function parameter `encrypt` on bytes.

## Model

| member | source | states |
|---|---|---|
| Normaliser.Normalise | lib/m/pesa/b2c_payment.rb:39-53 | A parse failure gives ParseError carrying the exception, and nothing else does. A non-object document raises. An object with `errorCode` gives the error record of `errorCode`, `errorMessage` and `requestId`. Any other object gives the listed keys' values in order, nil where absent. |
| Normaliser.ExactlyOneAttribute | lib/m/pesa/b2c_payment.rb:39-53 | Every struct the normaliser returns has exactly one of `result` and `error` non-nil. A parse failure has nil result and the exception as error. The normaliser raises exactly when the parsed document is not a JSON object; `call` can raise before it (token, transport, and in B2C always the body's NameError). |
| Normaliser.DecidedByKeyPresence | lib/m/pesa/b2c_payment.rb:39 | Any value under `errorCode` makes the reply an error, with that value as its code. Removing the key makes it a success. |
| Normaliser.StatusIgnored | lib/m/pesa/b2c_payment.rb:36-39 | The outcome depends on the response body only, never on the HTTP status. |
| Normaliser.SuccessRoundTrip | lib/m/pesa/b2c_payment.rb:42-49 | An object holding given values under distinct result keys, without `errorCode`, normalises to exactly those values. |
| Normaliser.ErrorRoundTrip | lib/m/pesa/b2c_payment.rb:39-41 | An object built from an error record normalises to that record. |
| HashLiteral.Evaluate | lib/m/pesa/b2c_payment.rb:61-73 | A literal builds exactly when every expression is defined. It then holds exactly the written keys with their values. Otherwise it raises NameError on an undefined name preceded only by defined ones. |
| HashLiteral.RaisesLeftmost | lib/m/pesa/b2c_payment.rb:61-73 | The NameError names the leftmost undefined expression, whatever follows it. |
| HashLiteral.EvaluateDefined | lib/m/pesa/b2c_payment.rb:61-73 | A literal whose expressions are all defined builds the hash of its entries assigned left to right. |
| HashLiteral.AssignStep | lib/m/pesa/b2c_payment.rb:61-73 | Each further entry of a literal sets its key to its value in the hash built so far. |
| B2cPayment.NormaliseReply | lib/m/pesa/b2c_payment.rb:39-53 | The B2C instance. A result holds `ConversationID`, `OriginatorConversationID`, `ResponseCode` and `ResponseDescription`, nil where absent. Error and parse outcomes are as in Normalise. |
| B2cPayment.ReplyRoundTrip | lib/m/pesa/b2c_payment.rb:42-49 | A reply carrying a result's four fields normalises back to that result. |
| B2cPayment.BodyAsWritten | lib/m/pesa/b2c_payment.rb:61-73 | Once `security_credential` succeeds, the body as written raises NameError on `remarks`, so the payment request is never sent. |
| B2cPayment.CorrectedEntries | lib/m/pesa/b2c_payment.rb:61-73 | The corrected literal has the written literal's first six entries unchanged and its ten keys in the same order. Each of the last four entries holds the value Body has under its key, so the caller's values replace the four undefined names. |
| B2cPayment.CorrectedLiteral | lib/m/pesa/b2c_payment.rb:61-73 | Evaluating the corrected literal raises nothing and builds exactly Body. |
| B2cPayment.CorrectedAssignAll | lib/m/pesa/b2c_payment.rb:61-73 | Assigning the corrected literal's entries left to right gives exactly Body, key by key. |
| B2cPayment.Body | lib/m/pesa/b2c_payment.rb:61-73 | With the four missing values supplied, the body has exactly its ten keys. InitiatorName is "M-pesa Gem", PartyA is the short code, PartyB the phone number, and CommandID and Amount are as given. |
| B2cPayment.BodyRoundTrip | lib/m/pesa/b2c_payment.rb:61-73 | Reading a body gives back the payment, extras and credential that built it, and only built bodies are read. |
| B2cPayment.BodyCredential | lib/m/pesa/b2c_payment.rb:64-86 | The body's SecurityCredential decodes to the encryption of the password. That password decodes to PartyA, the pass key and the timestamp. |
| B2cPayment.CredentialFresh | lib/m/pesa/b2c_payment.rb:76-90 | With an injective encryption, two clock readings give the same credential exactly when they are the same second. |
| Credentials.Password | lib/m/pesa/b2c_payment.rb:84-86 | The password decodes to the UTF-8 bytes of code, pass key and decimal timestamp. Its length is 4*ceil(n/3) of those n bytes. Every character is in the Base64 alphabet or `=`, and none is a newline. |
| Credentials.EncryptionInput | lib/m/pesa/b2c_payment.rb:81 | The bytes handed to `public_encrypt` are the password's characters, one byte each. |
| Credentials.SecurityCredential | lib/m/pesa/b2c_payment.rb:76-82 | The credential decodes to the encryption of the password's bytes. |
| Credentials.PlaintextIdentifiesTimestamp | lib/m/pesa/b2c_payment.rb:85 | For a fixed code and pass key, the interpolated bytes are equal exactly when the timestamps are. |
| Credentials.PasswordIdentifiesTimestamp | lib/m/pesa/b2c_payment.rb:84-86 | For a fixed code and pass key, two passwords are equal exactly when their timestamps are. |
| Credentials.CredentialIdentifiesTimestamp | lib/m/pesa/b2c_payment.rb:76-86 | With an injective encryption, two credentials are equal exactly when their timestamps are. |
| Base64.DecodeEncode | lib/m/pesa/b2c_payment.rb:85 | Decoding the strict encoding of any bytes gives the bytes back. |
| Base64.EncodeDecode | lib/m/pesa/b2c_payment.rb:85 | Any string the canonical decoder accepts is the strict encoding of what it decodes to. |
| Base64.DecodeIffEncode | lib/m/pesa/b2c_payment.rb:85 | A string decodes to some bytes exactly when it is their strict encoding. |
| Base64.EncodeLength | lib/m/pesa/b2c_payment.rb:85 | The encoding of n bytes has 4*ceil(n/3) characters. |
| Base64.EncodeCharacters | lib/m/pesa/b2c_payment.rb:85 | Every character of an encoding is in the alphabet or is `=`, so none is a line break. |
| Base64.EncodeInjective | lib/m/pesa/b2c_payment.rb:85 | Distinct byte strings have distinct encodings. |
| Base64.GroupCanonical | lib/m/pesa/b2c_payment.rb:85 | A quantum the decoder accepts has bits that re-encode to exactly its four characters. |
| Utf8.EncodeConcat | lib/m/pesa/b2c_payment.rb:85 | The bytes of an interpolation are the bytes of its parts, in order. |
| Utf8.EncodeAscii | lib/m/pesa/b2c_payment.rb:85 | An ASCII string encodes to one byte per character, equal to its code. |
| Decimal.ValueShow | lib/m/pesa/b2c_payment.rb:85-89 | `n.to_s.to_i == n` for every non-negative n. |
| Decimal.ShowInjective | lib/m/pesa/b2c_payment.rb:85 | Two numbers render alike exactly when they are equal. |
| Decimal.ValueConcat | lib/m/pesa/b2c_payment.rb:89 | Reading a concatenation of digit strings shifts the prefix's value left by the suffix's length. |
| Decimal.ValuePad | lib/m/pesa/b2c_payment.rb:89 | Zero padding does not change a field's value. |
| Decimal.ShowValue | lib/m/pesa/b2c_payment.rb:89 | A digit string without a leading zero renders back from its value unchanged. |
| Clock.Format | lib/m/pesa/b2c_payment.rb:89 | The strftime string is all digits, and 14 characters long up to year 9999. |
| Clock.TimestampIsNumeric | lib/m/pesa/b2c_payment.rb:88-90 | The timestamp equals Y*10^10 + Mo*10^8 + D*10^6 + h*10^4 + mi*10^2 + s. |
| Clock.TimestampShowsFormat | lib/m/pesa/b2c_payment.rb:88-90 | From year 1000 on, the timestamp's decimal rendering is exactly the strftime string (14 characters up to year 9999). |
| Clock.EarlyYearLosesDigits | lib/m/pesa/b2c_payment.rb:88-90 | Before year 1000 the rendering is shorter than 14 characters and differs from the strftime string. |
| Clock.TimestampInjective | lib/m/pesa/b2c_payment.rb:88-90 | Two valid readings give the same timestamp exactly when they are the same reading. |
| Clock.NumericDigits | lib/m/pesa/b2c_payment.rb:89 | Each calendar field can be read back off the numeric timestamp. |
| StkPushViaPaybillNumber.NormaliseReply | lib/m/pesa/stk_push_via_paybill_number.rb:39-54 | A result holds `MerchantRequestID`, `CheckoutRequestID`, `ResponseCode`, `ResponseDescription` and `CustomerMessage`, nil where absent. Error and parse outcomes are as in Normalise. |
| StkPushViaPaybillNumber.ReplyRoundTrip | lib/m/pesa/stk_push_via_paybill_number.rb:42-50 | A reply carrying a result's five fields normalises back to it unchanged. |
| StkPushViaPaybillNumber.Body | lib/m/pesa/stk_push_via_paybill_number.rb:62-76 | The body has exactly the eleven keys. BusinessShortCode = PartyB = the pay-bill number, and PartyA = PhoneNumber = the phone number. TransactionType and TransactionDesc are the constants. CallBackURL is the configured URL, and AccountReference is the account number. |
| StkPushViaPaybillNumber.BodyRoundTrip | lib/m/pesa/stk_push_via_paybill_number.rb:62-76 | Reading a body gives back the push, callback URL, password and timestamp that built it, and only built bodies are read. |
| StkPushViaPaybillNumber.PasswordMatchesIffSameSecond | lib/m/pesa/stk_push_via_paybill_number.rb:65-84 | The Password field decodes to BusinessShortCode, the pass key and the Timestamp field exactly when the two clock reads return the same second. |
| StkPushViaPaybillNumber.TimestampField | lib/m/pesa/stk_push_via_paybill_number.rb:66-84 | From year 1000 on, the Timestamp field is the strftime string of its reading (14 characters up to year 9999). |
| RegisterUrls.NormaliseReply | lib/mobile/pesa/register_urls.rb:40-56 | As written: a result's identifier is read from the misspelled key `OriginatorConverstionID`, with `ResponseCode` and `ResponseDescription`. Error and parse outcomes are as in Normalise. |
| RegisterUrls.ReplyRoundTrip | lib/mobile/pesa/register_urls.rb:47-53 | A reply using the misspelled key round-trips through the class as written. |
| RegisterUrls.MisspelledKeyDropsIdentifier | lib/mobile/pesa/register_urls.rb:49 | A reply spelled `OriginatorConversationID` comes back with a nil identifier and the other two fields intact. |
| RegisterUrls.NormaliseReplyCorrected | lib/mobile/pesa/register_urls.rb:40-56 | The same branch reading `OriginatorConversationID`. |
| RegisterUrls.CorrectedReplyRoundTrip | lib/mobile/pesa/register_urls.rb:47-53 | With `OriginatorConversationID`, the spelling `lib/m/pesa/b2c_payment.rb:45` reads, every result field survives, the identifier included. |
| RegisterUrls.Body | lib/mobile/pesa/register_urls.rb:65-72 | The body has exactly ShortCode, ResponseType, ConfirmationURL and ValidationURL, each its constructor argument. |
| RegisterUrls.BodyRoundTrip | lib/mobile/pesa/register_urls.rb:65-72 | Reading a body gives back the registration, and only built bodies are read. |
| RegisterUrls.ResponseTypeUnchecked | lib/mobile/pesa/register_urls.rb:68 | Any response type, documented or not, is sent as given, and changing it changes no other field. |
| SimulateC2bViaTillNumber.NormaliseReply | lib/mobile/pesa/simulate_c2b_via_till_number.rb:39-57 | A result holds the five STK-style fields, nil where absent. Error and parse outcomes are as in Normalise. |
| SimulateC2bViaTillNumber.ReplyRoundTrip | lib/mobile/pesa/simulate_c2b_via_till_number.rb:46-54 | A reply carrying a result's five fields normalises back to it. |
| SimulateC2bViaTillNumber.ErrorReplyRoundTrip | lib/mobile/pesa/simulate_c2b_via_till_number.rb:39-45 | An error reply normalises to its three error fields. |
| SimulateC2bViaTillNumber.Body | lib/mobile/pesa/simulate_c2b_via_till_number.rb:66-73 | The body has exactly four keys: ShortCode is the till number, Msisdn the phone number, Amount the amount, and CommandID "CustomerBuyGoodsOnline". |
| SimulateC2bViaTillNumber.BodyRoundTrip | lib/mobile/pesa/simulate_c2b_via_till_number.rb:66-73 | Reading a body gives back the simulation, and only built bodies are read. |

## Left out

- Net::HTTP transport, the hard-coded sandbox URLs and the request headers: these are I/O.
- `Authorization.call` and the bearer token: that class is not part of this model.
- TLS: every class sets `verify_mode = OpenSSL::SSL::VERIFY_NONE` (for example `lib/m/pesa/b2c_payment.rb:29`). This disables certificate checking. It is a security defect with no pure behaviour to state, so it is not modelled.
- `JSON.parse` and `JSON.dump`: parsing is an oracle returning a JSON value or a `ParserError`. Serialising the body is not modelled.
- JSON numbers are integers only (`Json.JNumber`): a float such as `1.5` from `JSON.parse`, or an `amount: 10.5` from a caller, is not representable. No property depends on it, as numbers only pass through.
- Exceptions that `call` raises before the reply branch (the token request, the transport, and in B2C the body's NameError) are not outcomes of `Normaliser.Normalise`; only the B2C body's NameError is modelled (`B2cPayment.BodyAsWritten`).
- Certificate loading, `File.read` and RSA `public_encrypt` (`lib/m/pesa/b2c_payment.rb:76-82`): these are file I/O and foreign cryptography. The encryption is a function parameter on bytes. Real PKCS#1 v1.5 padding is randomised, so `CredentialFresh` and `CredentialIdentifiesTimestamp` assume an injective, deterministic function.
- `Time.now` and the configuration singleton: clock readings, the pass key and the callback URL are parameters.
- Time zones, and years outside what `Time` renders with `%Y`:
  - a reading is a calendar value with a non-negative year;
  - negative years (a leading `-`) are not modelled.
- `String#to_i` on strings that are not all digits: `strftime` with these directives only produces digits.
- `B2cPayment.Body`, `StkPushViaPaybillNumber.Body`, `RegisterUrls.Body`, `SimulateC2bViaTillNumber.Body`:
  - the interpolated identifiers (`short_code`, `pay_bill_number`) are typed as strings rather than as arbitrary objects rendered by `to_s`;
  - every other constructor argument is an arbitrary JSON value.
- `StkPushViaPaybillNumber.Prepare`: the two clock reads are separate parameters rather than one. The same-second condition is then an if-and-only-if (`PasswordMatchesIffSameSecond`) rather than a precondition.
- `RegisterUrls.NormaliseReplyCorrected`: the source does not establish how the register-URL reply spells the conversation identifier. The corrected key is the spelling `lib/m/pesa/b2c_payment.rb:45` reads, which is an inference from another endpoint.
- `Normaliser.NotAnObject`: a document that is a JSON scalar or array makes `.key?` raise NoMethodError, which `call` does not rescue. It is modelled as an outcome that raises, not as a struct.

## Findings

| source | as written | input that shows it | evidently intended | confidence | as-written member | corrected member |
|---|---|---|---|---|---|---|
| lib/mobile/pesa/register_urls.rb:49 | the result's identifier is read from `parsed_body["OriginatorConverstionID"]` | a success reply spelled `{"OriginatorConversationID": "x", "ResponseCode": "0", "ResponseDescription": "ok"}` yields `originator_converstion_id == nil` | read `OriginatorConversationID`, the spelling `lib/m/pesa/b2c_payment.rb:45` reads; the source does not establish how this endpoint's reply spells the key | high; not executed | RegisterUrls.MisspelledKeyDropsIdentifier | RegisterUrls.CorrectedReplyRoundTrip |
| lib/m/pesa/b2c_payment.rb:69-72 | the body names `remarks`, `timeout_url`, `result_url` and `occasion`, which the class never defines | any payment: once the token is fetched and `security_credential` succeeds, building the body raises NameError on `remarks`, so the payment request is never sent | take the four values from the caller, like the other constructor arguments | high; not executed | B2cPayment.BodyAsWritten | B2cPayment.CorrectedLiteral |
