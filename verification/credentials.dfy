/** Password and security-credential derivation shared by the push-payment and disbursement
    operations. */
module Credentials {
  import opened Wrappers
  import opened Bytes
  import opened Decimal
  import Utf8
  import Base64

  /** The interpolated string `"#{code}#{pass_key}#{timestamp}"`. */
  function Plaintext(code: string, passKey: string, timestamp: nat): string
  {
    code + passKey + Show(timestamp)
  }

  /** The plaintext's bytes (Ruby strings are UTF-8). */
  function Utf8Plaintext(code: string, passKey: string, timestamp: nat): seq<byte>
  {
    Utf8.Encode(Plaintext(code, passKey, timestamp))
  }

  /** `Base64.strict_encode64` of the plaintext's bytes. Decoding the password gives the
      plaintext back; its length is four characters per started group of three bytes and it
      contains no line break. */
  function Password(code: string, passKey: string, timestamp: nat): (p: string)
    ensures Base64.Decode(p) == Some(Utf8Plaintext(code, passKey, timestamp))
    ensures |p| == 4 * ((|Utf8Plaintext(code, passKey, timestamp)| + 2) / 3)
    ensures forall i :: 0 <= i < |p| ==> Base64.IsEncodingChar(p[i]) && p[i] != '\n'
  {
    var bytes := Utf8Plaintext(code, passKey, timestamp);
    Base64.EncodeFacts(bytes);
    Base64.Encode(bytes)
  }

  /** The bytes handed to RSA encryption: the password's characters, one byte each. */
  function EncryptionInput(code: string, passKey: string, timestamp: nat): (pt: seq<byte>)
    ensures var p := Password(code, passKey, timestamp);
      |pt| == |p| && forall i :: 0 <= i < |p| ==> pt[i] == p[i] as int
  {
    var p := Password(code, passKey, timestamp);
    Base64.EncodeIsAscii(Utf8.Encode(Plaintext(code, passKey, timestamp)));
    Utf8.EncodeAscii(p);
    Utf8.Encode(p)
  }

  /** `Base64.strict_encode64(key.public_encrypt(password))`; the encryption is a parameter.
      Decoding the credential gives the ciphertext of the password's bytes. */
  function SecurityCredential(code: string, passKey: string, timestamp: nat, encrypt: seq<byte> -> seq<byte>): (c: string)
    ensures Base64.Decode(c) == Some(encrypt(EncryptionInput(code, passKey, timestamp)))
  {
    var ciphertext := encrypt(EncryptionInput(code, passKey, timestamp));
    Base64.DecodeEncode(ciphertext);
    Base64.Encode(ciphertext)
  }

  /** With the code and pass key fixed, the plaintext's bytes determine the timestamp. */
  lemma PlaintextIdentifiesTimestamp(code: string, passKey: string, t1: nat, t2: nat)
    ensures Utf8Plaintext(code, passKey, t1) == Utf8Plaintext(code, passKey, t2) <==> t1 == t2
  {
    if Utf8Plaintext(code, passKey, t1) == Utf8Plaintext(code, passKey, t2) {
      var prefix := code + passKey;
      var d1, d2 := Show(t1), Show(t2);
      assert Utf8.Encode(prefix + d1) == Utf8.Encode(prefix + d2);
      Utf8.EncodeConcat(prefix, d1);
      Utf8.EncodeConcat(prefix, d2);
      var e := Utf8.Encode(prefix);
      assert Utf8.Encode(d1) == (e + Utf8.Encode(d1))[|e|..] == (e + Utf8.Encode(d2))[|e|..] == Utf8.Encode(d2);
      DigitsAreAscii(d1);
      DigitsAreAscii(d2);
      Utf8.EncodeAsciiInjective(d1, d2);
      ShowInjective(t1, t2);
    }
  }

  /** With the code and pass key fixed, the password determines the timestamp and back. */
  lemma PasswordIdentifiesTimestamp(code: string, passKey: string, t1: nat, t2: nat)
    ensures Password(code, passKey, t1) == Password(code, passKey, t2) <==> t1 == t2
  {
    PlaintextIdentifiesTimestamp(code, passKey, t1, t2);
  }

  lemma DigitsAreAscii(s: string)
    requires AllDigits(s)
    ensures Utf8.IsAscii(s)
  {
  }

  /** For an injective encryption, the credential changes whenever the timestamp does. */
  lemma CredentialIdentifiesTimestamp(code: string, passKey: string, t1: nat, t2: nat, encrypt: seq<byte> -> seq<byte>)
    requires forall x, y :: encrypt(x) == encrypt(y) ==> x == y
    ensures SecurityCredential(code, passKey, t1, encrypt) == SecurityCredential(code, passKey, t2, encrypt) <==> t1 == t2
  {
    if SecurityCredential(code, passKey, t1, encrypt) == SecurityCredential(code, passKey, t2, encrypt) {
      var p1, p2 := Password(code, passKey, t1), Password(code, passKey, t2);
      var x1, x2 := EncryptionInput(code, passKey, t1), EncryptionInput(code, passKey, t2);
      assert encrypt(x1) == encrypt(x2);
      assert x1 == x2;
      assert p1 == p2 by {
        assert forall i :: 0 <= i < |p1| ==> p1[i] as int == x1[i];
      }
      PasswordIdentifiesTimestamp(code, passKey, t1, t2);
    }
  }
}
