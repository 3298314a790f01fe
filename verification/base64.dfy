/** Strict Base64 (section 4 of RFC 4648): the standard alphabet, `=` padding and no line
    breaks, as Ruby's `Base64.strict_encode64` produces it, with the matching canonical
    decoder (section 3.5: the padding bits must be zero). */
module Base64 {
  import opened Wrappers
  import opened Bytes

  type index = x: int | 0 <= x < 64

  predicate IsAlphabetChar(c: char)
  {
    ('A' <= c <= 'Z') || ('a' <= c <= 'z') || ('0' <= c <= '9') || c == '+' || c == '/'
  }

  /** A character strict Base64 output may contain. */
  predicate IsEncodingChar(c: char)
  {
    IsAlphabetChar(c) || c == '='
  }

  /** Table 1 of RFC 4648: the character for a 6-bit value. */
  function IndexChar(i: index): (c: char)
    ensures IsAlphabetChar(c)
  {
    if i < 26 then (65 + i) as char
    else if i < 52 then (97 + i - 26) as char
    else if i < 62 then (48 + i - 52) as char
    else if i == 62 then '+'
    else '/'
  }

  /** The inverse of Table 1. */
  function CharIndex(c: char): (i: index)
    requires IsAlphabetChar(c)
    ensures IndexChar(i) == c
  {
    if 'A' <= c <= 'Z' then c as int - 65
    else if 'a' <= c <= 'z' then c as int - 97 + 26
    else if '0' <= c <= '9' then c as int - 48 + 52
    else if c == '+' then 62
    else 63
  }

  lemma CharIndexOfIndexChar(i: index)
    ensures CharIndex(IndexChar(i)) == i
  {
  }

  /** A 24-bit group as four 6-bit values, most significant first. */
  datatype Sextets = Sextets(s0: index, s1: index, s2: index, s3: index)

  /** A 24-bit group as three octets, most significant first. */
  datatype Octets = Octets(o0: byte, o1: byte, o2: byte)

  function Split(o: Octets): Sextets
  {
    Sextets(o.o0 / 4, (o.o0 % 4) * 16 + o.o1 / 16, (o.o1 % 16) * 4 + o.o2 / 64, o.o2 % 64)
  }

  function Join(s: Sextets): Octets
  {
    Octets(s.s0 * 4 + s.s1 / 16, (s.s1 % 16) * 16 + s.s2 / 4, (s.s2 % 4) * 64 + s.s3)
  }

  lemma JoinSplit(o: Octets)
    ensures Join(Split(o)) == o
  {
    var s := Split(o);
    assert s.s1 / 16 == o.o0 % 4 && s.s1 % 16 == o.o1 / 16;
    assert s.s2 / 4 == o.o1 % 16 && s.s2 % 4 == o.o2 / 64;
  }

  lemma SplitJoin(s: Sextets)
    ensures Split(Join(s)) == s
  {
    var o := Join(s);
    assert o.o0 / 4 == s.s0 && o.o0 % 4 == s.s1 / 16;
    assert o.o1 / 16 == s.s1 % 16 && o.o1 % 16 == s.s2 / 4;
    assert o.o2 / 64 == s.s2 % 4 && o.o2 % 64 == s.s3;
  }

  /** The characters of the final group of `n` (1 to 3) bytes, padded to four with `=`. */
  function EncodeGroup(o: Octets, n: nat): seq<char>
    requires 1 <= n <= 3
  {
    var s := Split(o);
    if n == 3 then [IndexChar(s.s0), IndexChar(s.s1), IndexChar(s.s2), IndexChar(s.s3)]
    else if n == 2 then [IndexChar(s.s0), IndexChar(s.s1), IndexChar(s.s2), '=']
    else [IndexChar(s.s0), IndexChar(s.s1), '=', '=']
  }

  /** The group holding the first up to three bytes, zero-filled. */
  function Group(b: seq<byte>): Octets
    requires 1 <= |b|
  {
    Octets(b[0], if |b| > 1 then b[1] else 0, if |b| > 2 then b[2] else 0)
  }

  /** `Base64.strict_encode64`. */
  function Encode(b: seq<byte>): (s: string)
    decreases |b|
  {
    if |b| == 0 then []
    else if |b| <= 3 then EncodeGroup(Group(b), |b|)
    else EncodeGroup(Group(b), 3) + Encode(b[3..])
  }

  /** The octets of one group of four characters, with the number of bytes it carries; None
      unless its characters are alphabet characters, optionally followed by one or two `=`
      (only where `last`) with zero padding bits. */
  function DecodeGroup(c0: char, c1: char, c2: char, c3: char, last: bool): Option<seq<byte>>
  {
    if !(IsAlphabetChar(c0) && IsAlphabetChar(c1)) then None
    else if IsAlphabetChar(c2) && IsAlphabetChar(c3) then
      var o := Join(Sextets(CharIndex(c0), CharIndex(c1), CharIndex(c2), CharIndex(c3)));
      Some([o.o0, o.o1, o.o2])
    else if !last || c3 != '=' then None
    else if IsAlphabetChar(c2) then
      var o := Join(Sextets(CharIndex(c0), CharIndex(c1), CharIndex(c2), 0));
      if o.o2 == 0 then Some([o.o0, o.o1]) else None
    else if c2 == '=' then
      var o := Join(Sextets(CharIndex(c0), CharIndex(c1), 0, 0));
      if o.o1 == 0 && o.o2 == 0 then Some([o.o0]) else None
    else None
  }

  /** Strict decoding (`Base64.strict_decode64`): None for anything strict encoding cannot
      produce. */
  function Decode(s: string): Option<seq<byte>>
    decreases |s|
  {
    if |s| == 0 then Some([])
    else if |s| < 4 then None
    else
      match DecodeGroup(s[0], s[1], s[2], s[3], |s| == 4)
      case None => None
      case Some(head) =>
        if |s| == 4 then Some(head)
        else
          match Decode(s[4..])
          case None => None
          case Some(tail) => Some(head + tail)
  }

  /** One group round-trips. */
  lemma {:induction false} GroupRoundTrip(b: seq<byte>, last: bool)
    requires 1 <= |b| <= 3
    requires |b| < 3 ==> last
    ensures var e := EncodeGroup(Group(b), |b|); DecodeGroup(e[0], e[1], e[2], e[3], last) == Some(b)
  {
    var o := Group(b);
    var s := Split(o);
    JoinSplit(o);
    CharIndexOfIndexChar(s.s0);
    CharIndexOfIndexChar(s.s1);
    CharIndexOfIndexChar(s.s2);
    CharIndexOfIndexChar(s.s3);
    if |b| == 2 {
      assert s.s3 == 0;
      assert [o.o0, o.o1] == b;
    } else if |b| == 1 {
      assert s.s2 == 0 && s.s3 == 0;
      assert [o.o0] == b;
    } else {
      assert [o.o0, o.o1, o.o2] == b;
    }
  }

  /** Decoding a string of at least two groups. */
  lemma {:induction false} DecodeCons(head: string, rest: string, h: seq<byte>, t: seq<byte>)
    requires |head| == 4 && |rest| >= 4
    requires DecodeGroup(head[0], head[1], head[2], head[3], false) == Some(h)
    requires Decode(rest) == Some(t)
    ensures Decode(head + rest) == Some(h + t)
  {
    var s := head + rest;
    assert s[4..] == rest;
    assert s[0] == head[0] && s[1] == head[1] && s[2] == head[2] && s[3] == head[3];
  }

  /** Decoding undoes encoding. */
  lemma {:induction false} DecodeEncode(b: seq<byte>)
    ensures Decode(Encode(b)) == Some(b)
  {
    if 1 <= |b| <= 3 {
      GroupRoundTrip(b, true);
    } else if |b| > 3 {
      DecodeEncode(b[3..]);
      DecodeEncodeCons(b);
    }
  }

  lemma {:induction false} DecodeEncodeCons(b: seq<byte>)
    requires |b| > 3 && Decode(Encode(b[3..])) == Some(b[3..])
    ensures Decode(Encode(b)) == Some(b)
  {
    var head, tail := b[..3], b[3..];
    var e := EncodeGroup(Group(b), 3);
    var rest := Encode(tail);
    assert Encode(b) == e + rest;
    EncodeLength(tail);
    assert Group(head) == Group(b);
    GroupRoundTrip(head, false);
    DecodeCons(e, rest, head, tail);
    assert head + tail == b;
  }

  /** Every three input bytes, rounded up, become four characters. */
  lemma {:induction false} EncodeLength(b: seq<byte>)
    ensures |Encode(b)| == 4 * ((|b| + 2) / 3)
  {
    if |b| > 3 {
      EncodeLength(b[3..]);
      assert (|b| + 2) / 3 == (|b| - 3 + 2) / 3 + 1;
    }
  }

  /** The output holds alphabet characters and `=` only: no line breaks. */
  lemma {:induction false} EncodeCharacters(b: seq<byte>)
    ensures forall i :: 0 <= i < |Encode(b)| ==> IsEncodingChar(Encode(b)[i])
  {
    if |b| > 3 {
      EncodeCharacters(b[3..]);
      var head := EncodeGroup(Group(b), 3);
      assert forall i :: 0 <= i < |head| ==> IsAlphabetChar(head[i]);
    }
  }

  /** What the callers of the encoder rely on, in one place: it decodes back, has the
      length of four characters per started group of three bytes, and contains no line
      break. */
  lemma {:induction false} EncodeFacts(b: seq<byte>)
    ensures Decode(Encode(b)) == Some(b)
    ensures |Encode(b)| == 4 * ((|b| + 2) / 3)
    ensures forall i :: 0 <= i < |Encode(b)| ==> IsEncodingChar(Encode(b)[i]) && Encode(b)[i] != '\n'
  {
    DecodeEncode(b);
    EncodeLength(b);
    EncodeCharacters(b);
  }

  /** Strict Base64 output is ASCII. */
  lemma {:induction false} EncodeIsAscii(b: seq<byte>)
    ensures forall i :: 0 <= i < |Encode(b)| ==> Encode(b)[i] as int < 128
  {
    EncodeCharacters(b);
  }

  /** Encoding is injective: equal encodings come from equal bytes. */
  lemma {:induction false} EncodeInjective(a: seq<byte>, b: seq<byte>)
    ensures Encode(a) == Encode(b) <==> a == b
  {
    if Encode(a) == Encode(b) {
      DecodeEncode(a);
      DecodeEncode(b);
    }
  }

  /** A group that decodes re-encodes to itself. */
  lemma {:induction false} GroupCanonical(c0: char, c1: char, c2: char, c3: char, last: bool)
    requires DecodeGroup(c0, c1, c2, c3, last).Some?
    ensures var t := DecodeGroup(c0, c1, c2, c3, last).value;
      1 <= |t| <= 3 && (|t| < 3 ==> last) && EncodeGroup(Group(t), |t|) == [c0, c1, c2, c3]
  {
    var t := DecodeGroup(c0, c1, c2, c3, last).value;
    var i0, i1 := CharIndex(c0), CharIndex(c1);
    if IsAlphabetChar(c2) && IsAlphabetChar(c3) {
      var s := Sextets(i0, i1, CharIndex(c2), CharIndex(c3));
      SplitJoin(s);
      assert Group(t) == Join(s);
    } else if IsAlphabetChar(c2) {
      var s := Sextets(i0, i1, CharIndex(c2), 0);
      SplitJoin(s);
      assert Group(t) == Join(s);
    } else {
      var s := Sextets(i0, i1, 0, 0);
      SplitJoin(s);
      assert Group(t) == Join(s);
    }
  }

  lemma {:induction false} DecodeSplit(s: string)
    requires |s| > 4 && Decode(s).Some?
    ensures DecodeGroup(s[0], s[1], s[2], s[3], false).Some? && Decode(s[4..]).Some?
    ensures Decode(s).value == DecodeGroup(s[0], s[1], s[2], s[3], false).value + Decode(s[4..]).value
  {
  }

  /** Decoding a non-empty string yields at least one byte. */
  lemma {:induction false} DecodeNonEmpty(s: string)
    requires |s| > 0 && Decode(s).Some?
    ensures |Decode(s).value| > 0
  {
    if |s| > 4 {
      DecodeSplit(s);
      GroupCanonical(s[0], s[1], s[2], s[3], false);
    } else {
      GroupCanonical(s[0], s[1], s[2], s[3], true);
    }
  }

  /** Encoding three bytes followed by more bytes. */
  lemma {:induction false} EncodeCons(head: seq<byte>, tail: seq<byte>)
    requires |head| == 3 && |tail| > 0
    ensures Encode(head + tail) == EncodeGroup(Group(head), 3) + Encode(tail)
  {
    var b := head + tail;
    assert b[3..] == tail;
    assert Group(b) == Group(head);
  }

  /** Strict decoding accepts exactly the encodings: whatever decodes re-encodes to itself. */
  lemma {:induction false} EncodeDecode(s: string)
    requires Decode(s).Some?
    ensures Encode(Decode(s).value) == s
  {
    if |s| == 4 {
      EncodeDecodeLast(s);
    } else if |s| > 4 {
      var head := DecodeGroup(s[0], s[1], s[2], s[3], false).value;
      var tail := Decode(s[4..]).value;
      DecodeSplit(s);
      EncodeDecode(s[4..]);
      EncodeDecodeCons(s, head, tail);
    }
  }

  lemma {:induction false} EncodeDecodeLast(s: string)
    requires |s| == 4 && Decode(s).Some?
    ensures Encode(Decode(s).value) == s
  {
    FourChars(s);
    var t := Decode(s).value;
    assert DecodeGroup(s[0], s[1], s[2], s[3], true) == Some(t);
    GroupCanonical(s[0], s[1], s[2], s[3], true);
  }

  lemma {:induction false} EncodeDecodeCons(s: string, head: seq<byte>, tail: seq<byte>)
    requires |s| > 4
    requires DecodeGroup(s[0], s[1], s[2], s[3], false) == Some(head)
    requires Decode(s[4..]) == Some(tail) && Encode(tail) == s[4..]
    ensures Encode(head + tail) == s
  {
    FourChars(s[..4]);
    assert s == s[..4] + s[4..];
    GroupCanonical(s[0], s[1], s[2], s[3], false);
    DecodeNonEmpty(s[4..]);
    EncodeCons(head, tail);
  }

  lemma {:induction false} FourChars(s: string)
    requires |s| == 4
    ensures s == [s[0], s[1], s[2], s[3]]
  {
  }

  /** Decoding and encoding are inverse relations. */
  lemma {:induction false} DecodeIffEncode(s: string, b: seq<byte>)
    ensures Decode(s) == Some(b) <==> Encode(b) == s
  {
    if Decode(s) == Some(b) {
      EncodeDecode(s);
    }
    if Encode(b) == s {
      DecodeEncode(b);
    }
  }
}
