/** Decimal digit strings: Ruby's `Integer#to_s`, `String#to_i` on digit strings, and the
    zero padding `strftime` applies to numeric fields. */
module Decimal {

  function Pow10(k: nat): (p: nat)
    ensures p >= 1
  {
    if k == 0 then 1 else 10 * Pow10(k - 1)
  }

  predicate IsDigit(c: char)
  {
    '0' <= c <= '9'
  }

  predicate AllDigits(s: string)
  {
    forall i :: 0 <= i < |s| ==> IsDigit(s[i])
  }

  function DigitChar(d: nat): (c: char)
    requires d < 10
    ensures IsDigit(c) && c as int - '0' as int == d
  {
    (48 + d) as char
  }

  function DigitValue(c: char): (d: nat)
    requires IsDigit(c)
    ensures d < 10 && DigitChar(d) == c
  {
    c as int - 48
  }

  /** The number a digit string denotes (`String#to_i` when every character is a digit). */
  function Value(s: string): nat
    requires AllDigits(s)
  {
    if |s| == 0 then 0 else 10 * Value(s[..|s| - 1]) + DigitValue(s[|s| - 1])
  }

  /** `Integer#to_s` on a non-negative integer: the shortest decimal rendering. */
  function Show(n: nat): (s: string)
    ensures |s| >= 1 && AllDigits(s)
    ensures s[0] == '0' ==> n == 0
  {
    if n < 10 then [DigitChar(n)] else Show(n / 10) + [DigitChar(n % 10)]
  }

  function Zeros(k: nat): (s: string)
    ensures |s| == k && forall i :: 0 <= i < k ==> s[i] == '0'
  {
    if k == 0 then [] else Zeros(k - 1) + ['0']
  }

  /** `%0<width>d`: the decimal rendering, left-padded with zeros to at least `width` characters. */
  function Pad(n: nat, width: nat): (s: string)
    ensures AllDigits(s)
    ensures |s| == if |Show(n)| >= width then |Show(n)| else width
  {
    var d := Show(n);
    if |d| >= width then d else Zeros(width - |d|) + d
  }

  /** Reading a rendering back gives the number: `n.to_s.to_i == n`. */
  lemma {:induction false} ValueShow(n: nat)
    ensures Value(Show(n)) == n
  {
    if n >= 10 {
      var s := Show(n);
      ValueShow(n / 10);
      assert s[..|s| - 1] == Show(n / 10);
    }
  }

  /** `to_s` is injective. */
  lemma ShowInjective(a: nat, b: nat)
    ensures Show(a) == Show(b) <==> a == b
  {
    if Show(a) == Show(b) {
      ValueShow(a);
      ValueShow(b);
    }
  }

  /** Appending digits shifts the value of the prefix left by their count. */
  lemma {:induction false} ValueConcat(a: string, b: string)
    requires AllDigits(a) && AllDigits(b)
    ensures AllDigits(a + b)
    ensures Value(a + b) == Value(a) * Pow10(|b|) + Value(b)
  {
    var ab := a + b;
    assert AllDigits(ab) by {
      forall i | 0 <= i < |ab| ensures IsDigit(ab[i]) {
        if i < |a| { assert ab[i] == a[i]; } else { assert ab[i] == b[i - |a|]; }
      }
    }
    if |b| == 0 {
      assert ab == a;
    } else {
      var b' := b[..|b| - 1];
      var c := b[|b| - 1];
      var last := DigitValue(c);
      assert ab[..|ab| - 1] == a + b';
      assert ab[|ab| - 1] == c;
      ValueConcat(a, b');
      var va, vb', p := Value(a), Value(b'), Pow10(|b'|);
      assert Value(ab) == 10 * Value(a + b') + last;
      assert Value(b) == 10 * vb' + last;
      Distribute(va, vb', p, last);
    }
  }

  lemma Distribute(va: nat, vb: nat, p: nat, last: nat)
    ensures 10 * (va * p + vb) + last == va * (10 * p) + (10 * vb + last)
  {
  }

  /** Leading zeros do not change the value, so padding preserves it. */
  lemma {:induction false} ValueZeros(k: nat)
    ensures Value(Zeros(k)) == 0
  {
    if k > 0 {
      var z, z' := Zeros(k), Zeros(k - 1);
      assert z[..k - 1] == z';
      assert z[k - 1] == '0';
      ValueZeros(k - 1);
      assert Value(z) == 10 * Value(z') + DigitValue('0');
    }
  }

  lemma ValuePad(n: nat, width: nat)
    ensures Value(Pad(n, width)) == n
  {
    var d := Show(n);
    ValueShow(n);
    if |d| < width {
      var z := Zeros(width - |d|);
      ValueZeros(width - |d|);
      ValueConcat(z, d);
      assert Pad(n, width) == z + d;
      assert Value(z + d) == 0 * Pow10(|d|) + n;
    }
  }

  /** A number below 10^k renders in at most k characters (k >= 1). */
  lemma {:induction false} ShowLengthBound(n: nat, k: nat)
    requires k >= 1 && n < Pow10(k)
    ensures |Show(n)| <= k
  {
    if n >= 10 {
      assert k >= 2;
      ShowLengthBound(n / 10, k - 1);
    }
  }

  /** A number of at least 10^(k-1) renders in at least k characters. */
  lemma {:induction false} ShowLengthLower(n: nat, k: nat)
    requires k >= 1 && n >= Pow10(k - 1)
    ensures |Show(n)| >= k
  {
    if k >= 2 {
      assert n >= 10;
      ShowLengthLower(n / 10, k - 1);
    }
  }

  /** A digit string without a leading zero is its own value's rendering. */
  lemma {:induction false} ShowValue(s: string)
    requires AllDigits(s) && |s| >= 1 && s[0] != '0'
    ensures Show(Value(s)) == s
  {
    if |s| > 1 {
      var p := s[..|s| - 1];
      ShowValue(p);
      ValuePositive(p);
      var v := Value(s);
      assert v == 10 * Value(p) + DigitValue(s[|s| - 1]);
      assert v / 10 == Value(p) && v % 10 == DigitValue(s[|s| - 1]);
      assert s == p + [s[|s| - 1]];
    }
  }

  lemma {:induction false} ValuePositive(s: string)
    requires AllDigits(s) && |s| >= 1 && s[0] != '0'
    ensures Value(s) >= 1
  {
    if |s| > 1 {
      ValuePositive(s[..|s| - 1]);
    }
  }
}
