/** The request timestamp: `Time.now.strftime('%Y%m%d%H%M%S').to_i`, over a clock reading
    passed in as a value. */
module Clock {
  import opened Decimal

  /** One reading of the wall clock, to the second. */
  datatype DateTime = DateTime(year: nat, month: nat, day: nat, hour: nat, minute: nat, second: nat)

  predicate IsLeapYear(y: nat)
  {
    (y % 4 == 0 && y % 100 != 0) || y % 400 == 0
  }

  function DaysInMonth(y: nat, m: nat): nat
    requires 1 <= m <= 12
  {
    if m == 2 then (if IsLeapYear(y) then 29 else 28)
    else if m == 4 || m == 6 || m == 9 || m == 11 then 30
    else 31
  }

  /** A calendar reading the clock can produce (second 60 is a leap second). */
  predicate Valid(t: DateTime)
  {
    && 1 <= t.month <= 12
    && 1 <= t.day <= DaysInMonth(t.year, t.month)
    && t.hour < 24
    && t.minute < 60
    && t.second <= 60
  }

  /** `strftime('%Y%m%d%H%M%S')`: the year padded to at least four digits, every other field
      to two. */
  function Format(t: DateTime): (s: string)
    requires Valid(t)
    ensures AllDigits(s)
    ensures t.year < 10000 ==> |s| == 14
  {
    YearWidth(t.year);
    Pad2(t.month); Pad2(t.day); Pad2(t.hour); Pad2(t.minute); Pad2(t.second);
    Pad(t.year, 4) + Pad(t.month, 2) + Pad(t.day, 2) + Pad(t.hour, 2) + Pad(t.minute, 2) + Pad(t.second, 2)
  }

  /** The timestamp every request uses: the formatted reading read back as an integer. */
  function Timestamp(t: DateTime): nat
    requires Valid(t)
  {
    Value(Format(t))
  }

  /** The arithmetic reading of the timestamp:
      Y*10^10 + Mo*10^8 + D*10^6 + h*10^4 + mi*10^2 + s. */
  function Numeric(t: DateTime): nat
  {
    t.year * 10000000000 + t.month * 100000000 + t.day * 1000000 + t.hour * 10000 + t.minute * 100 + t.second
  }

  lemma Pad2(n: nat)
    requires n < 100
    ensures |Pad(n, 2)| == 2 && Value(Pad(n, 2)) == n
  {
    ShowLengthBound(n, 2);
    ValuePad(n, 2);
  }

  lemma YearWidth(y: nat)
    ensures y < 10000 ==> |Pad(y, 4)| == 4
  {
    if y < 10000 {
      assert Pow10(4) == 10000;
      ShowLengthBound(y, 4);
    }
  }

  /** The integer the timestamp reads is the mixed-radix number of the calendar fields. */
  lemma {:induction false} TimestampIsNumeric(t: DateTime)
    requires Valid(t)
    ensures Timestamp(t) == Numeric(t)
  {
    var y, mo, d, h, mi, s := Pad(t.year, 4), Pad(t.month, 2), Pad(t.day, 2), Pad(t.hour, 2), Pad(t.minute, 2), Pad(t.second, 2);
    ValuePad(t.year, 4);
    var a5 := t.year;
    var a4 := AppendField(y, a5, t.month);
    var a3 := AppendField(y + mo, a4, t.day);
    var a2 := AppendField(y + mo + d, a3, t.hour);
    var a1 := AppendField(y + mo + d + h, a2, t.minute);
    var a0 := AppendField(y + mo + d + h + mi, a1, t.second);
    assert Format(t) == y + mo + d + h + mi + s;
  }

  /** Appending a two-digit field multiplies the prefix's value by 100. */
  lemma AppendField(prefix: string, v: nat, n: nat) returns (w: nat)
    requires AllDigits(prefix) && Value(prefix) == v && n < 100
    ensures AllDigits(prefix + Pad(n, 2))
    ensures w == v * 100 + n && Value(prefix + Pad(n, 2)) == w
  {
    Pad2(n);
    ValueConcat(prefix, Pad(n, 2));
    assert Pow10(2) == 100;
    w := v * 100 + n;
  }

  /** From year 1000 on, rendering the timestamp gives back the formatted string, so the
      decimal form is exactly `YYYYMMDDHHMMSS` (14 characters up to year 9999). */
  lemma TimestampShowsFormat(t: DateTime)
    requires Valid(t) && t.year >= 1000
    ensures Show(Timestamp(t)) == Format(t)
    ensures t.year < 10000 ==> |Show(Timestamp(t))| == 14
  {
    var f := Format(t);
    var y := Pad(t.year, 4);
    ShowLengthLower(t.year, 4);
    assert Pad(t.year, 4) == Show(t.year);
    assert f[0] == y[0];
    ShowValue(f);
  }

  /** Before year 1000 the year's leading zero is lost: the rendering is shorter than 14
      characters and so differs from the formatted string. */
  lemma EarlyYearLosesDigits(t: DateTime)
    requires Valid(t) && t.year < 1000
    ensures |Show(Timestamp(t))| < 14
    ensures Show(Timestamp(t)) != Format(t)
  {
    TimestampIsNumeric(t);
    assert Pow10(13) == 10000000000000;
    ShowLengthBound(Timestamp(t), 13);
  }

  /** Distinct readings give distinct timestamps: the timestamp identifies the second. */
  lemma TimestampInjective(t1: DateTime, t2: DateTime)
    requires Valid(t1) && Valid(t2)
    ensures Timestamp(t1) == Timestamp(t2) <==> t1 == t2
  {
    TimestampIsNumeric(t1);
    TimestampIsNumeric(t2);
    if Numeric(t1) == Numeric(t2) {
      NumericDigits(t1);
      NumericDigits(t2);
    }
  }

  /** Each calendar field can be read off the numeric timestamp. */
  lemma NumericDigits(t: DateTime)
    requires Valid(t)
    ensures Numeric(t) / 10000000000 == t.year
    ensures Numeric(t) / 100000000 % 100 == t.month
    ensures Numeric(t) / 1000000 % 100 == t.day
    ensures Numeric(t) / 10000 % 100 == t.hour
    ensures Numeric(t) / 100 % 100 == t.minute
    ensures Numeric(t) % 100 == t.second
  {
    var n := Numeric(t);
    var a5 := t.year;
    var a4 := a5 * 100 + t.month;
    var a3 := a4 * 100 + t.day;
    var a2 := a3 * 100 + t.hour;
    var a1 := a2 * 100 + t.minute;
    assert n == a1 * 100 + t.second;
    assert n / 100 == a1 && n % 100 == t.second;
    assert a1 / 100 == a2 && a1 % 100 == t.minute;
    assert a2 / 100 == a3 && a2 % 100 == t.hour;
    assert a3 / 100 == a4 && a3 % 100 == t.day;
    assert a4 / 100 == a5 && a4 % 100 == t.month;
    assert n / 10000 == a2;
    assert n / 1000000 == a3;
    assert n / 100000000 == a4;
    assert n / 10000000000 == a5;
  }
}
