/** Daily document numbers `PREFIX-YYYYMMDD-NNN` (sales orders `XS`, quotations `BJ`):
    the serial follows the latest stored number of the same day, and restarts at 001 on a
    new day. The date and the latest stored number are inputs (they come from the clock
    and from a `SELECT TOP 1 … ORDER BY … DESC` query). */
module DocNumber {
  import opened Common

  /** `String(serial).padStart(3, '0')`. */
  function Serial3(serial: nat): (r: string)
    ensures AllDigits(r) && |r| >= 3
    ensures serial < 1000 <==> |r| == 3
  {
    SerialTextWidth(serial);
    PadLeft(NatToString(serial), 3, '0')
  }

  /** The decimal text of a serial has at most three digits exactly when the serial is below 1000. */
  lemma SerialTextWidth(serial: nat)
    ensures serial < 1000 <==> |NatToString(serial)| <= 3
  {
    if serial >= 1000 {
      SerialWidth(serial / 10);
      assert NatToString(serial) == NatToString(serial / 10) + [DigitChar(serial % 10)];
    } else {
      SerialWidth(serial);
    }
  }

  /** The decimal text of `n` has three or more digits exactly when n >= 100. */
  lemma {:induction false} SerialWidth(n: nat)
    ensures n >= 100 ==> |NatToString(n)| >= 3
    ensures n < 1000 ==> |NatToString(n)| <= 3
    decreases n
  {
    if n >= 10 {
      SerialWidth(n / 10);
    }
  }

  /** Leading zeros do not change a decimal value. */
  lemma {:induction false} LeadingZeros(z: nat, s: string)
    requires AllDigits(s)
    ensures AllDigits(Repeat('0', z) + s)
    ensures DigitsValue(Repeat('0', z) + s) == DigitsValue(s)
    decreases |s|, z
  {
    var t := Repeat('0', z) + s;
    if s == [] {
      assert t == Repeat('0', z);
      if z > 0 {
        assert t[..|t| - 1] == Repeat('0', z - 1) + [];
        LeadingZeros(z - 1, []);
      }
    } else {
      assert t[..|t| - 1] == Repeat('0', z) + s[..|s| - 1];
      LeadingZeros(z, s[..|s| - 1]);
    }
  }

  /** A serial below 1000 reads back from its three-digit text. */
  lemma Serial3Value(serial: nat)
    requires serial < 1000
    ensures DigitsValue(Serial3(serial)) == serial
  {
    var t := NatToString(serial);
    DigitsValueOfNatToString(serial);
    SerialWidth(serial);
    LeadingZeros(3 - |t|, t);
  }

  /** `${prefix}-${date}-${serial padded to three digits}`. */
  function Format(prefix: string, date: string, serial: nat): (r: string)
    ensures StartsWith(r, prefix + "-" + date + "-")
  {
    prefix + "-" + date + "-" + Serial3(serial)
  }

  /** Whether `s` has the shape `PREFIX-dddddddd-ddd`. */
  predicate Shaped(prefix: string, s: string)
  {
    var p := |prefix|;
    |s| == p + 13 && s[..p] == prefix && s[p] == '-' && AllDigits(s[p + 1..p + 9])
    && s[p + 9] == '-' && AllDigits(s[p + 10..])
  }

  /** The match of `/^PREFIX-(\d{8})-(\d{3})$/`: the date text and the serial. */
  function Parse(prefix: string, s: string): (r: Option<(string, nat)>)
    ensures r.Some? ==> |r.value.0| == 8 && AllDigits(r.value.0) && r.value.1 < 1000
    ensures r.Some? ==> s == Format(prefix, r.value.0, r.value.1)
  {
    if Shaped(prefix, s) then
      ShapedIsFormat(prefix, s);
      Some((s[|prefix| + 1..|prefix| + 9], DigitsValue(s[|prefix| + 10..])))
    else None
  }

  /** A text of the shape is the number formatted from its date and serial. */
  lemma ShapedIsFormat(prefix: string, s: string)
    requires Shaped(prefix, s)
    ensures DigitsValue(s[|prefix| + 10..]) < 1000
    ensures s == Format(prefix, s[|prefix| + 1..|prefix| + 9], DigitsValue(s[|prefix| + 10..]))
  {
    var p := |prefix|;
    ThreeDigitsAreSerial3(s[p + 10..]);
    assert s == prefix + "-" + s[p + 1..p + 9] + "-" + s[p + 10..];
  }

  /** Three digits are the padded serial of their value. */
  lemma ThreeDigitsAreSerial3(t: string)
    requires |t| == 3 && AllDigits(t)
    ensures DigitsValue(t) < 1000 && Serial3(DigitsValue(t)) == t
  {
    var k := DigitsValue(t);
    DigitsValueBound(t);
    assert Pow10(3) == 1000;
    Serial3Value(k);
    ThreeDigitsOfValue(t, Serial3(k));
  }

  /** Two three-digit texts with the same value are the same text. */
  lemma {:induction false} ThreeDigitsOfValue(a: string, b: string)
    requires |a| == 3 && |b| == 3 && AllDigits(a) && AllDigits(b)
    requires DigitsValue(a) == DigitsValue(b)
    ensures a == b
  {
    assert a[..2][..1] == a[..1] && b[..2][..1] == b[..1];
    assert a[..1][..0] == [] && b[..1][..0] == [];
    var a0, a1, a2 := a[0] as int - '0' as int, a[1] as int - '0' as int, a[2] as int - '0' as int;
    var b0, b1, b2 := b[0] as int - '0' as int, b[1] as int - '0' as int, b[2] as int - '0' as int;
    assert DigitsValue(a[..1]) == a0 && DigitsValue(b[..1]) == b0;
    assert DigitsValue(a[..2]) == a0 * 10 + a1 && DigitsValue(b[..2]) == b0 * 10 + b1;
    assert (a0 * 10 + a1) * 10 + a2 == (b0 * 10 + b1) * 10 + b2;
    assert a2 == b2 && a1 == b1 && a0 == b0;
    assert a == [a[0], a[1], a[2]] && b == [b[0], b[1], b[2]];
  }

  /** The serial the route hands out: the latest number's serial + 1 when that number is
      well formed and of the same date, otherwise 1 (also when there is no latest number). */
  function NextSerial(prefix: string, today: string, latest: Option<string>): (n: nat)
    ensures n >= 1
  {
    if latest.None? then 1
    else
      match Parse(prefix, latest.value)
      case Some(m) => if m.0 == today then m.1 + 1 else 1
      case None => 1
  }

  function NextNumber(prefix: string, today: string, latest: Option<string>): string
  {
    Format(prefix, today, NextSerial(prefix, today, latest))
  }

  /** The empty text is no number. */
  lemma ParseEmpty(prefix: string)
    ensures Parse(prefix, "") == None
  {
  }

  /** A formatted number with a serial below 1000 parses back to its date and serial. */
  lemma ParseFormat(prefix: string, date: string, serial: nat)
    requires |date| == 8 && AllDigits(date) && serial < 1000
    ensures Parse(prefix, Format(prefix, date, serial)) == Some((date, serial))
  {
    FormatSlices(prefix, date, Serial3(serial));
    Serial3Value(serial);
  }

  /** The pieces of `PREFIX-date-t` at their places. */
  lemma FormatSlices(prefix: string, date: string, t: string)
    requires |date| == 8 && |t| == 3
    ensures var s, p := prefix + "-" + date + "-" + t, |prefix|;
      |s| == p + 13 && s[..p] == prefix && s[p] == '-' && s[p + 1..p + 9] == date
      && s[p + 9] == '-' && s[p + 10..] == t
  {
  }

  /** Different serials below 1000 give different numbers on the same date. */
  lemma FormatInjective(prefix: string, date: string, a: nat, b: nat)
    requires |date| == 8 && AllDigits(date) && a < 1000 && b < 1000 && a != b
    ensures Format(prefix, date, a) != Format(prefix, date, b)
  {
    ParseFormat(prefix, date, a);
    ParseFormat(prefix, date, b);
  }

  /** The generated number continues the latest one: same date, serial one higher; any other
      latest number (none, malformed, another day) restarts the day at 001. */
  lemma NextNumberContinues(prefix: string, today: string, latest: Option<string>)
    requires |today| == 8 && AllDigits(today)
    ensures var n := NextSerial(prefix, today, latest);
      (latest.Some? && Parse(prefix, latest.value).Some? && Parse(prefix, latest.value).value.0 == today
       ==> n == Parse(prefix, latest.value).value.1 + 1)
      && (n > 1 ==> latest.Some? && Parse(prefix, latest.value) == Some((today, n - 1)))
      && (n < 1000 ==> Parse(prefix, NextNumber(prefix, today, latest)) == Some((today, n)))
  {
    var n := NextSerial(prefix, today, latest);
    if n < 1000 {
      ParseFormat(prefix, today, n);
    }
  }

  /** A serial of four or more digits is not recognised by the pattern. */
  lemma LongSerialNotParsed(prefix: string, date: string, serial: nat)
    requires |date| == 8 && serial >= 1000
    ensures Parse(prefix, Format(prefix, date, serial)).None?
  {
    assert |Format(prefix, date, serial)| == |prefix| + 10 + |Serial3(serial)|;
  }

  /** After serial 999 the number gets a four-digit serial, which the pattern no longer
      recognises: the following call starts again from the last three-digit number. */
  lemma ThousandthIsNotRecognised(prefix: string, today: string, latest: Option<string>)
    requires |today| == 8 && AllDigits(today)
    requires latest.Some? && Parse(prefix, latest.value) == Some((today, 999))
    ensures NextSerial(prefix, today, latest) == 1000
    ensures Parse(prefix, NextNumber(prefix, today, latest)).None?
  {
    LongSerialNotParsed(prefix, today, NextSerial(prefix, today, latest));
  }
}
