/** Timestamp decoding and rendering (`parse_time`, `to_jsonable`).

    `parse_time` first tries `datetime.fromisoformat`; that library parser is a
    parameter here (`IsoParser`). When it fails, only the fixed-width numeric
    forms `YYMMDDHHMM` (10 characters) and `YYYYMMDDHHMM` (12 characters) are
    tried, and any failure degrades to `None`. */
module Times {
  import opened Common
  import opened Calendar
  import opened Text

  /** `datetime.fromisoformat`, with `None` standing for its `ValueError`. */
  type IsoParser = string -> Option<Time>

  /** Years `%y` maps to: `69..99` are 1969..1999, `00..68` are 2000..2068. */
  function CenturyOf(yy: nat): nat {
    if yy <= 68 then 2000 + yy else 1900 + yy
  }

  /** The fields of a fixed-width numeric timestamp whose year takes
      `|s| - 8` characters, seconds set to zero. */
  function FixedFields(s: string): DateTime
    requires |s| == 10 || |s| == 12
    requires AllDigits(s)
  {
    var w := |s| - 8;
    var y := NumberOf(s[..w]);
    DateTime(if w == 2 then CenturyOf(y) else y,
             NumberOf(s[w..w + 2]), NumberOf(s[w + 2..w + 4]),
             NumberOf(s[w + 4..w + 6]), NumberOf(s[w + 6..w + 8]), 0)
  }

  /** Index of the day field in a fixed-width timestamp. */
  function DayIndex(s: string): nat
    requires |s| == 10 || |s| == 12
  {
    |s| - 6
  }

  /** The shape strptime's patterns accept at full length: ASCII digits
      throughout, except that `%d` also takes a space followed by a digit
      `1`..`9`. */
  predicate FixedShape(s: string)
    requires |s| == 10 || |s| == 12
  {
    var k := DayIndex(s);
    && (forall i | 0 <= i < |s| && i != k :: IsDigit(s[i]))
    && (IsDigit(s[k]) || (s[k] == ' ' && '1' <= s[k + 1] <= '9'))
  }

  /** `s` with the day field's first character replaced by `c`. */
  function WithDayLead(s: string, c: char): (r: string)
    requires |s| == 10 || |s| == 12
    ensures |r| == |s| && r[DayIndex(s)] == c
    ensures forall i | 0 <= i < |s| && i != DayIndex(s) :: r[i] == s[i]
  {
    s[..DayIndex(s)] + [c] + s[DayIndex(s) + 1..]
  }

  /** The digits strptime reads: a space opening the day field counts as
      `0`. */
  function ZeroPadDay(s: string): (r: string)
    requires |s| == 10 || |s| == 12
    ensures |r| == |s|
  {
    if s[DayIndex(s)] == ' ' then WithDayLead(s, '0') else s
  }

  /** `strptime(s, "%y%m%d%H%M")` or `strptime(s, "%Y%m%d%H%M")`, by length,
      with `None` for its `ValueError`. A one-character alternative of
      strptime's patterns always leaves unconverted characters behind, so
      every field takes two characters (the four-digit year four): digits,
      or for the day also a space and a digit. */
  function DecodeFixed(s: string): (r: Option<Time>)
    requires |s| == 10 || |s| == 12
    ensures r.Some? ==> FixedShape(s)
    ensures r.Some? ==> Valid(FixedFields(ZeroPadDay(s))) && r.value == ToSeconds(FixedFields(ZeroPadDay(s)))
  {
    var digits := ZeroPadDay(s);
    if AllDigits(digits) && Valid(FixedFields(digits)) then
      DecodedShape(s);
      Some(ToSeconds(FixedFields(digits)))
    else None
  }

  /** A space-led day read as `0d` is valid only for `d` in `1`..`9`. */
  lemma DecodedShape(s: string)
    requires |s| == 10 || |s| == 12
    requires AllDigits(ZeroPadDay(s)) && Valid(FixedFields(ZeroPadDay(s)))
    ensures FixedShape(s)
  {
    var k, z := DayIndex(s), ZeroPadDay(s);
    assert forall i | 0 <= i < |s| && i != k :: s[i] == z[i];
    if s[k] == ' ' {
      var day := z[k..k + 2];
      assert day == ['0', s[k + 1]];
      assert NumberOf(day) == DigitValue(s[k + 1]) by {
        assert day[..1] == ['0'] && day[..1][..0] == [];
      }
    }
  }

  /** `parse_time(value)`. */
  function ParseTime(value: Option<string>, iso: IsoParser): (r: Option<Time>)
    ensures !Present(value) ==> r.None?
    ensures Present(value) && iso(value.value).Some? ==> r == iso(value.value)
    ensures r.Some? && iso(value.value).None? ==>
      (|value.value| == 10 || |value.value| == 12) && r == DecodeFixed(value.value)
    ensures Present(value) && iso(value.value).None? ==>
      r == (if |value.value| == 10 || |value.value| == 12 then DecodeFixed(value.value) else None)
  {
    if !Present(value) then None
    else
      var s := value.value;
      match iso(s)
      case Some(t) => Some(t)
      case None => if |s| == 10 || |s| == 12 then DecodeFixed(s) else None
  }

  /** A date-time written as `YYMMDDHHMM` (`yearWidth == 2`) or
      `YYYYMMDDHHMM` (`yearWidth == 4`); also `strftime("%y%m%d")` followed by
      `strftime("%H%M")`. */
  function FormatMinutes(d: DateTime, yearWidth: nat): (r: string)
    requires Valid(d)
  {
    Decimal(if yearWidth == 2 then d.year % 100 else d.year, yearWidth)
      + Decimal(d.month, 2) + Decimal(d.day, 2) + Decimal(d.hour, 2) + Decimal(d.minute, 2)
  }

  lemma DigitsConcat(a: string, b: string)
    requires AllDigits(a) && AllDigits(b)
    ensures AllDigits(a + b)
  {
  }

  lemma FormatMinutesShape(d: DateTime, yearWidth: nat)
    requires Valid(d)
    requires yearWidth == 2 || (yearWidth == 4 && d.year <= 9999)
    ensures |FormatMinutes(d, yearWidth)| == yearWidth + 8
    ensures AllDigits(FormatMinutes(d, yearWidth))
  {
    var y := if yearWidth == 2 then d.year % 100 else d.year;
    var a, b, c, e, f := Decimal(y, yearWidth), Decimal(d.month, 2), Decimal(d.day, 2), Decimal(d.hour, 2), Decimal(d.minute, 2);
    if yearWidth == 2 { Pad2(y); } else { Pad4(y); }
    Pad2(d.month); Pad2(d.day); Pad2(d.hour); Pad2(d.minute);
    DigitsConcat(a, b);
    DigitsConcat(a + b, c);
    DigitsConcat(a + b + c, e);
    DigitsConcat(a + b + c + e, f);
  }

  lemma Pad2(n: nat)
    requires n < 100
    ensures |Decimal(n, 2)| == 2 && NumberOf(Decimal(n, 2)) == n
  {
    assert Pow10(2) == 100;
    DecimalWidth(n, 2);
    DecimalValue(n, 2);
  }

  lemma Pad4(n: nat)
    requires n < 10000
    ensures |Decimal(n, 4)| == 4 && NumberOf(Decimal(n, 4)) == n
  {
    assert Pow10(4) == 10000;
    DecimalWidth(n, 4);
    DecimalValue(n, 4);
  }

  /** The pieces of a concatenation of a head and four two-character fields. */
  lemma FiveFields(a: string, b: string, c: string, e: string, f: string)
    requires |b| == 2 && |c| == 2 && |e| == 2 && |f| == 2
    ensures var s, w := a + b + c + e + f, |a|;
      && s[..w] == a && s[w..w + 2] == b && s[w + 2..w + 4] == c
      && s[w + 4..w + 6] == e && s[w + 6..w + 8] == f
  {
  }

  /** A fixed-width string of digits is what `Decimal` prints for its value. */
  lemma {:induction false} DecimalOfDigits(s: string)
    requires AllDigits(s) && |s| >= 1
    ensures Decimal(NumberOf(s), |s|) == s
  {
    var n := NumberOf(s);
    if |s| == 1 {
      assert s[..0] == [];
    } else {
      var front := s[..|s| - 1];
      DecimalOfDigits(front);
      assert n / 10 == NumberOf(front) && n % 10 == DigitValue(s[|s| - 1]);
      assert s == front + [s[|s| - 1]];
    }
  }

  /** Reading the fields of a string assembled from a year and four two-digit fields. */
  lemma ReadFields(a: string, b: string, c: string, e: string, f: string)
    requires |a| == 2 || |a| == 4
    requires |b| == 2 && |c| == 2 && |e| == 2 && |f| == 2
    requires AllDigits(a + b + c + e + f)
    ensures AllDigits(a) && AllDigits(b) && AllDigits(c) && AllDigits(e) && AllDigits(f)
    ensures FixedFields(a + b + c + e + f) ==
      DateTime(if |a| == 2 then CenturyOf(NumberOf(a)) else NumberOf(a),
               NumberOf(b), NumberOf(c), NumberOf(e), NumberOf(f), 0)
  {
    FiveFields(a, b, c, e, f);
  }

  /** The fields read back from a fixed-width rendering are the rendered ones. */
  lemma FieldsOfFormatted(d: DateTime, yearWidth: nat)
    requires Valid(d) && d.second == 0
    requires (yearWidth == 2 && 1969 <= d.year <= 2068) || (yearWidth == 4 && d.year <= 9999)
    ensures |FormatMinutes(d, yearWidth)| == yearWidth + 8
    ensures AllDigits(FormatMinutes(d, yearWidth))
    ensures FixedFields(FormatMinutes(d, yearWidth)) == d
  {
    FormatMinutesShape(d, yearWidth);
    var w := yearWidth;
    var y := if w == 2 then d.year % 100 else d.year;
    var a, b, c, e, f := Decimal(y, w), Decimal(d.month, 2), Decimal(d.day, 2), Decimal(d.hour, 2), Decimal(d.minute, 2);
    assert |a| == w && NumberOf(a) == y by {
      if w == 2 { Pad2(y); } else { Pad4(y); }
    }
    Pad2(d.month); Pad2(d.day); Pad2(d.hour); Pad2(d.minute);
    assert FormatMinutes(d, w) == a + b + c + e + f;
    ReadFields(a, b, c, e, f);
    if w == 2 {
      CenturyOfTwoDigits(d.year);
    }
  }

  /** `%y` names exactly the years 1969..2068 by their last two digits. */
  lemma CenturyOfTwoDigits(year: int)
    requires 1969 <= year <= 2068
    ensures CenturyOf(year % 100) == year
  {
    if year < 2000 {
      assert year == 1900 + (year - 1900) && 0 <= year - 1900 < 100;
      assert year % 100 == year - 1900;
    } else {
      assert year == 2000 + (year - 2000) && 0 <= year - 2000 < 100;
      assert year % 100 == year - 2000;
    }
  }

  /** Writing a minute-precision date-time in the fixed-width form and decoding
      it gives back the same instant (for the two-digit form, when the year is
      one `%y` can name). */
  lemma DecodeFormatted(d: DateTime, yearWidth: nat)
    requires Valid(d) && d.second == 0
    requires (yearWidth == 2 && 1969 <= d.year <= 2068) || (yearWidth == 4 && d.year <= 9999)
    ensures |FormatMinutes(d, yearWidth)| == yearWidth + 8
    ensures DecodeFixed(FormatMinutes(d, yearWidth)) == Some(ToSeconds(d))
  {
    FieldsOfFormatted(d, yearWidth);
  }

  /** The round trip of `parse_time`'s numeric fallback: a minute-precision time
      written as `YYYYMMDDHHMM`, which the ISO parser rejects, parses back to
      itself. */
  lemma ParseTwelveDigits(t: Time, iso: IsoParser)
    requires t % SecondsPerMinute == 0 && FromSeconds(t).year <= 9999
    requires iso(FormatMinutes(FromSeconds(t), 4)) == None
    ensures ParseTime(Some(FormatMinutes(FromSeconds(t), 4)), iso) == Some(t)
  {
    FieldsOfAligned(t);
    DecodeFormatted(FromSeconds(t), 4);
  }

  /** The converse: whatever the fallback accepts is the fixed-width
      rendering of the instant it returns, at whole minutes, or that
      rendering with the leading zero of a one-digit day written as a space.
      So any other character, a month outside 1..12, a day the month lacks,
      an hour from 24 or a minute from 60 all give `None`. */
  lemma DecodedIsFormatted(s: string)
    requires |s| == 10 || |s| == 12
    requires DecodeFixed(s).Some?
    ensures var d := FromSeconds(DecodeFixed(s).value); var f := FormatMinutes(d, |s| - 8);
      && d.second == 0
      && (s == f || (d.day < 10 && |f| == |s| && s == WithDayLead(f, ' ')))
  {
    var k, z := DayIndex(s), ZeroPadDay(s);
    FromToSeconds(FixedFields(z));
    DigitsAreFormatted(z);
    if s[k] == ' ' {
      SpaceLeadRestored(s);
      ZeroLedDay(z);
    }
  }

  lemma SpaceLeadRestored(s: string)
    requires |s| == 10 || |s| == 12
    requires s[DayIndex(s)] == ' '
    ensures WithDayLead(ZeroPadDay(s), ' ') == s
  {
  }

  /** A day field opening with `0` is a one-digit day. */
  lemma ZeroLedDay(z: string)
    requires |z| == 10 || |z| == 12
    requires AllDigits(z) && z[DayIndex(z)] == '0'
    ensures FixedFields(z).day < 10
  {
    var k := DayIndex(z);
    var day := z[k..k + 2];
    assert AllDigits(day) && day[0] == '0';
    assert NumberOf(day[..1]) == 0 by {
      assert day[..1][..0] == [];
    }
    assert FixedFields(z).day == NumberOf(day) == DigitValue(day[1]);
  }

  /** Digits the fallback accepts are the rendering of the decoded fields. */
  lemma DigitsAreFormatted(s: string)
    requires |s| == 10 || |s| == 12
    requires AllDigits(s) && Valid(FixedFields(s))
    ensures s == FormatMinutes(FixedFields(s), |s| - 8)
  {
    var w := |s| - 8;
    var a, b, c, e, f := s[..w], s[w..w + 2], s[w + 2..w + 4], s[w + 4..w + 6], s[w + 6..w + 8];
    assert s == a + b + c + e + f;
    ReadFields(a, b, c, e, f);
    YearDigits(a);
    DecimalOfDigits(b);
    DecimalOfDigits(c);
    DecimalOfDigits(e);
    DecimalOfDigits(f);
  }

  /** A minute-precision date-time whose one-digit day is written with a
      space, as `strptime`'s `%d` also allows, decodes to itself. */
  lemma DecodeSpacePadded(d: DateTime, yearWidth: nat)
    requires Valid(d) && d.second == 0 && d.day < 10
    requires (yearWidth == 2 && 1969 <= d.year <= 2068) || (yearWidth == 4 && d.year <= 9999)
    ensures |FormatMinutes(d, yearWidth)| == yearWidth + 8
    ensures DecodeFixed(WithDayLead(FormatMinutes(d, yearWidth), ' ')) == Some(ToSeconds(d))
  {
    FormatMinutesShape(d, yearWidth);
    var f := FormatMinutes(d, yearWidth);
    DayLeadZero(d, yearWidth);
    assert ZeroPadDay(WithDayLead(f, ' ')) == f;
    DecodeAsZeroPadded(WithDayLead(f, ' '));
    DecodeFormatted(d, yearWidth);
  }

  /** A one-digit day is written with a leading `0`. */
  lemma DayLeadZero(d: DateTime, yearWidth: nat)
    requires Valid(d) && d.day < 10
    requires yearWidth == 2 || (yearWidth == 4 && d.year <= 9999)
    ensures |FormatMinutes(d, yearWidth)| == yearWidth + 8
    ensures FormatMinutes(d, yearWidth)[yearWidth + 2] == '0'
  {
    FormatMinutesShape(d, yearWidth);
    var y := if yearWidth == 2 then d.year % 100 else d.year;
    var a, b, c, e, g := Decimal(y, yearWidth), Decimal(d.month, 2), Decimal(d.day, 2), Decimal(d.hour, 2), Decimal(d.minute, 2);
    assert |a| == yearWidth by { if yearWidth == 2 { Pad2(y); } else { Pad4(y); } }
    assert |b| == 2 by { Pad2(d.month); }
    assert c[0] == '0' by { assert c == Decimal(0, 1) + [DigitChar(d.day)]; }
    assert FormatMinutes(d, yearWidth) == a + b + c + e + g;
    assert (a + b + c + e + g)[yearWidth + 2] == c[0];
  }

  /** The decoder reads a space-led day exactly as the zero-led one. */
  lemma DecodeAsZeroPadded(s: string)
    requires |s| == 10 || |s| == 12
    ensures DecodeFixed(s) == DecodeFixed(ZeroPadDay(s))
  {
    assert ZeroPadDay(ZeroPadDay(s)) == ZeroPadDay(s);
  }

  /** `"2403 11000"` is 1 March 2024, 10:00. */
  lemma SpacePaddedExample()
    ensures DecodeFixed("2403 11000") == Some(ToSeconds(DateTime(2024, 3, 1, 10, 0, 0)))
  {
    var d := DateTime(2024, 3, 1, 10, 0, 0);
    assert Valid(d) by {
      assert DaysInMonth(2024, 3) == 31;
    }
    ExampleFormatted();
    ExampleSpaceLed();
    DecodeSpacePadded(d, 2);
  }

  /** 1 March 2024, 10:00 is written `2403011000`. */
  lemma ExampleFormatted()
    ensures Valid(DateTime(2024, 3, 1, 10, 0, 0))
    ensures FormatMinutes(DateTime(2024, 3, 1, 10, 0, 0), 2) == "2403011000"
  {
    assert DaysInMonth(2024, 3) == 31;
    ExampleFields();
    assert FormatMinutes(DateTime(2024, 3, 1, 10, 0, 0), 2) == "24" + "03" + "01" + "10" + "00";
  }

  /** The two-digit fields of 1 March 2024, 10:00. */
  lemma ExampleFields()
    ensures Decimal(24, 2) == "24" && Decimal(3, 2) == "03" && Decimal(1, 2) == "01"
    ensures Decimal(10, 2) == "10" && Decimal(0, 2) == "00"
  {
    assert Decimal(2, 1) == "2" && Decimal(0, 1) == "0" && Decimal(1, 1) == "1";
  }

  /** `2403011000` with its day led by a space. */
  lemma ExampleSpaceLed()
    ensures WithDayLead("2403011000", ' ') == "2403 11000"
  {
  }

  /** The year field printed back the way it was read is the field itself. */
  lemma YearDigits(a: string)
    requires (|a| == 2 || |a| == 4) && AllDigits(a)
    ensures var year := if |a| == 2 then CenturyOf(NumberOf(a)) else NumberOf(a);
      Decimal(if |a| == 2 then year % 100 else year, |a|) == a
  {
    DecimalOfDigits(a);
    if |a| == 2 {
      NumberBound(a);
      assert Pow10(2) == 100;
      CenturyOfLastDigits(NumberOf(a));
    }
  }

  lemma CenturyOfLastDigits(n: nat)
    requires n < 100
    ensures CenturyOf(n) % 100 == n
  {
  }

  lemma {:induction false} NumberBound(s: string)
    requires AllDigits(s)
    ensures NumberOf(s) < Pow10(|s|)
  {
    if s != [] {
      NumberBound(s[..|s| - 1]);
    }
  }

  /** `datetime.isoformat()` of a naive date-time without microseconds:
      `YYYY-MM-DDTHH:MM:SS`. */
  function IsoFormat(d: DateTime): (r: string)
    requires Valid(d)
  {
    Decimal(d.year, 4) + "-" + Decimal(d.month, 2) + "-" + Decimal(d.day, 2)
      + "T" + Decimal(d.hour, 2) + ":" + Decimal(d.minute, 2) + ":" + Decimal(d.second, 2)
  }

  /** `to_jsonable(value)`: `None` stays `None`, a time becomes its ISO text. */
  function ToJsonable(value: Option<Time>): (r: Option<string>)
    ensures r.Some? <==> value.Some?
    ensures r.Some? ==> Present(r)
  {
    match value
    case None => None
    case Some(t) => Some(IsoFormat(FromSeconds(t)))
  }

  /** The pieces of `A-B-CTD:E:F`. */
  lemma IsoPieces(a: string, b: string, c: string, e: string, f: string, g: string)
    requires |a| == 4 && |b| == 2 && |c| == 2 && |e| == 2 && |f| == 2 && |g| == 2
    ensures var s := a + "-" + b + "-" + c + "T" + e + ":" + f + ":" + g;
      && |s| == 19
      && s[..4] == a && s[5..7] == b && s[8..10] == c
      && s[11..13] == e && s[14..16] == f && s[17..19] == g
  {
  }

  /** The ISO text carries every field of the instant at fixed positions, so
      distinct instants render differently. */
  lemma IsoFormatFields(t: Time)
    requires FromSeconds(t).year <= 9999
    ensures var s := ToJsonable(Some(t)).value; var d := FromSeconds(t);
      && |s| == 19
      && AllDigits(s[..4]) && NumberOf(s[..4]) == d.year
      && AllDigits(s[5..7]) && NumberOf(s[5..7]) == d.month
      && AllDigits(s[8..10]) && NumberOf(s[8..10]) == d.day
      && AllDigits(s[11..13]) && NumberOf(s[11..13]) == d.hour
      && AllDigits(s[14..16]) && NumberOf(s[14..16]) == d.minute
      && AllDigits(s[17..19]) && NumberOf(s[17..19]) == d.second
  {
    var d := FromSeconds(t);
    Pad4(d.year); Pad2(d.month); Pad2(d.day); Pad2(d.hour); Pad2(d.minute); Pad2(d.second);
    IsoPieces(Decimal(d.year, 4), Decimal(d.month, 2), Decimal(d.day, 2),
              Decimal(d.hour, 2), Decimal(d.minute, 2), Decimal(d.second, 2));
  }

  /** Below year 10000 the ISO text names its instant: two instants with the
      same text are the same instant. */
  lemma ToJsonableInjective(t1: Time, t2: Time)
    requires FromSeconds(t1).year <= 9999 && FromSeconds(t2).year <= 9999
    requires ToJsonable(Some(t1)) == ToJsonable(Some(t2))
    ensures t1 == t2
  {
    IsoFormatFields(t1);
    IsoFormatFields(t2);
    assert FromSeconds(t1) == FromSeconds(t2);
  }

  /** The library parser reads the rendered text of `t` back as `t`, as
      `datetime.fromisoformat` does for the output of `isoformat`. */
  predicate ReadsBack(iso: IsoParser, t: Option<Time>) {
    t.Some? ==> iso(ToJsonable(t).value) == t
  }
}
