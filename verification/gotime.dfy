/**
  The two uses of Go's time package that inbound message processing makes:
  `time.Parse("20060102150405", s)` on the report date and
  `Format("2006-01-02 15:04:05")` on the parsed instant and on the clock
  reading. Parsing follows the library chunk by chunk for this one layout:
  a four-digit year, then `getnum` for month, day, hour, minute and second
  (all fixed two-digit fields except the hour, which may be one digit), each
  range check as soon as its field is read, an optional fractional second
  that the library accepts after the seconds even though the layout has
  none, a refusal of any text left over, and last the day-of-month check.
*/
module GoTime {
  import opened Wrappers

  /** A UTC civil instant at one-second precision. */
  datatype DateTime = DateTime(year: nat, month: nat, day: nat, hour: nat, minute: nat, second: nat)

  /** Why `time.Parse` refused its input. */
  datatype DateError =
    | Malformed          // a field is missing or is not made of digits
    | MonthOutOfRange
    | HourOutOfRange
    | MinuteOutOfRange
    | SecondOutOfRange
    | ExtraText          // characters left after the seconds
    | DayOutOfRange      // day 0, or past the end of its month

  /** Gregorian leap years. */
  predicate IsLeap(year: nat) {
    year % 4 == 0 && (year % 100 != 0 || year % 400 == 0)
  }

  function DaysIn(month: nat, year: nat): nat
    requires 1 <= month <= 12
  {
    if month == 2 then (if IsLeap(year) then 29 else 28)
    else if month == 4 || month == 6 || month == 9 || month == 11 then 30
    else 31
  }

  /** An instant both layouts can carry: a four-digit year and in-range fields. */
  predicate Valid(t: DateTime) {
    && t.year <= 9999
    && 1 <= t.month <= 12
    && 1 <= t.day <= DaysIn(t.month, t.year)
    && t.hour < 24
    && t.minute < 60
    && t.second < 60
  }

  /** Fields that fit the fixed widths of the layouts, whether or not they are in range. */
  predicate Printable(t: DateTime) {
    t.year <= 9999 && t.month < 100 && t.day < 100 && t.hour < 100 && t.minute < 100 && t.second < 100
  }

  // ---------------------------------------------------------------- digits

  predicate IsDigit(c: char) { '0' <= c <= '9' }

  predicate AllDigits(s: string) {
    forall i :: 0 <= i < |s| ==> IsDigit(s[i])
  }

  function DigitValue(c: char): nat
    requires IsDigit(c)
  {
    c as int - '0' as int
  }

  function DigitChar(d: nat): char
    requires d < 10
  {
    ('0' as int + d) as char
  }

  /** The number a string of decimal digits denotes, most significant first. */
  function DecimalValue(s: string): nat
    requires AllDigits(s)
  {
    if |s| == 0 then 0 else 10 * DecimalValue(s[..|s| - 1]) + DigitValue(s[|s| - 1])
  }

  function Pow10(w: nat): nat {
    if w == 0 then 1 else 10 * Pow10(w - 1)
  }

  /**
    Go's `appendInt(b, n, width)` for a non-negative `n`: the decimal digits of
    `n`, left-padded with zeros to `width` characters, never truncated.
  */
  function Pad(n: nat, width: nat): string
    decreases n + width
  {
    if n < 10 && width <= 1 then [DigitChar(n)]
    else Pad(n / 10, if width == 0 then 0 else width - 1) + [DigitChar(n % 10)]
  }

  // ---------------------------------------------------------------- parsing

  /** A number read off the front of the input, and what follows it. */
  datatype Num = Num(value: nat, rest: string)

  /**
    Go's `getnum(s, fixed)`: one or two leading digits; a single digit is
    refused when `fixed` asks for exactly two.
  */
  function GetNum(v: string, fixed: bool): (r: Option<Num>)
    ensures r.Some? ==> r.value.value < 100 && |r.value.rest| < |v|
  {
    if |v| == 0 || !IsDigit(v[0]) then None
    else if |v| == 1 || !IsDigit(v[1]) then
      (if fixed then None else Some(Num(DigitValue(v[0]), v[1..])))
    else Some(Num(10 * DigitValue(v[0]) + DigitValue(v[1]), v[2..]))
  }

  /** A separator `.` or `,` followed by at least one digit. */
  predicate StartsFraction(v: string) {
    |v| >= 2 && (v[0] == '.' || v[0] == ',') && IsDigit(v[1])
  }

  /** The length of the run of digits at the front of `v`. */
  function DigitRun(v: string): (n: nat)
    ensures n <= |v|
    ensures AllDigits(v[..n])
    ensures n < |v| ==> !IsDigit(v[n])
  {
    if |v| == 0 || !IsDigit(v[0]) then 0
    else
      var n := 1 + DigitRun(v[1..]);
      assert v[..n] == [v[0]] + v[1..][..n - 1];
      n
  }

  /**
    The fractional second the library accepts after the seconds field although
    the layout does not mention one: it is consumed and later dropped by the
    output layout.
  */
  function SkipFraction(v: string): string {
    if StartsFraction(v) then v[1..][DigitRun(v[1..])..] else v
  }

  /** `time.Parse("20060102150405", s)`, reduced to the fields the output layouts print. */
  function ParseCompact(s: string): (r: Result<DateTime, DateError>)
    ensures r.Ok? ==> Valid(r.value)
  {
    // the year: four characters, the first a digit and the whole an integer
    if |s| < 4 || !AllDigits(s[..4]) then Err(Malformed)
    else
      DecimalBound(s[..4]);
      ParseMonth(DecimalValue(s[..4]), s[4..])
  }

  function ParseMonth(year: nat, v: string): (r: Result<DateTime, DateError>)
    requires year <= 9999
    ensures r.Ok? ==> Valid(r.value)
  {
    match GetNum(v, true)
    case None => Err(Malformed)
    case Some(mo) =>
      if mo.value < 1 || 12 < mo.value then Err(MonthOutOfRange)
      else ParseDay(year, mo.value, mo.rest)
  }

  /** Any one- or two-digit day is read here; the day is checked against its month last. */
  function ParseDay(year: nat, month: nat, v: string): (r: Result<DateTime, DateError>)
    requires year <= 9999 && 1 <= month <= 12
    ensures r.Ok? ==> Valid(r.value)
  {
    match GetNum(v, true)
    case None => Err(Malformed)
    case Some(dd) => ParseHour(year, month, dd.value, dd.rest)
  }

  /** The layout's `15` is the one field `getnum` reads without a fixed width. */
  function ParseHour(year: nat, month: nat, day: nat, v: string): (r: Result<DateTime, DateError>)
    requires year <= 9999 && 1 <= month <= 12
    ensures r.Ok? ==> Valid(r.value)
  {
    match GetNum(v, false)
    case None => Err(Malformed)
    case Some(hh) =>
      if 24 <= hh.value then Err(HourOutOfRange)
      else ParseMinute(year, month, day, hh.value, hh.rest)
  }

  function ParseMinute(year: nat, month: nat, day: nat, hour: nat, v: string): (r: Result<DateTime, DateError>)
    requires year <= 9999 && 1 <= month <= 12 && hour < 24
    ensures r.Ok? ==> Valid(r.value)
  {
    match GetNum(v, true)
    case None => Err(Malformed)
    case Some(mi) =>
      if 60 <= mi.value then Err(MinuteOutOfRange)
      else ParseSecond(year, month, day, hour, mi.value, mi.rest)
  }

  /** The seconds, an optional fractional second, the end of input, then the day of the month. */
  function ParseSecond(year: nat, month: nat, day: nat, hour: nat, minute: nat, v: string): (r: Result<DateTime, DateError>)
    requires year <= 9999 && 1 <= month <= 12 && hour < 24 && minute < 60
    ensures r.Ok? ==> Valid(r.value)
  {
    match GetNum(v, true)
    case None => Err(Malformed)
    case Some(ss) =>
      if 60 <= ss.value then Err(SecondOutOfRange)
      else if |SkipFraction(ss.rest)| > 0 then Err(ExtraText)
      else if day < 1 || DaysIn(month, year) < day then Err(DayOutOfRange)
      else Ok(DateTime(year, month, day, hour, minute, ss.value))
  }

  // ---------------------------------------------------------------- formatting

  /**
    `Format("2006-01-02 15:04:05")`. For a four-digit year and two-digit
    fields the output is 19 characters.
  */
  function Format(t: DateTime): (r: string)
    ensures Printable(t) ==> |r| == 19
  {
    var y, mo, d := Pad(t.year, 4), Pad(t.month, 2), Pad(t.day, 2);
    var h, mi, se := Pad(t.hour, 2), Pad(t.minute, 2), Pad(t.second, 2);
    var r := y + "-" + mo + "-" + d + " " + h + ":" + mi + ":" + se;
    if Printable(t) then
      assert Pow10(2) == 100 && Pow10(4) == 10000;
      PadIsDecimal(t.year, 4);
      PadIsDecimal(t.month, 2);
      PadIsDecimal(t.day, 2);
      PadIsDecimal(t.hour, 2);
      PadIsDecimal(t.minute, 2);
      PadIsDecimal(t.second, 2);
      r
    else r
  }

  /** `Format("20060102150405")`: the layout the report date arrives in. */
  function Compact(t: DateTime): string {
    Pad(t.year, 4) + Pad(t.month, 2) + Pad(t.day, 2)
    + Pad(t.hour, 2) + Pad(t.minute, 2) + Pad(t.second, 2)
  }

  /** The characters the output layout adds between the fields. */
  predicate IsSeparator(c: char) { c == '-' || c == ' ' || c == ':' }

  function StripSeparators(s: string): (r: string)
    ensures |r| <= |s|
  {
    if |s| == 0 then ""
    else (if IsSeparator(s[0]) then "" else [s[0]]) + StripSeparators(s[1..])
  }

  /** Exactly fourteen ASCII digits: the report date as devices send it. */
  predicate FourteenDigits(s: string) {
    |s| == 14 && AllDigits(s)
  }

  /** The fields a fourteen-digit date names, before any range check. */
  function FieldsOf(s: string): DateTime
    requires FourteenDigits(s)
  {
    DateTime(DecimalValue(s[..4]), DecimalValue(s[4..6]), DecimalValue(s[6..8]),
             DecimalValue(s[8..10]), DecimalValue(s[10..12]), DecimalValue(s[12..14]))
  }

  /** The original date with the output layout's separators put back in. */
  function Reinsert(s: string): string
    requires |s| == 14
  {
    s[..4] + "-" + s[4..6] + "-" + s[6..8] + " " + s[8..10] + ":" + s[10..12] + ":" + s[12..14]
  }

  // ---------------------------------------------------------------- lemmas

  lemma {:induction false} DecimalBound(s: string)
    requires AllDigits(s)
    ensures DecimalValue(s) < Pow10(|s|)
  {
    if |s| > 0 {
      DecimalBound(s[..|s| - 1]);
    }
  }

  lemma DecimalAppend(s: string, c: char)
    requires AllDigits(s) && IsDigit(c)
    ensures AllDigits(s + [c])
    ensures DecimalValue(s + [c]) == 10 * DecimalValue(s) + DigitValue(c)
  {
    assert (s + [c])[..|s|] == s;
  }

  lemma DivMod10(a: nat, b: nat)
    requires b < 10
    ensures (10 * a + b) / 10 == a && (10 * a + b) % 10 == b
  {
  }

  /** Padding a number that fits in `width` digits gives `width` digits denoting it. */
  lemma {:induction false} PadIsDecimal(n: nat, width: nat)
    requires 1 <= width && n < Pow10(width)
    ensures |Pad(n, width)| == width
    ensures AllDigits(Pad(n, width))
    ensures DecimalValue(Pad(n, width)) == n
  {
    if width == 1 {
      assert Pad(n, width) == [DigitChar(n)];
      assert [DigitChar(n)][..0] == [];
    } else {
      PadIsDecimal(n / 10, width - 1);
      var p := Pad(n / 10, width - 1);
      assert Pad(n, width) == p + [DigitChar(n % 10)];
      DecimalAppend(p, DigitChar(n % 10));
    }
  }

  /** Padding the value of a digit string to its own length gives the string back. */
  lemma {:induction false} PadOfDecimal(s: string)
    requires 1 <= |s| && AllDigits(s)
    ensures Pad(DecimalValue(s), |s|) == s
  {
    var init := s[..|s| - 1];
    var d := DigitValue(s[|s| - 1]);
    var n := DecimalValue(s);
    assert n == 10 * DecimalValue(init) + d;
    if |s| == 1 {
      assert DecimalValue(init) == 0;
      assert Pad(n, 1) == [DigitChar(d)];
    } else {
      DivMod10(DecimalValue(init), d);
      PadOfDecimal(init);
      assert Pad(n, |s|) == Pad(DecimalValue(init), |s| - 1) + [DigitChar(d)];
      assert s == init + [s[|s| - 1]];
    }
  }

  lemma GetNumTwoDigits(v: string, fixed: bool)
    requires |v| >= 2 && IsDigit(v[0]) && IsDigit(v[1])
    ensures AllDigits(v[..2])
    ensures GetNum(v, fixed) == Some(Num(DecimalValue(v[..2]), v[2..]))
  {
    var two := v[..2];
    assert two[..1] == [v[0]] && two[1] == v[1];
    assert [v[0]][..0] == [];
    assert DecimalValue([v[0]]) == DigitValue(v[0]);
    assert DecimalValue(two) == 10 * DigitValue(v[0]) + DigitValue(v[1]);
  }

  /** Checks in the order the parser makes them, on fields already read as numbers. */
  function CheckFields(t: DateTime): Result<DateTime, DateError> {
    if t.month < 1 || 12 < t.month then Err(MonthOutOfRange)
    else if 24 <= t.hour then Err(HourOutOfRange)
    else if 60 <= t.minute then Err(MinuteOutOfRange)
    else if 60 <= t.second then Err(SecondOutOfRange)
    else if t.day < 1 || DaysIn(t.month, t.year) < t.day then Err(DayOutOfRange)
    else Ok(t)
  }

  lemma AllDigitsSlice(s: string, i: nat, j: nat)
    requires AllDigits(s) && i <= j <= |s|
    ensures AllDigits(s[i..j])
  {
  }

  /**
    On fourteen digits the chunked parser is a plain range check of the six
    fields, made in the order month, hour, minute, second, day.
  */
  lemma ParseFourteenDigits(s: string)
    requires FourteenDigits(s)
    ensures ParseCompact(s) == CheckFields(FieldsOf(s))
  {
    var v4 := s[4..];
    GetNumTwoDigits(v4, true);
    assert v4[..2] == s[4..6] && v4[2..] == s[6..];
    var v6 := s[6..];
    GetNumTwoDigits(v6, true);
    assert v6[..2] == s[6..8] && v6[2..] == s[8..];
    var v8 := s[8..];
    GetNumTwoDigits(v8, false);
    assert v8[..2] == s[8..10] && v8[2..] == s[10..];
    var v10 := s[10..];
    GetNumTwoDigits(v10, true);
    assert v10[..2] == s[10..12] && v10[2..] == s[12..];
    var v12 := s[12..];
    GetNumTwoDigits(v12, true);
    assert v12[..2] == s[12..14] && v12[2..] == [];
    assert SkipFraction([]) == [];
  }

  /** A fourteen-digit date is accepted exactly when its fields form a valid instant. */
  lemma FourteenDigitsAcceptedIff(s: string)
    requires FourteenDigits(s)
    ensures ParseCompact(s).Ok? <==> Valid(FieldsOf(s))
    ensures ParseCompact(s).Ok? ==> ParseCompact(s).value == FieldsOf(s)
  {
    ParseFourteenDigits(s);
    DecimalBound(s[..4]);
  }

  /** Each out-of-range field of a fourteen-digit date makes the parse fail. */
  lemma FourteenDigitsRejected(s: string)
    requires FourteenDigits(s)
    ensures var t := FieldsOf(s);
      (t.month < 1 || 12 < t.month ==> ParseCompact(s) == Err(MonthOutOfRange))
      && (1 <= t.month <= 12 && (t.day < 1 || DaysIn(t.month, t.year) < t.day) ==> ParseCompact(s).Err?)
      && (24 <= t.hour ==> ParseCompact(s).Err?)
      && (60 <= t.minute ==> ParseCompact(s).Err?)
      && (60 <= t.second ==> ParseCompact(s).Err?)
  {
    ParseFourteenDigits(s);
  }

  /** Fields are the values of consecutive slices, each padded back to its width. */
  lemma CompactOfFields(s: string)
    requires FourteenDigits(s)
    ensures Compact(FieldsOf(s)) == s
  {
    var a, b, c := s[..4], s[4..6], s[6..8];
    var d, e, f := s[8..10], s[10..12], s[12..14];
    AllDigitsSlice(s, 0, 4);
    AllDigitsSlice(s, 4, 6);
    AllDigitsSlice(s, 6, 8);
    AllDigitsSlice(s, 8, 10);
    AllDigitsSlice(s, 10, 12);
    AllDigitsSlice(s, 12, 14);
    PadOfDecimal(a);
    PadOfDecimal(b);
    PadOfDecimal(c);
    PadOfDecimal(d);
    PadOfDecimal(e);
    PadOfDecimal(f);
    var t := FieldsOf(s);
    assert Pad(t.year, 4) == a;
    assert Pad(t.month, 2) == b;
    assert Pad(t.day, 2) == c;
    assert Pad(t.hour, 2) == d;
    assert Pad(t.minute, 2) == e;
    assert Pad(t.second, 2) == f;
    assert s == a + b + c + d + e + f;
  }

  /** The six fixed-width pieces of the input layout, as slices of the printed date. */
  lemma CompactSlices(t: DateTime)
    requires Printable(t)
    ensures |Compact(t)| == 14
    ensures Compact(t)[..4] == Pad(t.year, 4)
    ensures Compact(t)[4..6] == Pad(t.month, 2)
    ensures Compact(t)[6..8] == Pad(t.day, 2)
    ensures Compact(t)[8..10] == Pad(t.hour, 2)
    ensures Compact(t)[10..12] == Pad(t.minute, 2)
    ensures Compact(t)[12..14] == Pad(t.second, 2)
  {
    PadIsDecimal(t.year, 4);
    PadIsDecimal(t.month, 2);
    PadIsDecimal(t.day, 2);
    PadIsDecimal(t.hour, 2);
    PadIsDecimal(t.minute, 2);
    PadIsDecimal(t.second, 2);
  }

  /** Printing fields that fit in the input layout gives fourteen digits naming it. */
  lemma FieldsOfCompact(t: DateTime)
    requires Printable(t)
    ensures FourteenDigits(Compact(t))
    ensures FieldsOf(Compact(t)) == t
  {
    PadIsDecimal(t.year, 4);
    PadIsDecimal(t.month, 2);
    PadIsDecimal(t.day, 2);
    PadIsDecimal(t.hour, 2);
    PadIsDecimal(t.minute, 2);
    PadIsDecimal(t.second, 2);
    CompactSlices(t);
    var c := Compact(t);
    assert AllDigits(c) by {
      forall i | 0 <= i < 14
        ensures IsDigit(c[i])
      {
        if i < 4 { assert c[i] == c[..4][i]; }
        else if i < 6 { assert c[i] == c[4..6][i - 4]; }
        else if i < 8 { assert c[i] == c[6..8][i - 6]; }
        else if i < 10 { assert c[i] == c[8..10][i - 8]; }
        else if i < 12 { assert c[i] == c[10..12][i - 10]; }
        else { assert c[i] == c[12..14][i - 12]; }
      }
    }
  }

  /** Parsing is a left inverse of printing in the input layout. */
  lemma ParseCompactRoundTrip(t: DateTime)
    requires Valid(t)
    ensures ParseCompact(Compact(t)) == Ok(t)
  {
    FieldsOfCompact(t);
    FourteenDigitsAcceptedIff(Compact(t));
  }

  /** The output layout is the input layout with separators inserted. */
  lemma FormatIsReinsertedCompact(t: DateTime)
    requires Printable(t)
    ensures |Compact(t)| == 14
    ensures Format(t) == Reinsert(Compact(t))
  {
    CompactSlices(t);
  }

  lemma {:induction false} StripConcat(a: string, b: string)
    ensures StripSeparators(a + b) == StripSeparators(a) + StripSeparators(b)
  {
    if |a| > 0 {
      assert (a + b)[1..] == a[1..] + b;
      StripConcat(a[1..], b);
    } else {
      assert a + b == b;
    }
  }

  lemma {:induction false} StripDigits(s: string)
    requires AllDigits(s)
    ensures StripSeparators(s) == s
  {
    if |s| > 0 {
      StripDigits(s[1..]);
      assert s == [s[0]] + s[1..];
    }
  }

  lemma StripAfterSeparator(a: string, sep: char, b: string)
    requires IsSeparator(sep) && AllDigits(b)
    ensures StripSeparators(a + [sep] + b) == StripSeparators(a) + b
  {
    var left := a + [sep];
    assert StripSeparators([sep]) == [] by {
      assert [sep][1..] == [];
    }
    StripConcat(a, [sep]);
    assert StripSeparators(left) == StripSeparators(a);
    StripConcat(left, b);
    StripDigits(b);
  }

  /** Removing the separators from the reformatted date gives the original digits. */
  lemma StripReinsert(s: string)
    requires FourteenDigits(s)
    ensures |Reinsert(s)| == 19
    ensures StripSeparators(Reinsert(s)) == s
  {
    var a, b, c, d, e, f := s[..4], s[4..6], s[6..8], s[8..10], s[10..12], s[12..14];
    AllDigitsSlice(s, 0, 4);
    AllDigitsSlice(s, 4, 6);
    AllDigitsSlice(s, 6, 8);
    AllDigitsSlice(s, 8, 10);
    AllDigitsSlice(s, 10, 12);
    AllDigitsSlice(s, 12, 14);
    StripDigits(a);
    var r1 := a + ['-'] + b;
    StripAfterSeparator(a, '-', b);
    var r2 := r1 + ['-'] + c;
    StripAfterSeparator(r1, '-', c);
    var r3 := r2 + [' '] + d;
    StripAfterSeparator(r2, ' ', d);
    var r4 := r3 + [':'] + e;
    StripAfterSeparator(r3, ':', e);
    var r5 := r4 + [':'] + f;
    StripAfterSeparator(r4, ':', f);
    assert Reinsert(s) == r5;
    assert s == a + b + c + d + e + f;
  }

  /**
    The reformatting promise for a fourteen-digit report date: when it parses,
    the output is 19 characters, the digits with `-`, ` ` and `:` put back at
    fixed places, and stripping those separators recovers the input.
  */
  lemma ReformatFourteenDigits(s: string)
    requires FourteenDigits(s) && ParseCompact(s).Ok?
    ensures Format(ParseCompact(s).value) == Reinsert(s)
    ensures |Format(ParseCompact(s).value)| == 19
    ensures StripSeparators(Format(ParseCompact(s).value)) == s
  {
    FourteenDigitsAcceptedIff(s);
    var t := FieldsOf(s);
    FormatIsReinsertedCompact(t);
    CompactOfFields(s);
    StripReinsert(s);
  }

  /** February 29th is accepted exactly in Gregorian leap years. */
  lemma LeapDayAcceptedIff(t: DateTime)
    requires t.year <= 9999 && t.month == 2 && t.day == 29
    requires t.hour < 24 && t.minute < 60 && t.second < 60
    ensures ParseCompact(Compact(t)).Ok? <==> IsLeap(t.year)
  {
    FieldsOfCompact(t);
    FourteenDigitsAcceptedIff(Compact(t));
  }

  /** What the library's optional fractional second leaves acceptable after the seconds. */
  predicate FractionTail(v: string) {
    |v| >= 2 && (v[0] == '.' || v[0] == ',') && AllDigits(v[1..])
  }

  lemma SkipFractionEmpty(v: string)
    requires |SkipFraction(v)| == 0
    ensures |v| == 0 || FractionTail(v)
  {
    if StartsFraction(v) {
      var n := DigitRun(v[1..]);
      assert n == |v[1..]|;
      assert v[1..][..n] == v[1..];
    }
  }

  lemma SecondShape(year: nat, month: nat, day: nat, hour: nat, minute: nat, v: string)
    requires year <= 9999 && 1 <= month <= 12 && hour < 24 && minute < 60
    requires ParseSecond(year, month, day, hour, minute, v).Ok?
    ensures |v| >= 2 && IsDigit(v[0]) && IsDigit(v[1])
    ensures |v| == 2 || FractionTail(v[2..])
    ensures ParseSecond(year, month, day, hour, minute, v) == ParseSecond(year, month, day, hour, minute, v[..2])
  {
    SkipFractionEmpty(v[2..]);
    assert v[..2][2..] == [];
    assert SkipFraction([]) == [];
  }

  lemma MinuteShape(year: nat, month: nat, day: nat, hour: nat, v: string)
    requires year <= 9999 && 1 <= month <= 12 && hour < 24
    requires ParseMinute(year, month, day, hour, v).Ok?
    ensures |v| >= 4 && IsDigit(v[0]) && IsDigit(v[1]) && IsDigit(v[2]) && IsDigit(v[3])
    ensures |v| == 4 || FractionTail(v[4..])
    ensures ParseMinute(year, month, day, hour, v) == ParseMinute(year, month, day, hour, v[..4])
  {
    var mi := GetNum(v, true).value;
    assert mi.rest == v[2..];
    SecondShape(year, month, day, hour, mi.value, v[2..]);
    assert v[2..][2..] == v[4..];
    assert v[..4][2..] == v[2..][..2];
  }

  lemma HourShape(year: nat, month: nat, day: nat, v: string)
    requires year <= 9999 && 1 <= month <= 12
    requires ParseHour(year, month, day, v).Ok?
    ensures |v| >= 6 && AllDigits(v[..6])
    ensures |v| == 6 || FractionTail(v[6..])
    ensures ParseHour(year, month, day, v) == ParseHour(year, month, day, v[..6])
  {
    var hh := GetNum(v, false).value;
    if |v| == 1 || !IsDigit(v[1]) {
      // a one-digit hour leaves a non-digit where the minutes must start
      MinuteShape(year, month, day, hh.value, v[1..]);
    }
    assert hh.rest == v[2..];
    MinuteShape(year, month, day, hh.value, v[2..]);
    assert v[2..][4..] == v[6..];
    assert v[..6][2..] == v[2..][..4];
  }

  lemma DayShape(year: nat, month: nat, v: string)
    requires year <= 9999 && 1 <= month <= 12
    requires ParseDay(year, month, v).Ok?
    ensures |v| >= 8 && AllDigits(v[..8])
    ensures |v| == 8 || FractionTail(v[8..])
    ensures ParseDay(year, month, v) == ParseDay(year, month, v[..8])
  {
    var dd := GetNum(v, true).value;
    assert dd.rest == v[2..];
    HourShape(year, month, dd.value, v[2..]);
    assert v[2..][6..] == v[8..];
    assert v[..8][2..] == v[2..][..6];
    assert forall i :: 2 <= i < 8 ==> v[..8][i] == v[2..][..6][i - 2];
  }

  lemma MonthShape(year: nat, v: string)
    requires year <= 9999
    requires ParseMonth(year, v).Ok?
    ensures |v| >= 10 && AllDigits(v[..10])
    ensures |v| == 10 || FractionTail(v[10..])
    ensures ParseMonth(year, v) == ParseMonth(year, v[..10])
  {
    var mo := GetNum(v, true).value;
    assert mo.rest == v[2..];
    DayShape(year, mo.value, v[2..]);
    assert v[2..][8..] == v[10..];
    assert v[..10][2..] == v[2..][..8];
    assert forall i :: 2 <= i < 10 ==> v[..10][i] == v[2..][..8][i - 2];
  }

  /**
    Every accepted report date is fourteen digits, optionally followed by a
    fractional second, and names the same instant as its first fourteen digits.
  */
  lemma AcceptedShape(s: string)
    requires ParseCompact(s).Ok?
    ensures |s| >= 14 && FourteenDigits(s[..14])
    ensures |s| == 14 || FractionTail(s[14..])
    ensures ParseCompact(s) == ParseCompact(s[..14])
  {
    DecimalBound(s[..4]);
    var year := DecimalValue(s[..4]);
    MonthShape(year, s[4..]);
    var p := s[..14];
    assert s[4..][10..] == s[14..];
    assert p[..4] == s[..4];
    assert p[4..] == s[4..][..10];
    assert FourteenDigits(p) by {
      forall i | 0 <= i < 14 ensures IsDigit(p[i]) {
        if i < 4 { assert p[i] == s[..4][i]; }
        else { assert p[i] == s[4..][..10][i - 4]; }
      }
    }
  }

  /** Whatever form an accepted report date takes, the output is its first fourteen digits reformatted. */
  lemma ReformatAccepted(s: string)
    requires ParseCompact(s).Ok?
    ensures |s| >= 14 && FourteenDigits(s[..14])
    ensures Format(ParseCompact(s).value) == Reinsert(s[..14])
  {
    AcceptedShape(s);
    ReformatFourteenDigits(s[..14]);
  }
}
