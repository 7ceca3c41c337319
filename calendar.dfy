/**
 * The part of Python's `datetime.strptime` / `strftime` that the pipeline
 * uses: reading `%d/%m/%Y` and `%Y-%m-%d`, and printing `%d %B %Y` and
 * `%Y-%m-%dT00:00:00.000Z`.
 *
 * `strptime` matches each directive with a fixed regular expression and
 * then asks `datetime` whether the date exists:
 *   %d  3[01] | [12]\d | 0[1-9] | [1-9] | " "[1-9]
 *   %m  1[0-2] | 0[1-9] | [1-9]
 *   %Y  four digits, and `datetime` refuses year 0
 * None of these can contain `/` or `-`, so a text matches a layout exactly
 * when splitting it at the separator gives three fields, each in its
 * directive's language.
 */
module Calendar {
  import opened Wrappers
  import opened Text

  datatype Date = Date(year: int, month: int, day: int)

  predicate IsLeapYear(y: int) {
    y % 4 == 0 && (y % 100 != 0 || y % 400 == 0)
  }

  function DaysInMonth(y: int, m: int): (n: int)
    requires 1 <= m <= 12
    ensures 28 <= n <= 31
    ensures m == 2 ==> (n == 29 <==> IsLeapYear(y))
  {
    if m == 2 then (if IsLeapYear(y) then 29 else 28)
    else if m == 4 || m == 6 || m == 9 || m == 11 then 30
    else 31
  }

  /** A date that `datetime` accepts. */
  predicate ValidDate(d: Date) {
    1 <= d.year <= 9999 && 1 <= d.month <= 12 && 1 <= d.day <= DaysInMonth(d.year, d.month)
  }

  /** The text matched by `%d`, and the day it denotes. */
  function DayField(f: string): (r: Option<int>)
    ensures r.Some? ==> 1 <= r.value <= 31
  {
    if |f| == 1 && '1' <= f[0] <= '9' then Some(DigitValue(f[0]))
    else if |f| == 2 && f[0] == ' ' && '1' <= f[1] <= '9' then Some(DigitValue(f[1]))
    else if |f| == 2 && AllDigits(f) && 1 <= DigitsValue(f) <= 31 then Some(DigitsValue(f))
    else None
  }

  /** The text matched by `%m`, and the month it denotes. */
  function MonthField(f: string): (r: Option<int>)
    ensures r.Some? ==> 1 <= r.value <= 12
  {
    if |f| == 1 && '1' <= f[0] <= '9' then Some(DigitValue(f[0]))
    else if |f| == 2 && AllDigits(f) && 1 <= DigitsValue(f) <= 12 then Some(DigitsValue(f))
    else None
  }

  /** The text matched by `%Y`, and the year it denotes. */
  function YearField(f: string): (r: Option<int>)
    ensures r.Some? ==> 0 <= r.value <= 9999
  {
    if |f| == 4 && AllDigits(f) then
      assert Pow10(4) == 10000;
      Some(DigitsValue(f))
    else None
  }

  /** `datetime(year, month, day)` on fields already read, or nothing when it raises. */
  function MakeDate(y: Option<int>, m: Option<int>, d: Option<int>): (r: Option<Date>)
    ensures r.Some? ==> ValidDate(r.value)
  {
    if y.Some? && m.Some? && d.Some? && 1 <= y.value <= 9999 && 1 <= m.value <= 12
       && 1 <= d.value <= DaysInMonth(y.value, m.value)
    then Some(Date(y.value, m.value, d.value))
    else None
  }

  /** `datetime.strptime(s, '%d/%m/%Y')` */
  function ParseDayMonthYear(s: string): (r: Option<Date>)
    ensures r.Some? ==> ValidDate(r.value)
  {
    var f := Split(s, '/');
    if |f| != 3 then None else MakeDate(YearField(f[2]), MonthField(f[1]), DayField(f[0]))
  }

  /** `datetime.strptime(s, '%Y-%m-%d')` */
  function ParseYearMonthDay(s: string): (r: Option<Date>)
    ensures r.Some? ==> ValidDate(r.value)
  {
    var f := Split(s, '-');
    if |f| != 3 then None else MakeDate(YearField(f[0]), MonthField(f[1]), DayField(f[2]))
  }

  /** The layout choice both callers make: day first when the text has a `/`. */
  function ParseDate(s: string): (r: Option<Date>)
    ensures r.Some? ==> ValidDate(r.value)
  {
    if '/' in s then ParseDayMonthYear(s) else ParseYearMonthDay(s)
  }

  /** `a` is a strictly earlier day than `b`. */
  predicate Before(a: Date, b: Date) {
    a.year < b.year || (a.year == b.year && (a.month < b.month || (a.month == b.month && a.day < b.day)))
  }

  /** `%B` in the English locale. */
  function MonthName(m: int): string
    requires 1 <= m <= 12
  {
    ["January", "February", "March", "April", "May", "June", "July",
     "August", "September", "October", "November", "December"][m - 1]
  }

  /** `strftime('%d %B %Y')` */
  function LongDate(d: Date): string
    requires ValidDate(d)
  {
    PadNat(d.day, 2) + " " + MonthName(d.month) + " " + PadNat(d.year, 4)
  }

  /** `strftime('%Y-%m-%dT00:00:00.000Z')`: midnight UTC in the date-time
      form of section 5.6 of RFC 3339. */
  function IsoInstant(d: Date): string
    requires ValidDate(d)
  {
    PadNat(d.year, 4) + "-" + PadNat(d.month, 2) + "-" + PadNat(d.day, 2) + "T00:00:00.000Z"
  }

  /** The numeric form `DD/MM/YYYY`, zero-padded. */
  function DayMonthYearText(d: Date): string
    requires ValidDate(d)
  {
    PadNat(d.day, 2) + "/" + PadNat(d.month, 2) + "/" + PadNat(d.year, 4)
  }

  /** The numeric form `YYYY-MM-DD`, zero-padded. */
  function YearMonthDayText(d: Date): string
    requires ValidDate(d)
  {
    PadNat(d.year, 4) + "-" + PadNat(d.month, 2) + "-" + PadNat(d.day, 2)
  }

  // ---------------------------------------------------------------------
  // Properties

  lemma PaddedFields(d: Date)
    requires ValidDate(d)
    ensures YearField(PadNat(d.year, 4)) == Some(d.year)
    ensures MonthField(PadNat(d.month, 2)) == Some(d.month)
    ensures DayField(PadNat(d.day, 2)) == Some(d.day)
    ensures '/' !in PadNat(d.day, 2) && '/' !in PadNat(d.month, 2) && '/' !in PadNat(d.year, 4)
    ensures '-' !in PadNat(d.day, 2) && '-' !in PadNat(d.month, 2) && '-' !in PadNat(d.year, 4)
  {
    var dd, mm, yy := PadNat(d.day, 2), PadNat(d.month, 2), PadNat(d.year, 4);
    assert |dd| == 2 && |mm| == 2 && |yy| == 4;
    assert forall i :: 0 <= i < |dd| ==> IsDigit(dd[i]);
    assert forall i :: 0 <= i < |mm| ==> IsDigit(mm[i]);
    assert forall i :: 0 <= i < |yy| ==> IsDigit(yy[i]);
  }

  /** Every date `datetime` accepts is read back from its zero-padded
      `DD/MM/YYYY` text. */
  lemma ParseDayMonthYearText(d: Date)
    requires ValidDate(d)
    ensures ParseDate(DayMonthYearText(d)) == Some(d)
  {
    PaddedFields(d);
    var dd, mm, yy := PadNat(d.day, 2), PadNat(d.month, 2), PadNat(d.year, 4);
    var s := DayMonthYearText(d);
    assert s == dd + "/" + mm + "/" + yy;
    Join3(dd, mm, yy, "/");
    SplitJoin([dd, mm, yy], '/');
    assert s[2] == '/';
  }

  /** Every date `datetime` accepts is read back from its zero-padded
      `YYYY-MM-DD` text. */
  lemma ParseYearMonthDayText(d: Date)
    requires ValidDate(d)
    ensures ParseDate(YearMonthDayText(d)) == Some(d)
  {
    PaddedFields(d);
    var dd, mm, yy := PadNat(d.day, 2), PadNat(d.month, 2), PadNat(d.year, 4);
    var s := YearMonthDayText(d);
    assert s == yy + ['-'] + mm + ['-'] + dd;
    SplitThree(yy, mm, dd, '-');
  }

  /** The 29th of February is read exactly in leap years. */
  lemma LeapDay(y: int)
    requires 1 <= y <= 9999
    ensures ParseDate("29/02/" + PadNat(y, 4)).Some? <==> IsLeapYear(y)
  {
    LeapDayText(PadNat(y, 4));
    PaddedYear(y);
    assert DigitsValue("29") == 29 && DigitsValue("02") == 2;
    assert DayField("29") == Some(29);
    assert MonthField("02") == Some(2);
  }

  /** `DD/MM/YYYY` with a four-digit year splits into its three fields. */
  lemma LeapDayText(yy: string)
    requires |yy| == 4 && AllDigits(yy)
    ensures ParseDate("29/02/" + yy) == MakeDate(YearField(yy), MonthField("02"), DayField("29"))
  {
    assert '/' !in yy by {
      forall i | 0 <= i < 4 ensures yy[i] != '/' { assert IsDigit(yy[i]); }
    }
    var s := "29/02/" + yy;
    assert s == "29" + ['/'] + "02" + ['/'] + yy;
    SplitThree("29", "02", yy, '/');
    assert s[2] == '/';
  }

  lemma PaddedYear(y: int)
    requires 1 <= y <= 9999
    ensures |PadNat(y, 4)| == 4 && AllDigits(PadNat(y, 4)) && YearField(PadNat(y, 4)) == Some(y)
  {
  }

  /** The long form reads back: its first two characters are a `%d` field
      giving the day, its last four a `%Y` field giving the year, and the
      month's name stands between them. */
  lemma LongDateFields(d: Date)
    requires ValidDate(d)
    ensures |LongDate(d)| > 6
    ensures DayField(LongDate(d)[..2]) == Some(d.day)
    ensures YearField(LongDate(d)[|LongDate(d)| - 4..]) == Some(d.year)
    ensures LongDate(d)[2..|LongDate(d)| - 4] == " " + MonthName(d.month) + " "
  {
    PaddedFields(d);
    var dd, yy := PadNat(d.day, 2), PadNat(d.year, 4);
    Regroup5(dd, " ", MonthName(d.month), " ", yy);
    Slices3(dd, " " + MonthName(d.month) + " ", yy);
  }

  lemma Regroup5(a: string, s: string, m: string, t: string, y: string)
    ensures a + s + m + t + y == a + (s + m + t) + y
  {
  }

  /** The three parts of a concatenation are read back by slicing. */
  lemma Slices3(a: string, m: string, y: string)
    ensures (a + m + y)[..|a|] == a
    ensures (a + m + y)[|a + m + y| - |y|..] == y
    ensures (a + m + y)[|a|..|a + m + y| - |y|] == m
  {
  }
}
