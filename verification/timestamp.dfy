/**
 The timestamp pair of sigmf_tags.hpp: an instant printed in the shape of
 section 5.6 of RFC 3339, and the scanner that reads one back.  The calendar is
 "Seconds Since the Epoch", section 4.16 of POSIX.1-2017 XBD.
 */
module Timestamp {
  import opened Arithmetic
  import opened Json
  import opened JsonText
  import opened Scanner
  import opened Sequences

  // ---- the calendar ---------------------------------------------------------------

  const DAY := 86400
  const INT_MAX := 0x7fffffff

  predicate Leap(year: nat) {
    year % 4 == 0 && (year % 100 != 0 || year % 400 == 0)
  }

  function YearLength(year: nat): nat {
    if Leap(year) then 366 else 365
  }

  /** Days from the Epoch to 1 January, year by year. */
  function DaysBeforeYear(year: nat): nat
    requires 1970 <= year
  {
    if year == 1970 then 0 else DaysBeforeYear(year - 1) + YearLength(year - 1)
  }

  /** The offsets in the POSIX formula do not move the leap-year tests. */
  lemma LeapOffsets(year: nat)
    requires 1970 <= year
    ensures (year - 1968) % 4 == year % 4
    ensures (year - 1900) % 100 == year % 100
    ensures (year - 1600) % 400 == year % 400
  {
    ModShift(year - 1968, 492, 4);
    ModShift(year - 1900, 19, 100);
    ModShift(year - 1600, 4, 400);
  }

  function PosixDays(tmYear: nat): int
    requires 70 <= tmYear
  {
    (tmYear - 70) * 365 + (tmYear - 69) / 4 - (tmYear - 1) / 100 + (tmYear + 299) / 400
  }

  /** How each term of the formula grows from one year to the next. */
  lemma PosixQuotients(year: nat)
    requires 1970 <= year
    ensures (year - 1968) / 4 == (year - 1969) / 4 + if year % 4 == 0 then 1 else 0
    ensures (year - 1900) / 100 == (year - 1901) / 100 + if year % 100 == 0 then 1 else 0
    ensures (year - 1600) / 400 == (year - 1601) / 400 + if year % 400 == 0 then 1 else 0
  {
    LeapOffsets(year);
    DivStep(year - 1969, 4);
    DivStep(year - 1901, 100);
    DivStep(year - 1601, 400);
  }

  lemma CenturyIsFour(year: nat)
    ensures year % 100 == 0 ==> year % 4 == 0
    ensures year % 400 == 0 ==> year % 100 == 0
  {
    ModUnique(year, 4, 25 * (year / 100) + year % 100 / 4, year % 100 % 4);
    ModUnique(year, 100, 4 * (year / 400) + year % 400 / 100, year % 400 % 100);
  }

  lemma PosixStep(year: nat)
    requires 1970 <= year
    ensures PosixDays(year - 1900 + 1) == PosixDays(year - 1900) + YearLength(year)
  {
    PosixQuotients(year);
    CenturyIsFour(year);
  }

  /** The closed formula POSIX gives for the days before a year. */
  lemma {:induction false} PosixFormula(year: nat)
    requires 1970 <= year
    ensures DaysBeforeYear(year) == PosixDays(year - 1900)
  {
    if year > 1970 {
      PosixFormula(year - 1);
      PosixStep(year - 1);
    }
  }

  /** Days from 1 January to the first of a month; month 13 is the year's end. */
  function DaysBeforeMonth(year: nat, month: nat): nat
    requires 1 <= month <= 13
  {
    var common := [0, 31, 59, 90, 120, 151, 181, 212, 243, 273, 304, 334, 365];
    common[month - 1] + if month > 2 && Leap(year) then 1 else 0
  }

  datatype Tm = Tm(year: nat, month: nat, day: nat, hour: nat, minute: nat, second: nat)

  function YearOf(days: nat, from: nat): (year: nat)
    requires 1970 <= from && DaysBeforeYear(from) <= days
    ensures from <= year && DaysBeforeYear(year) <= days < DaysBeforeYear(year + 1)
    decreases days - DaysBeforeYear(from)
  {
    if days < DaysBeforeYear(from + 1) then from else YearOf(days, from + 1)
  }

  function MonthOf(year: nat, yday: nat, from: nat): (month: nat)
    requires 1 <= from <= 12 && DaysBeforeMonth(year, from) <= yday < YearLength(year)
    ensures from <= month <= 12
    ensures DaysBeforeMonth(year, month) <= yday < DaysBeforeMonth(year, month + 1)
    decreases 12 - from
  {
    if from == 12 || yday < DaysBeforeMonth(year, from + 1) then from else MonthOf(year, yday, from + 1)
  }

  /** The calendar date so many days after the Epoch, at midnight. */
  function DateOf(days: nat): Tm {
    var year := YearOf(days, 1970);
    var yday := days - DaysBeforeYear(year);
    var month := MonthOf(year, yday, 1);
    Tm(year, month, yday - DaysBeforeMonth(year, month) + 1, 0, 0, 0)
  }

  /** gmtime_r(), for instants at or after the Epoch. */
  function Gmtime(seconds: nat): Tm {
    var clock := seconds % DAY;
    DateOf(seconds / DAY).(hour := clock / 3600, minute := clock / 60 % 60, second := clock % 60)
  }

  /** timegm() with a zero tm_sec; out-of-range days and hours carry over. */
  function Timegm(year: nat, month: nat, day: int, hour: int, minute: int): int
    requires 1970 <= year && 1 <= month <= 12
  {
    (DaysBeforeYear(year) + DaysBeforeMonth(year, month) + day - 1) * DAY + hour * 3600 + minute * 60
  }

  ghost predicate ValidTm(t: Tm) {
    && 1970 <= t.year && 1 <= t.month <= 12 && 1 <= t.day <= 31
    && t.day <= DaysBeforeMonth(t.year, t.month + 1) - DaysBeforeMonth(t.year, t.month)
    && t.hour < 24 && t.minute < 60 && t.second < 60
  }

  lemma DateNamesDay(days: nat)
    ensures var t := DateOf(days);
      && ValidTm(t)
      && DaysBeforeYear(t.year) + DaysBeforeMonth(t.year, t.month) + t.day - 1 == days
  {
  }

  /** A day, an hour and a minute more are as many seconds, whether or not the date has them. */
  lemma TimegmCarries(year: nat, month: nat, day: int, hour: int, minute: int, days: int, hours: int, minutes: int)
    requires 1970 <= year && 1 <= month <= 12
    ensures Timegm(year, month, day + days, hour + hours, minute + minutes)
         == Timegm(year, month, day, hour, minute) + days * 86400 + hours * 3600 + minutes * 60
  {
  }

  /** The broken-down time names the instant it came from. */
  lemma GmtimeInverts(seconds: nat)
    ensures var t := Gmtime(seconds);
      ValidTm(t) && Timegm(t.year, t.month, t.day, t.hour, t.minute) + t.second == seconds
  {
    DateNamesDay(seconds / DAY);
    ClockSplits(seconds % DAY);
    WholePart(seconds, DAY);
  }

  lemma ClockSplits(clock: nat)
    requires clock < DAY
    ensures clock / 3600 < 24 && clock == clock / 3600 * 3600 + clock / 60 % 60 * 60 + clock % 60
  {
    var minutes := clock / 60;
    WholePart(clock, 60);
    WholePart(minutes, 60);
    ModUnique(clock, 3600, minutes / 60, minutes % 60 * 60 + clock % 60);
  }

  lemma {:induction false} YearsOrdered(a: nat, b: nat)
    requires 1970 <= a <= b
    ensures DaysBeforeYear(a) + 365 * (b - a) <= DaysBeforeYear(b)
    decreases b
  {
    if a < b {
      YearsOrdered(a, b - 1);
    }
  }

  lemma {:induction false} MonthsOrdered(year: nat, a: nat, b: nat)
    requires 1 <= a <= b <= 13
    ensures DaysBeforeMonth(year, a) <= DaysBeforeMonth(year, b) <= YearLength(year)
  {
  }

  lemma YearOfUnique(days: nat, year: nat)
    requires 1970 <= year && DaysBeforeYear(year) <= days < DaysBeforeYear(year + 1)
    ensures YearOf(days, 1970) == year
  {
    var found := YearOf(days, 1970);
    YearsOrdered(found + 1, if found < year then year else found + 1);
    YearsOrdered(year + 1, if year < found then found else year + 1);
  }

  lemma MonthOfUnique(year: nat, yday: nat, month: nat)
    requires 1 <= month <= 12 && yday < YearLength(year)
    requires DaysBeforeMonth(year, month) <= yday < DaysBeforeMonth(year, month + 1)
    ensures MonthOf(year, yday, 1) == month
  {
    var found := MonthOf(year, yday, 1);
    MonthsOrdered(year, found + 1, if found < month then month else found + 1);
    MonthsOrdered(year, month + 1, if month < found then found else month + 1);
  }

  lemma ClockInverts(hour: nat, minute: nat, second: nat)
    requires hour < 24 && minute < 60 && second < 60
    ensures var clock := hour * 3600 + minute * 60 + second;
      clock < DAY && clock / 3600 == hour && clock / 60 % 60 == minute && clock % 60 == second
  {
    var clock := hour * 3600 + minute * 60 + second;
    ModUnique(clock, 3600, hour, minute * 60 + second);
    ModUnique(clock, 60, hour * 60 + minute, second);
    ModUnique(hour * 60 + minute, 60, hour, minute);
  }

  lemma DateInverts(t: Tm)
    requires ValidTm(t)
    ensures DateOf(DaysBeforeYear(t.year) + DaysBeforeMonth(t.year, t.month) + t.day - 1)
         == Tm(t.year, t.month, t.day, 0, 0, 0)
  {
    var yday := DaysBeforeMonth(t.year, t.month) + t.day - 1;
    MonthsOrdered(t.year, t.month + 1, 13);
    YearOfUnique(DaysBeforeYear(t.year) + yday, t.year);
    MonthOfUnique(t.year, yday, t.month);
  }

  /** And every calendar date comes back from the instant it names. */
  lemma TimegmInverts(t: Tm)
    requires ValidTm(t)
    ensures var s := Timegm(t.year, t.month, t.day, t.hour, t.minute) + t.second;
      s >= 0 && Gmtime(s) == t
  {
    var days := DaysBeforeYear(t.year) + DaysBeforeMonth(t.year, t.month) + t.day - 1;
    var clock := t.hour * 3600 + t.minute * 60 + t.second;
    ClockInverts(t.hour, t.minute, t.second);
    ModUnique(days * DAY + clock, DAY, days, clock);
    DateInverts(t);
  }

  // ---- the calendar, day by day ---------------------------------------------------------

  /** Thirty days have April, June, September and November; February 28, or 29 in a leap year. */
  function MonthLength(year: nat, month: nat): nat {
    if month == 4 || month == 6 || month == 9 || month == 11 then 30
    else if month == 2 then (if year % 4 == 0 && (year % 100 != 0 || year % 400 == 0) then 29 else 28)
    else 31
  }

  /** The date after a date, told from the lengths of months alone. */
  function NextDate(t: Tm): Tm {
    if t.day < MonthLength(t.year, t.month) then t.(day := t.day + 1)
    else if t.month < 12 then t.(month := t.month + 1, day := 1)
    else t.(year := t.year + 1, month := 1, day := 1)
  }

  lemma TableSpacing(year: nat, month: nat)
    requires 1 <= month <= 12
    ensures DaysBeforeMonth(year, month + 1) - DaysBeforeMonth(year, month) == MonthLength(year, month)
    ensures DaysBeforeMonth(year, 1) == 0 && DaysBeforeMonth(year, 13) == YearLength(year)
  {
  }

  function DayNumber(t: Tm): int
    requires 1970 <= t.year && 1 <= t.month <= 12
  {
    DaysBeforeYear(t.year) + DaysBeforeMonth(t.year, t.month) + t.day - 1
  }

  lemma NextDayNumber(t: Tm, next: Tm)
    requires ValidTm(t) && next == NextDate(t)
    ensures ValidTm(next) && DayNumber(next) == DayNumber(t) + 1
  {
    TableSpacing(t.year, t.month);
    TableSpacing(next.year, next.month);
  }

  /** Only the first of January 1970 has no day before it. */
  lemma FirstNumber(t: Tm)
    requires ValidTm(t) && DayNumber(t) == 0
    ensures t.year == 1970 && t.month == 1 && t.day == 1
  {
    YearsOrdered(1970, t.year);
    TableSpacing(t.year, 1);
    if t.month > 1 { MonthsOrdered(t.year, 2, t.month); }
  }

  lemma DateParts(days: nat, t: Tm)
    requires t == DateOf(days)
    ensures ValidTm(t) && DayNumber(t) == days && t.hour == t.minute == t.second == 0
  {
    DateNamesDay(days);
  }

  /** The first day is 1 January 1970. */
  lemma FirstDate(days: nat, t: Tm)
    requires t == DateOf(days) && days == 0
    ensures t == Tm(1970, 1, 1, 0, 0, 0)
  {
    DateParts(days, t);
    FirstNumber(t);
  }

  /** And every day is the calendar's next. */
  lemma DatesSucceed(days: nat, t: Tm)
    requires t == DateOf(days)
    ensures DateOf(days + 1) == NextDate(t)
  {
    DateParts(days, t);
    NextNamesIt(days, t, NextDate(t));
  }

  lemma NextNamesIt(days: nat, t: Tm, next: Tm)
    requires ValidTm(t) && DayNumber(t) == days && next == NextDate(t)
    requires t.hour == t.minute == t.second == 0
    ensures DateOf(days + 1) == next
  {
    NextDayNumber(t, next);
    DateInverts(next);
  }

  // ---- printing an instant -----------------------------------------------------------

  function Pad2(n: nat): (s: string)
    requires n < 100
    ensures |s| == 2
  {
    [DigitChar(n / 10), DigitChar(n % 10)]
  }

  function Pad3(n: nat): (s: string)
    requires n < 1000
    ensures |s| == 3
  {
    [DigitChar(n / 100)] + Pad2(n % 100)
  }

  /** "%4d-%2d-%2dT%2d:%2d:" */
  const DATE_FORMAT: Format := [(4, '-'), (2, '-'), (2, 'T'), (2, ':'), (2, ':')]

  /** "%Y", which puts a plus in front of a year of more than four digits. */
  function YearText(year: nat): string {
    if year > 9999 then "+" + Decimal(year) else Decimal(year)
  }

  function DateFields(t: Tm): seq<string>
    requires ValidTm(t)
  {
    [YearText(t.year), Pad2(t.month), Pad2(t.day), Pad2(t.hour), Pad2(t.minute)]
  }

  function SecondText(second: nat, millis: nat): string
    requires second < 60 && millis < 1000
  {
    Pointed(Pad2(second), Pad3(millis))
  }

  function Pointed(whole: string, part: string): string {
    whole + ("." + (part + "Z"))
  }

  /** strftime "%Y-%m-%dT%H:%M:%S" with the milliseconds and Z after it. */
  function Stamp(t: Tm, millis: nat): string
    requires ValidTm(t) && millis < 1000
  {
    Fielded(DateFields(t), DATE_FORMAT, SecondText(t.second, millis))
  }

  /** The fraction to the nearest millisecond; one outside [0, 1) counts as 0. */
  function Millis(fraction: real): (m: nat)
    ensures m <= 1000
  {
    if 0.0 <= fraction < 1.0 then (fraction * 1000.0 + 0.5).Floor else 0
  }

  /** The whole second the rounded instant falls in. */
  function Rounded(seconds: nat, fraction: real): nat {
    if Millis(fraction) >= 1000 then seconds + 1 else seconds
  }

  /**
   iso8601_from_epoch(); a year past what `tm` holds makes gmtime_r fail, and
   the text empty.
   */
  function FromEpoch(seconds: nat, fraction: real): string {
    var whole, millis := Rounded(seconds, fraction), Millis(fraction) % 1000;
    GmtimeInverts(whole);
    var t := Gmtime(whole);
    if t.year - 1900 > INT_MAX then "" else Stamp(t, millis)
  }

  // ---- scanning one back ----------------------------------------------------------------

  /** The five integers and the seconds of one timestamp. */
  datatype Reading = Reading(date: seq<int>, second: Float)

  /** sscanf() with all six conversions made, and what it leaves unread. */
  function ScanText(round: Rounding, text: string): (r: Parsed<Reading>)
    ensures r.Got? ==> |r.value.date| == 5
  {
    var date := ScanFields(text, DATE_FORMAT);
    if date.Stop? then Stop else
    var second := ScanReal(round, date.rest);
    if second.Stop? then Stop else Got(Reading(date.value, second.value), second.rest)
  }

  /**
   What comes of a text: nothing; an instant; or, when the seconds are no number, an
   instant all the same, with a fraction that is none and a count C++ leaves open.
   */
  datatype Instant = Rejected | Instant(seconds: nat, fraction: real) | Unspecified(whole: nat)

  /** iso8601_to_epoch() */
  function ToEpoch(round: Rounding, text: string): (r: Instant)
    ensures r.Instant? ==> 0.0 <= r.fraction < 1.0
  {
    var scan := ScanText(round, text);
    if scan.Stop? || !EndsZulu(text) then Rejected else Named(scan.value)
  }

  function Named(reading: Reading): (r: Instant)
    requires |reading.date| == 5
    ensures r.Instant? ==> 0.0 <= r.fraction < 1.0
  {
    var date := reading.date;
    ToInstant(date[0], date[1], date[2], date[3], date[4], reading.second)
  }

  /** The range checks, which a NaN passes, and the instant the fields name. */
  function ToInstant(year: int, month: int, day: int, hour: int, minute: int, second: Float): (r: Instant)
    ensures r.Instant? ==> 0.0 <= r.fraction < 1.0
  {
    if year < 1970 || month < 1 || month > 12 || day < 1 || day > 31 then Rejected
    else
      var whole := Timegm(year, month, day, hour, minute);
      if whole < 0 then Rejected
      else match second
        case NotANumber => Unspecified(whole)
        case Infinite(_) => Rejected
        case Finite(value) =>
          var floor := value.Floor;
          if floor < 0 || floor > 60 then Rejected else Instant(whole + floor, value - floor as real)
  }

  /**
   What a double is near enough for: below 64 whole numbers are themselves, and
   between them the error is half a unit in the last of 53 bits.
   */
  ghost predicate Nearest(round: Rounding) {
    forall v: real :: 0.0 <= v < 64.0 ==>
      Within(round(v), v) && (v.Floor as real == v ==> round(v) == Finite(v))
  }

  const HALF_UNIT := 1.0 / 281474976710656.0

  predicate Within(f: Float, v: real) {
    f.Finite? && -HALF_UNIT <= f.value - v <= HALF_UNIT
  }

  // ---- the printed text scans back -----------------------------------------------------------

  /** A year of five or more digits runs past the width of its field, sign or no sign. */
  lemma LongYearStops(d: string, rest: string)
    requires AllDigits(d) && |d| > 4
    ensures ScanFields(d + rest, DATE_FORMAT).Stop?
    ensures ScanFields("+" + (d + rest), DATE_FORMAT).Stop?
  {
    DigitsThen(d, 4, rest);
    PlainYearStops(d[..4], d[4..] + rest);
    DigitsThen(d, 3, rest);
    SignedYearStops(d[..3], d[3..] + rest);
  }

  /** Digits cut in two, the rest after them. */
  lemma DigitsThen(d: string, n: nat, rest: string)
    requires AllDigits(d) && n < |d|
    ensures AllDigits(d[..n]) && IsDigit((d[n..] + rest)[0])
    ensures d + rest == d[..n] + (d[n..] + rest)
  {
    SplitDigits(d, n);
    Regroup(d[..n], d[n..], rest);
    assert d == d[..n] + d[n..];
  }

  lemma PlainYearStops(four: string, rest: string)
    requires AllDigits(four) && |four| == 4 && rest != "" && IsDigit(rest[0])
    ensures ScanFields(four + rest, DATE_FORMAT).Stop?
  {
    FieldScans(four, 4, rest);
    DigitNext(four + rest, rest);
  }

  lemma SignedYearStops(three: string, rest: string)
    requires AllDigits(three) && |three| == 3 && rest != "" && IsDigit(rest[0])
    ensures ScanFields("+" + (three + rest), DATE_FORMAT).Stop?
  {
    SignedFieldScans(three, 4, rest);
    DigitNext("+" + (three + rest), rest);
  }

  /** A digit where the format has a mark. */
  lemma DigitNext(s: string, after: string)
    requires ScanInt(s, 4).Got? && ScanInt(s, 4).rest == after && after != "" && IsDigit(after[0])
    ensures ScanFields(s, DATE_FORMAT).Stop?
  {
  }

  lemma OneDigit(n: nat)
    requires n < 10
    ensures AllDigits([DigitChar(n)]) && DecimalValue([DigitChar(n)]) == n
  {
    assert [DigitChar(n)][1..] == "" && [DigitChar(n)][..0] == "";
    assert DecimalValue("") == 0;
  }

  lemma NextDigit(s: string, n: nat)
    requires AllDigits(s) && n < 10
    ensures AllDigits(s + [DigitChar(n)])
    ensures DecimalValue(s + [DigitChar(n)]) == DecimalValue(s) * 10 + n
  {
    AllDigitsAppend(s, DigitChar(n));
    assert (s + [DigitChar(n)])[..|s|] == s;
  }

  lemma Pad2Value(n: nat)
    requires n < 100
    ensures AllDigits(Pad2(n)) && DecimalValue(Pad2(n)) == n
  {
    OneDigit(n / 10);
    NextDigit([DigitChar(n / 10)], n % 10);
  }

  lemma Pad3Value(n: nat)
    requires n < 1000
    ensures AllDigits(Pad3(n)) && DecimalValue(Pad3(n)) == n
  {
    var a, b, c := n / 100, n % 100 / 10, n % 100 % 10;
    OneDigit(a);
    NextDigit([DigitChar(a)], b);
    NextDigit([DigitChar(a)] + [DigitChar(b)], c);
    assert Pad3(n) == [DigitChar(a)] + [DigitChar(b)] + [DigitChar(c)];
  }

  lemma SecondScans(round: Rounding, s: string, second: nat, millis: nat, value: real)
    requires second < 60 && millis < 1000
    requires s == SecondText(second, millis) && value == second as real + millis as real / 1000.0
    ensures ScanReal(round, s) == Got(round(value), "Z")
  {
    SecondSize(second, millis);
    DigitsPointZ(round, Pad2(second), Pad3(millis), value);
  }

  /** Two digits or more, a point, digits and a Z. */
  lemma DigitsPointZ(round: Rounding, whole: string, part: string, value: real)
    requires AllDigits(whole) && AllDigits(part) && |whole| > 1 && part != ""
    requires value == DecimalSize(whole, part)
    ensures ScanReal(round, Pointed(whole, part)) == Got(round(value), "Z")
  {
    assert IsDigit(whole[1..][0]);
    DecimalStarts(round, Pointed(whole, part));
    PointScans(round, whole, part, "Z");
  }

  lemma SecondSize(second: nat, millis: nat)
    requires second < 60 && millis < 1000
    ensures AllDigits(Pad2(second)) && AllDigits(Pad3(millis))
    ensures DecimalSize(Pad2(second), Pad3(millis)) == second as real + millis as real / 1000.0
  {
    Pad2Value(second);
    Pad3Value(millis);
    Thousand();
  }

  lemma Thousand()
    ensures PowerOf(10, 3) == 1000.0
  {
    assert PowerOf(10, 1) == 10.0;
    assert PowerOf(10, 2) == 100.0;
  }

  lemma YearDigits(year: nat)
    ensures 1000 <= year <= 9999 ==> |Decimal(year)| == 4
    ensures 9999 < year ==> |Decimal(year)| > 4
  {
    if year >= 1000 {
      var a, b, c := year / 10, year / 10 / 10, year / 10 / 10 / 10;
      assert |Decimal(year)| == |Decimal(a)| + 1;
      assert |Decimal(a)| == |Decimal(b)| + 1;
      assert |Decimal(b)| == |Decimal(c)| + 1;
      if year > 9999 { assert |Decimal(c)| == |Decimal(c / 10)| + 1; }
    }
  }

  lemma FieldValues(t: Tm)
    requires ValidTm(t)
    ensures AllDigits(Decimal(t.year)) && forall i :: 1 <= i < 5 ==> AllDigits(DateFields(t)[i])
    ensures forall i :: 1 <= i < 5 ==> |DateFields(t)[i]| == 2
    ensures t.year <= 9999 ==> Values(DateFields(t)) == [t.year, t.month, t.day, t.hour, t.minute]
  {
    DecimalShape(t.year);
    DecimalReadsBack(t.year);
    Pad2Value(t.month);
    Pad2Value(t.day);
    Pad2Value(t.hour);
    Pad2Value(t.minute);
  }

  lemma DateScans(t: Tm, text: string, tail: string)
    requires ValidTm(t) && text == Fielded(DateFields(t), DATE_FORMAT, tail)
    ensures t.year <= 9999 ==>
      ScanFields(text, DATE_FORMAT) == Got([t.year, t.month, t.day, t.hour, t.minute], tail)
    ensures t.year > 9999 ==> ScanFields(text, DATE_FORMAT).Stop?
  {
    var fields := DateFields(t);
    FieldValues(t);
    YearDigits(t.year);
    if t.year > 9999 {
      LongYearText(t, text, tail);
    } else {
      FieldsScan(fields, DATE_FORMAT, tail);
    }
  }

  lemma FirstField(fields: seq<string>, format: Format, tail: string)
    requires |fields| == |format| > 0
    ensures Fielded(fields, format, tail) == fields[0] + ([format[0].1] + Fielded(fields[1..], format[1..], tail))
  {
  }

  lemma LongYearText(t: Tm, text: string, tail: string)
    requires ValidTm(t) && t.year > 9999 && text == Fielded(DateFields(t), DATE_FORMAT, tail)
    ensures ScanFields(text, DATE_FORMAT).Stop?
  {
    var fields := DateFields(t);
    var rest := ['-'] + Fielded(fields[1..], DATE_FORMAT[1..], tail);
    DecimalReadsBack(t.year);
    YearDigits(t.year);
    LongYearStops(Decimal(t.year), rest);
    FirstField(fields, DATE_FORMAT, tail);
    Regroup("+", Decimal(t.year), rest);
  }

  const YEAR_10000 := 253402300800

  lemma YearLimit(seconds: nat)
    ensures Gmtime(seconds).year <= 9999 <==> seconds < YEAR_10000
  {
    var limit: nat :| 9999 < limit < 10001;
    DayLimit(seconds / DAY, limit);
    LimitDays(limit);
    WholePart(seconds, DAY);
  }

  // The year 10000 goes by a name here, so that its days are not counted year by year.
  lemma LimitDays(limit: nat)
    requires 9999 < limit < 10001
    ensures DaysBeforeYear(limit) * DAY == YEAR_10000
  {
    PosixFormula(limit);
  }

  lemma DayLimit(days: nat, limit: nat)
    requires 1970 <= limit
    ensures DateOf(days).year < limit <==> days < DaysBeforeYear(limit)
  {
    var year := YearOf(days, 1970);
    YearsOrdered(if year + 1 <= limit then year + 1 else limit, limit);
    YearsOrdered(limit, if limit <= year then year else limit);
  }

  /** The seconds as they are read: near enough to be in the second they name. */
  lemma SecondNear(round: Rounding, second: nat, millis: nat, value: real)
    requires Nearest(round) && second < 60 && millis < 1000 && value == second as real + millis as real / 1000.0
    ensures Within(round(value), value)
    ensures round(value).Finite? && round(value).value.Floor == second
  {
    assert 0.0 <= value < 64.0 && Within(round(value), value);
    if millis == 0 {
      assert value == second as real && round(second as real) == Finite(second as real);
    } else {
      assert 0.001 <= millis as real / 1000.0 <= 0.999;
    }
  }

  lemma InstantOf(round: Rounding, t: Tm, millis: nat, second: real, whole: nat)
    requires Nearest(round) && ValidTm(t) && millis < 1000
    requires second == t.second as real + millis as real / 1000.0
    requires whole == Timegm(t.year, t.month, t.day, t.hour, t.minute) + t.second
    ensures round(second).Finite?
    ensures ToInstant(t.year, t.month, t.day, t.hour, t.minute, round(second))
         == Instant(whole, round(second).value - t.second as real)
  {
    SecondNear(round, t.second, millis, second);
  }

  lemma EpochStops(round: Rounding, text: string)
    requires ScanFields(text, DATE_FORMAT).Stop?
    ensures ToEpoch(round, text) == Rejected
  {
  }

  /** The tests of the scanner, passed in order. */
  lemma EpochFrom(round: Rounding, text: string, date: seq<int>, tail: string, second: Float, rest: string)
    requires |date| == 5 && ScanFields(text, DATE_FORMAT) == Got(date, tail)
    requires ScanReal(round, tail) == Got(second, rest)
    requires EndsZulu(text)
    ensures ScanText(round, text) == Got(Reading(date, second), rest)
    ensures ToEpoch(round, text) == ToInstant(date[0], date[1], date[2], date[3], date[4], second)
  {
  }

  lemma EpochFromText(round: Rounding, text: string, t: Tm, tail: string, millis: nat, second: real)
    requires ValidTm(t) && millis < 1000
    requires ScanFields(text, DATE_FORMAT) == Got([t.year, t.month, t.day, t.hour, t.minute], tail)
    requires tail == SecondText(t.second, millis) && second == t.second as real + millis as real / 1000.0
    requires EndsZulu(text)
    ensures ToEpoch(round, text) == ToInstant(t.year, t.month, t.day, t.hour, t.minute, round(second))
  {
    SecondScans(round, tail, t.second, millis, second);
    EpochFrom(round, text, [t.year, t.month, t.day, t.hour, t.minute], tail, round(second), "Z");
  }

  lemma EndsInZ(fields: seq<string>, format: Format, second: nat, millis: nat)
    requires |fields| == |format| && second < 60 && millis < 1000
    ensures var s := Fielded(fields, format, SecondText(second, millis)); s != "" && s[|s| - 1] == 'Z'
  {
    FieldedEnds(fields, format, SecondText(second, millis));
  }

  lemma ShortStamp(round: Rounding, t: Tm, text: string, millis: nat, second: real)
    requires ValidTm(t) && millis < 1000 && t.year <= 9999
    requires text == Stamp(t, millis) && second == t.second as real + millis as real / 1000.0
    ensures ToEpoch(round, text) == ToInstant(t.year, t.month, t.day, t.hour, t.minute, round(second))
  {
    var tail := SecondText(t.second, millis);
    DateScans(t, text, tail);
    EndsInZ(DateFields(t), DATE_FORMAT, t.second, millis);
    EpochFromText(round, text, t, tail, millis, second);
  }

  lemma LongStamp(round: Rounding, t: Tm, text: string, millis: nat)
    requires ValidTm(t) && millis < 1000 && t.year > 9999 && text == Stamp(t, millis)
    ensures ToEpoch(round, text) == Rejected
  {
    DateScans(t, text, SecondText(t.second, millis));
    EpochStops(round, text);
  }

  /** The fraction of a second that so many printed milliseconds are read as. */
  ghost function ReadFraction(round: Rounding, second: nat, millis: nat): real
    requires Nearest(round) && second < 60 && millis < 1000
  {
    SecondNear(round, second, millis, second as real + millis as real / 1000.0);
    round(second as real + millis as real / 1000.0).value - second as real
  }

  lemma ReadFractionIs(round: Rounding, second: nat, millis: nat, value: real)
    requires Nearest(round) && second < 60 && millis < 1000 && value == second as real + millis as real / 1000.0
    ensures round(value).Finite? && ReadFraction(round, second, millis) == round(value).value - second as real
  {
    SecondNear(round, second, millis, value);
  }

  lemma StampReadsBack(round: Rounding, t: Tm, text: string, millis: nat, whole: nat)
    requires Nearest(round) && ValidTm(t) && millis < 1000 && text == Stamp(t, millis)
    requires whole == Timegm(t.year, t.month, t.day, t.hour, t.minute) + t.second
    ensures t.year <= 9999 ==> ToEpoch(round, text) == Instant(whole, ReadFraction(round, t.second, millis))
    ensures t.year > 9999 ==> ToEpoch(round, text) == Rejected
  {
    if t.year <= 9999 {
      var second := t.second as real + millis as real / 1000.0;
      ShortStamp(round, t, text, millis, second);
      InstantOf(round, t, millis, second, whole);
      ReadFractionIs(round, t.second, millis, second);
    } else {
      LongStamp(round, t, text, millis);
    }
  }

  /**
   Print, then scan: for every instant and fraction, the text reads back as the
   instant rounded to the nearest millisecond, carries included, precisely when
   the rounded instant falls before the year 10000; any later one is rejected.
   The milliseconds come back as the double nearest to them.
   */
  lemma RoundTripIff(round: Rounding, seconds: nat, fraction: real)
    requires Nearest(round)
    ensures var whole, millis := Rounded(seconds, fraction), Millis(fraction) % 1000;
      ToEpoch(round, FromEpoch(seconds, fraction))
        == if whole < YEAR_10000 then Instant(whole, ReadFraction(round, Gmtime(whole).second, millis)) else Rejected
  {
    var whole, millis := Rounded(seconds, fraction), Millis(fraction) % 1000;
    GmtimeInverts(whole);
    YearLimit(whole);
    StampReadsBack(round, Gmtime(whole), Stamp(Gmtime(whole), millis), millis, whole);
    EmptyRejected(round);
  }

  lemma EmptyRejected(round: Rounding)
    ensures ToEpoch(round, "") == Rejected
  {
  }

  lemma MillisNearest(seconds: nat, fraction: real)
    requires 0.0 <= fraction < 1.0
    ensures var r := Rounded(seconds, fraction) as real + (Millis(fraction) % 1000) as real / 1000.0;
      -0.0005 <= r - (seconds as real + fraction) <= 0.0005
  {
    var m := Millis(fraction);
    assert m as real <= fraction * 1000.0 + 0.5 < m as real + 1.0;
    if m == 1000 { assert m % 1000 == 0; } else { assert m % 1000 == m; }
  }

  lemma ReadFractionNear(round: Rounding, second: nat, millis: nat)
    requires Nearest(round) && second < 60 && millis < 1000
    ensures -HALF_UNIT <= ReadFraction(round, second, millis) - millis as real / 1000.0 <= HALF_UNIT
  {
    SecondNear(round, second, millis, second as real + millis as real / 1000.0);
  }

  /** The instant read back is within half a millisecond, and a double's error, of the one printed. */
  lemma RoundTripNearest(round: Rounding, seconds: nat, fraction: real)
    requires Nearest(round) && 0.0 <= fraction < 1.0 && Rounded(seconds, fraction) < YEAR_10000
    ensures var r := ToEpoch(round, FromEpoch(seconds, fraction));
      && r.Instant?
      && -0.0005 - HALF_UNIT <= (r.seconds as real + r.fraction) - (seconds as real + fraction) <= 0.0005 + HALF_UNIT
  {
    var whole := Rounded(seconds, fraction);
    GmtimeInverts(whole);
    RoundTripIff(round, seconds, fraction);
    MillisNearest(seconds, fraction);
    ReadFractionNear(round, Gmtime(whole).second, Millis(fraction) % 1000);
  }

  // ---- the printed text, place by place ---------------------------------------------------

  /** The digits of a number, in so many places of a text. */
  ghost predicate Spells(text: string, from: nat, digits: nat, n: nat) {
    && from + digits <= |text| && AllDigits(text[from..from + digits])
    && DecimalValue(text[from..from + digits]) == n
  }

  lemma FieldSpelt(text: string, from: nat, field: string, c: char, rest: string, n: nat)
    requires from <= |text| && text[from..] == field + ([c] + rest)
    requires AllDigits(field) && DecimalValue(field) == n
    ensures Spells(text, from, |field|, n) && from + |field| < |text| && text[from + |field|] == c
    ensures text[from + |field| + 1..] == rest
  {
    FieldStands(text, from, field, c, rest);
  }

  lemma FieldStands(text: string, from: nat, field: string, c: char, rest: string)
    requires from <= |text| && text[from..] == field + ([c] + rest)
    ensures from + |field| < |text| && text[from..from + |field|] == field && text[from + |field|] == c
    ensures text[from + |field| + 1..] == rest
  {
    assert |text[from..]| == |field| + 1 + |rest|;
    CutAt(field, c, rest);
    SliceOf(text, from, |field|);
  }

  lemma CutAt(field: string, c: char, rest: string)
    ensures var view := field + ([c] + rest);
      view[..|field|] == field && view[|field|] == c && view[|field| + 1..] == rest
  {
  }

  lemma SliceOf(text: string, from: nat, n: nat)
    requires from + n < |text|
    ensures text[from..from + n] == text[from..][..n] && text[from + n] == text[from..][n]
    ensures text[from + n + 1..] == text[from..][n + 1..]
  {
  }

  lemma YearSpelt(t: Tm)
    requires ValidTm(t) && t.year <= 9999
    ensures AllDigits(YearText(t.year)) && DecimalValue(YearText(t.year)) == t.year && |YearText(t.year)| == 4
  {
    YearDigits(t.year);
    DecimalReadsBack(t.year);
  }

  lemma DaySpelt(text: string, y: string, m: string, d: string, r0: string, r1: string, r2: string, t: Tm)
    requires text == y + (['-'] + r0) && r0 == m + (['-'] + r1) && r1 == d + (['T'] + r2)
    requires |y| == 4 && |m| == |d| == 2 && AllDigits(y) && AllDigits(m) && AllDigits(d)
    requires DecimalValue(y) == t.year && DecimalValue(m) == t.month && DecimalValue(d) == t.day
    ensures |text| == 11 + |r2| && text[11..] == r2
    ensures Spells(text, 0, 4, t.year) && text[4] == '-' && Spells(text, 5, 2, t.month) && text[7] == '-'
    ensures Spells(text, 8, 2, t.day) && text[10] == 'T'
  {
    assert text[0..] == text;
    FieldSpelt(text, 0, y, '-', r0, t.year);
    FieldSpelt(text, 5, m, '-', r1, t.month);
    FieldSpelt(text, 8, d, 'T', r2, t.day);
  }

  lemma ClockSpelt(text: string, h: string, m: string, r2: string, r3: string, tail: string, t: Tm)
    requires |text| == 11 + |r2| && text[11..] == r2 && r2 == h + ([':'] + r3) && r3 == m + ([':'] + tail)
    requires |h| == |m| == 2 && AllDigits(h) && AllDigits(m)
    requires DecimalValue(h) == t.hour && DecimalValue(m) == t.minute
    ensures |text| == 17 + |tail| && text[17..] == tail
    ensures Spells(text, 11, 2, t.hour) && text[13] == ':' && Spells(text, 14, 2, t.minute) && text[16] == ':'
  {
    FieldSpelt(text, 11, h, ':', r3, t.hour);
    FieldSpelt(text, 14, m, ':', tail, t.minute);
  }

  lemma DateSpelt(t: Tm, text: string, tail: string)
    requires ValidTm(t) && t.year <= 9999 && text == Fielded(DateFields(t), DATE_FORMAT, tail)
    ensures |text| == 17 + |tail| && text[17..] == tail
    ensures Spells(text, 0, 4, t.year) && text[4] == '-' && Spells(text, 5, 2, t.month) && text[7] == '-'
    ensures Spells(text, 8, 2, t.day) && text[10] == 'T'
    ensures Spells(text, 11, 2, t.hour) && text[13] == ':' && Spells(text, 14, 2, t.minute) && text[16] == ':'
  {
    var f, form := DateFields(t), DATE_FORMAT;
    var r3 := Fielded(f[4..], form[4..], tail);
    var r2 := Fielded(f[3..], form[3..], tail);
    var r1 := Fielded(f[2..], form[2..], tail);
    RestFields(f, form, tail);
    YearSpelt(t);
    Pad2Value(t.month);
    Pad2Value(t.day);
    DaySpelt(text, f[0], f[1], f[2], Fielded(f[1..], form[1..], tail), r1, r2, t);
    Pad2Value(t.hour);
    Pad2Value(t.minute);
    ClockSpelt(text, f[3], f[4], r2, r3, tail, t);
  }

  lemma RestFields(f: seq<string>, form: Format, tail: string)
    requires |f| == |form| == 5
    ensures Fielded(f, form, tail) == f[0] + ([form[0].1] + Fielded(f[1..], form[1..], tail))
    ensures Fielded(f[1..], form[1..], tail) == f[1] + ([form[1].1] + Fielded(f[2..], form[2..], tail))
    ensures Fielded(f[2..], form[2..], tail) == f[2] + ([form[2].1] + Fielded(f[3..], form[3..], tail))
    ensures Fielded(f[3..], form[3..], tail) == f[3] + ([form[3].1] + Fielded(f[4..], form[4..], tail))
    ensures Fielded(f[4..], form[4..], tail) == f[4] + ([form[4].1] + Fielded(f[5..], form[5..], tail))
    ensures Fielded(f[5..], form[5..], tail) == tail
  {
    assert f[1..][1..] == f[2..] && f[2..][1..] == f[3..] && f[3..][1..] == f[4..] && f[4..][1..] == f[5..];
    assert form[1..][1..] == form[2..] && form[2..][1..] == form[3..] && form[3..][1..] == form[4..];
    assert form[4..][1..] == form[5..];
  }

  lemma SecondSpelt(text: string, from: nat, second: nat, millis: nat)
    requires second < 60 && millis < 1000 && from <= |text| && text[from..] == SecondText(second, millis)
    ensures |text| == from + 7 && Spells(text, from, 2, second) && text[from + 2] == '.'
    ensures Spells(text, from + 3, 3, millis) && text[from + 6] == 'Z'
  {
    Pad2Value(second);
    Pad3Value(millis);
    FieldSpelt(text, from, Pad2(second), '.', Pad3(millis) + "Z", second);
    assert Pad3(millis) + "Z" == Pad3(millis) + (['Z'] + "");
    FieldSpelt(text, from + 3, Pad3(millis), 'Z', "", millis);
  }

  /** A fraction outside [0, 1) prints as none. */
  lemma FractionOutside(seconds: nat, fraction: real)
    requires fraction < 0.0 || 1.0 <= fraction
    ensures FromEpoch(seconds, fraction) == FromEpoch(seconds, 0.0)
  {
    assert Millis(fraction) == Millis(0.0) == 0;
  }

  /** No text exactly when the year, counted from 1900, is more than 32 bits hold. */
  lemma NoTextIff(seconds: nat, fraction: real, t: Tm)
    requires t == Gmtime(Rounded(seconds, fraction))
    ensures FromEpoch(seconds, fraction) == "" <==> t.year > 2147485547
  {
    GmtimeInverts(Rounded(seconds, fraction));
    FirstField(DateFields(t), DATE_FORMAT, SecondText(t.second, Millis(fraction) % 1000));
  }

  /** YYYY-MM-DDThh:mm:ss.mmmZ, for every instant before the year 10000. */
  lemma PrintedShape(seconds: nat, fraction: real, text: string, t: Tm)
    requires text == FromEpoch(seconds, fraction) && t == Gmtime(Rounded(seconds, fraction)) && t.year <= 9999
    ensures |text| == 24 && text[4] == '-' && text[7] == '-' && text[10] == 'T' && text[13] == ':' && text[16] == ':'
    ensures text[19] == '.' && text[23] == 'Z'
    ensures Spells(text, 0, 4, t.year) && Spells(text, 5, 2, t.month) && Spells(text, 8, 2, t.day)
    ensures Spells(text, 11, 2, t.hour) && Spells(text, 14, 2, t.minute) && Spells(text, 17, 2, t.second)
    ensures Spells(text, 20, 3, Millis(fraction) % 1000)
  {
    GmtimeInverts(Rounded(seconds, fraction));
    var millis := Millis(fraction) % 1000;
    DateSpelt(t, text, SecondText(t.second, millis));
    SecondSpelt(text, 17, t.second, millis);
  }

  // ---- which texts are accepted ------------------------------------------------------------

  lemma MarksPlain()
    ensures forall i :: 0 <= i < |DATE_FORMAT| ==> !Zulu(DATE_FORMAT[i].1)
  {
  }

  /** The scan never takes a final Z, so what it leaves unread ends as the text does. */
  lemma TextKeepsZulu(round: Rounding, text: string)
    requires ScanText(round, text).Got?
    ensures EndsZulu(ScanText(round, text).rest) <==> EndsZulu(text)
  {
    MarksPlain();
    FieldsKeepZulu(text, DATE_FORMAT);
    RealKeepsZulu(round, ScanFields(text, DATE_FORMAT).rest);
  }

  /** What is promised: an instant in UTC alone, a Z right after the seconds and nothing else. */
  function Promised(round: Rounding, text: string): Instant {
    var scan := ScanText(round, text);
    if scan.Got? && (scan.rest == "Z" || scan.rest == "z") && Named(scan.value).Instant? then Named(scan.value)
    else Rejected
  }

  predicate DateInRange(reading: Reading)
    requires |reading.date| == 5
  {
    var d := reading.date;
    && 1970 <= d[0] && 1 <= d[1] <= 12 && 1 <= d[2] <= 31
    && 0 <= Timegm(d[0], d[1], d[2], d[3], d[4])
  }

  predicate InRange(reading: Reading)
    requires |reading.date| == 5
  {
    DateInRange(reading) && reading.second.Finite? && 0.0 <= reading.second.value < 61.0
  }

  /** More than a Z is left after the seconds, it ends in one, and the fields are in range. */
  predicate Trails(round: Rounding, text: string) {
    var scan := ScanText(round, text);
    scan.Got? && |scan.rest| > 1 && EndsZulu(scan.rest) && InRange(scan.value)
  }

  /** The seconds spell no number, the date is in range, and the text ends in Z. */
  predicate Numberless(round: Rounding, text: string) {
    var scan := ScanText(round, text);
    scan.Got? && scan.value.second.NotANumber? && DateInRange(scan.value) && EndsZulu(text)
  }

  /**
   The scanner keeps its promise on a text exactly when nothing trails the seconds
   but their Z and they are a number; and it accepts the promised texts, those that
   trail and those without a number, no others.
   */
  lemma UtcOnlyIff(round: Rounding, text: string)
    ensures ToEpoch(round, text) == Promised(round, text) <==> !Trails(round, text) && !Numberless(round, text)
    ensures !ToEpoch(round, text).Rejected?
       <==> Promised(round, text).Instant? || Trails(round, text) || Numberless(round, text)
  {
    var scan := ScanText(round, text);
    if scan.Got? {
      TextKeepsZulu(round, text);
      InRangeIff(scan.value);
      if EndsZulu(scan.rest) { OneZulu(scan.rest); }
    }
  }

  /** An accepted text is read to its end exactly when one Z or z is left after the seconds. */
  lemma ReadToEndIff(round: Rounding, text: string, reading: Reading, rest: string)
    requires ScanText(round, text) == Got(reading, rest) && ToEpoch(round, text).Instant?
    ensures EndsZulu(rest)
    ensures !Trails(round, text) <==> rest == "Z" || rest == "z"
  {
    TextKeepsZulu(round, text);
    InRangeIff(reading);
    OneZulu(rest);
  }

  lemma InRangeIff(reading: Reading)
    requires |reading.date| == 5
    ensures Named(reading).Instant? <==> InRange(reading)
    ensures Named(reading).Unspecified? <==> DateInRange(reading) && reading.second.NotANumber?
  {
  }

  lemma OneZulu(rest: string)
    requires EndsZulu(rest)
    ensures rest == "Z" || rest == "z" <==> |rest| == 1
  {
    assert |rest| == 1 ==> rest == [rest[0]];
  }

  // ---- inputs that show it ------------------------------------------------------------------

  lemma WholeSecondScans(round: Rounding, s: string, second: nat, extra: string)
    requires second < 60 && s == Pad2(second) + extra
    requires extra != "" && !IsDigit(extra[0]) && extra[0] != '.' && Lower(extra[0]) != 'e'
    ensures ScanReal(round, s) == Got(round(second as real), extra)
  {
    Pad2Value(second);
    DecimalStarts(round, s);
    DigitRunTakes(Pad2(second), extra, |s|);
    assert s[..2] == Pad2(second) && s[2..] == extra && extra[0..] == extra;
  }

  /** A date, and whatever comes after its last colon. */
  function DateWith(t: Tm, tail: string): string
    requires ValidTm(t)
  {
    Fielded(DateFields(t), DATE_FORMAT, tail)
  }

  /** A date and a reading of what follows it, put together. */
  lemma DateThen(round: Rounding, t: Tm, tail: string, second: Float, rest: string)
    requires ValidTm(t) && t.year <= 9999 && EndsZulu(tail) && ScanReal(round, tail) == Got(second, rest)
    ensures ToEpoch(round, DateWith(t, tail)) == ToInstant(t.year, t.month, t.day, t.hour, t.minute, second)
    ensures ScanText(round, DateWith(t, tail)) == Got(Reading([t.year, t.month, t.day, t.hour, t.minute], second), rest)
  {
    DateScans(t, DateWith(t, tail), tail);
    FieldedEnds(DateFields(t), DATE_FORMAT, tail);
    EpochFrom(round, DateWith(t, tail), [t.year, t.month, t.day, t.hour, t.minute], tail, second, rest);
  }

  /**
   Any date before the year 10000, whole seconds, and then any text that ends in Z
   and does not go on with the number: it names the same instant as with a Z alone.
   */
  lemma TrailingAccepted(round: Rounding, t: Tm, extra: string, whole: nat)
    requires Nearest(round) && ValidTm(t) && t.year <= 9999
    requires whole == Timegm(t.year, t.month, t.day, t.hour, t.minute) + t.second
    requires EndsZulu(extra) && !IsDigit(extra[0]) && extra[0] != '.' && Lower(extra[0]) != 'e'
    ensures ToEpoch(round, DateWith(t, Pad2(t.second) + extra)) == Instant(whole, 0.0)
  {
    var tail, second := Pad2(t.second) + extra, t.second as real;
    WholeSecondScans(round, tail, t.second, extra);
    assert second.Floor as real == second && round(second) == Finite(second);
    DateThen(round, t, tail, Finite(second), extra);
    WholeInstant(t, second, whole);
  }

  lemma WholeInstant(t: Tm, second: real, whole: nat)
    requires ValidTm(t) && second == t.second as real
    requires whole == Timegm(t.year, t.month, t.day, t.hour, t.minute) + t.second
    ensures ToInstant(t.year, t.month, t.day, t.hour, t.minute, Finite(second)) == Instant(whole, 0.0)
  {
    assert second.Floor == t.second;
  }

  /** An offset of five hours before the Z is read as none. */
  lemma OffsetIgnored(round: Rounding, t: Tm)
    requires Nearest(round) && ValidTm(t) && t.year <= 9999
    ensures ToEpoch(round, DateWith(t, Pad2(t.second) + "+05:00Z")).Instant?
    ensures ToEpoch(round, DateWith(t, Pad2(t.second) + "+05:00Z")) == ToEpoch(round, DateWith(t, Pad2(t.second) + "Z"))
  {
    var whole := Timegm(t.year, t.month, t.day, t.hour, t.minute) + t.second;
    TrailingAccepted(round, t, "+05:00Z", whole);
    TrailingAccepted(round, t, "Z", whole);
  }

  lemma NanScans(round: Rounding, extra: string)
    requires extra != "" && extra[0] != '('
    ensures ScanReal(round, "nan" + extra) == Got(NotANumber, extra)
  {
    var s := "nan" + extra;
    SkipNoBlank(s);
    WordTaken("nan", extra);
    assert s[0..] == s && s[3..] == extra;
  }

  /** Any date, the word nan for its seconds, and any ending in Z: accepted, and no instant. */
  lemma NanAccepted(round: Rounding, t: Tm, extra: string)
    requires ValidTm(t) && t.year <= 9999 && EndsZulu(extra) && extra[0] != '('
    ensures ToEpoch(round, DateWith(t, "nan" + extra))
         == Unspecified(Timegm(t.year, t.month, t.day, t.hour, t.minute))
    ensures Numberless(round, DateWith(t, "nan" + extra))
  {
    NanScans(round, extra);
    DateThen(round, t, "nan" + extra, NotANumber, extra);
    FieldedEnds(DateFields(t), DATE_FORMAT, "nan" + extra);
  }

  lemma InfScans(round: Rounding, extra: string)
    requires extra != "" && Lower(extra[0]) != 'i'
    ensures ScanReal(round, "inf" + extra) == Got(Infinite(false), extra)
    ensures ScanReal(round, "-inf" + extra) == Got(Infinite(true), extra)
  {
    var s := "inf" + extra;
    SkipNoBlank(s);
    SkipNoBlank("-" + s);
    InfTaken(extra);
    assert s[0..] == s && s[3..] == extra && "-inf" + extra == "-" + s && ("-" + s)[1..] == s;
  }

  lemma InfTaken(extra: string)
    requires extra != "" && Lower(extra[0]) != 'i'
    ensures WordRun("inf" + extra, "infinity") == 3
  {
    ThreeTaken('i', 'n', 'f', extra, "inity");
    assert ['i'] + (['n'] + (['f'] + extra)) == "inf" + extra;
    assert ['i'] + (['n'] + (['f'] + "inity")) == "infinity";
  }

  lemma ThreeTaken(a: char, b: char, c: char, rest: string, word: string)
    requires Lower(a) == a && Lower(b) == b && Lower(c) == c && WordRun(rest, word) == 0
    ensures WordRun([a] + ([b] + ([c] + rest)), [a] + ([b] + ([c] + word))) == 3
  {
    WordStep(c, rest, word);
    WordStep(b, [c] + rest, [c] + word);
    WordStep(a, [b] + ([c] + rest), [b] + ([c] + word));
  }

  lemma WordStep(c: char, rest: string, word: string)
    requires Lower(c) == c
    ensures WordRun([c] + rest, [c] + word) == 1 + WordRun(rest, word)
  {
    assert ([c] + rest)[1..] == rest && ([c] + word)[1..] == word;
  }

  /** Infinite seconds, of either sign, are out of range. */
  lemma InfinityRejected(round: Rounding, t: Tm, extra: string)
    requires ValidTm(t) && t.year <= 9999 && EndsZulu(extra) && Lower(extra[0]) != 'i'
    ensures ToEpoch(round, DateWith(t, "inf" + extra)) == Rejected
    ensures ToEpoch(round, DateWith(t, "-inf" + extra)) == Rejected
  {
    InfScans(round, extra);
    DateThen(round, t, "inf" + extra, Infinite(false), extra);
    DateThen(round, t, "-inf" + extra, Infinite(true), extra);
  }

  /** Hexadecimal seconds are read to the Z: 0x10 is sixteen. */
  lemma HexSecondsRead(round: Rounding, t: Tm)
    requires Nearest(round) && ValidTm(t) && t.year <= 9999
    ensures ToEpoch(round, DateWith(t, "0x10Z")) == Promised(round, DateWith(t, "0x10Z"))
         == Instant(Timegm(t.year, t.month, t.day, t.hour, t.minute) + 16, 0.0)
  {
    HexScans(round);
    assert (16.0).Floor as real == 16.0 && round(16.0) == Finite(16.0);
    SixteenIs(round, t, DateWith(t, "0x10Z"));
  }

  lemma SixteenIs(round: Rounding, t: Tm, text: string)
    requires ValidTm(t) && t.year <= 9999 && text == DateWith(t, "0x10Z")
    requires ScanReal(round, "0x10Z") == Got(Finite(16.0), "Z")
    ensures ToEpoch(round, text) == Promised(round, text)
         == Instant(Timegm(t.year, t.month, t.day, t.hour, t.minute) + 16, 0.0)
  {
    DateThen(round, t, "0x10Z", Finite(16.0), "Z");
    SixteenPast(t);
  }

  lemma SixteenPast(t: Tm)
    requires ValidTm(t)
    ensures ToInstant(t.year, t.month, t.day, t.hour, t.minute, Finite(16.0))
         == Instant(Timegm(t.year, t.month, t.day, t.hour, t.minute) + 16, 0.0)
  {
    assert (16.0).Floor == 16;
  }

  lemma HexScans(round: Rounding)
    ensures ScanReal(round, "0x10Z") == Got(round(16.0), "Z")
  {
    HexStarts(round, "0x10Z");
    assert "0x10Z"[2..] == "10Z";
    SixteenScans(round, "10Z");
  }

  lemma SixteenScans(round: Rounding, u: string)
    requires u == "10Z"
    ensures ScanHex(round, false, u) == Got(round(16.0), "Z")
  {
    assert u[1..] == "0Z" && u[1..][1..] == "Z";
    assert HexRun("Z") == 0 && HexRun("0Z") == 1 && HexRun(u) == 2;
    assert HexValue(u, 1) == 1 && HexValue(u, 2) == 16;
    assert u[2..] == "Z" && "Z"[0..] == "Z";
  }
}
