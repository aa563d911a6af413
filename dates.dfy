/** The date step of adding an expense: a form value `YYYY-MM-DD` is split on
    '-', each part is read with `parseInt`, and the instant
    `Date.UTC(year, month - 1, day, 12, 0, 0)` is rendered with `toISOString()`.
    The instant is kept as the calendar day it falls on (always at 12:00:00 UTC). */
module Dates {
  import opened Results
  import opened JsText
  import opened JsNumber

  datatype CivilDate = CivilDate(year: int, month: int, day: int)

  predicate IsLeapYear(y: int) {
    y % 4 == 0 && (y % 100 != 0 || y % 400 == 0)
  }

  function DaysInMonth(y: int, m: int): (n: int)
    requires 1 <= m <= 12
    ensures 28 <= n <= 31
  {
    if m == 2 then (if IsLeapYear(y) then 29 else 28)
    else if m == 4 || m == 6 || m == 9 || m == 11 then 30
    else 31
  }

  /** A day that exists in the proleptic Gregorian calendar. */
  predicate IsCalendarDate(d: CivilDate) {
    1 <= d.month <= 12 && 1 <= d.day <= DaysInMonth(d.year, d.month)
  }

  /** Days from 1 January 1970 to 1 January of year y (DayFromYear in ECMA-262). */
  function DayFromYear(y: int): int {
    365 * (y - 1970) + (y - 1969) / 4 - (y - 1901) / 100 + (y - 1601) / 400
  }

  function DaysBeforeMonth(y: int, m: int): int
    requires 1 <= m <= 12
  {
    var common := [0, 31, 59, 90, 120, 151, 181, 212, 243, 273, 304, 334][m - 1];
    if m > 2 && IsLeapYear(y) then common + 1 else common
  }

  /** Days from 1 January 1970 to the given day (negative before it). */
  function DayNumber(d: CivilDate): int
    requires 1 <= d.month <= 12
  {
    DayFromYear(d.year) + DaysBeforeMonth(d.year, d.month) + d.day - 1
  }

  /** Moves a day of month that lies outside its month into the neighbouring
      months, the way `Date.UTC` treats a day such as 0 or 32. */
  function Carry(y: int, m: int, d: int): (r: CivilDate)
    requires 1 <= m <= 12
    ensures IsCalendarDate(r)
    ensures 1 <= d <= DaysInMonth(y, m) ==> r == CivilDate(y, m, d)
    decreases if d < 1 then 1 else 0, if d < 1 then -d else d
  {
    if d < 1 then
      var py := if m == 1 then y - 1 else y;
      var pm := if m == 1 then 12 else m - 1;
      Carry(py, pm, d + DaysInMonth(py, pm))
    else if d > DaysInMonth(y, m) then
      var ny := if m == 12 then y + 1 else y;
      var nm := if m == 12 then 1 else m + 1;
      Carry(ny, nm, d - DaysInMonth(y, m))
    else CivilDate(y, m, d)
  }

  lemma YearLength(y: int)
    ensures DayFromYear(y + 1) - DayFromYear(y) == if IsLeapYear(y) then 366 else 365
  {
    LeapDaysStep(y);
    CenturyStep(y);
    QuadricentennialStep(y);
    DivisibilityChain(y);
  }

  lemma DivisibilityChain(y: int)
    ensures y % 100 == 0 ==> y % 4 == 0
    ensures y % 400 == 0 ==> y % 100 == 0
  {
  }

  /** The count of years divisible by 4 since 1969 grows exactly at such a year. */
  lemma LeapDaysStep(y: int)
    ensures (y + 1 - 1969) / 4 - (y - 1969) / 4 == if y % 4 == 0 then 1 else 0
  {
  }

  lemma CenturyStep(y: int)
    ensures (y + 1 - 1901) / 100 - (y - 1901) / 100 == if y % 100 == 0 then 1 else 0
  {
  }

  lemma QuadricentennialStep(y: int)
    ensures (y + 1 - 1601) / 400 - (y - 1601) / 400 == if y % 400 == 0 then 1 else 0
  {
  }

  /** The first of the next month is one month length after the first of this month. */
  lemma NextMonth(y: int, m: int)
    requires 1 <= m <= 12
    ensures var ny := if m == 12 then y + 1 else y;
            var nm := if m == 12 then 1 else m + 1;
            DayNumber(CivilDate(ny, nm, 1)) == DayNumber(CivilDate(y, m, 1)) + DaysInMonth(y, m)
  {
    if m == 12 { YearLength(y); }
  }

  /** Carry keeps the instant: the result lies d - 1 days after the first of the
      given month, as MakeDay in ECMA-262 prescribes. */
  lemma {:induction false} CarryKeepsDayNumber(y: int, m: int, d: int)
    requires 1 <= m <= 12
    ensures DayNumber(Carry(y, m, d)) == DayNumber(CivilDate(y, m, 1)) + d - 1
    decreases if d < 1 then 1 else 0, if d < 1 then -d else d
  {
    if d < 1 {
      var py := if m == 1 then y - 1 else y;
      var pm := if m == 1 then 12 else m - 1;
      var e := d + DaysInMonth(py, pm);
      assert Carry(y, m, d) == Carry(py, pm, e);
      CarryKeepsDayNumber(py, pm, e);
      PreviousMonth(y, m);
    } else if d > DaysInMonth(y, m) {
      var ny := if m == 12 then y + 1 else y;
      var nm := if m == 12 then 1 else m + 1;
      var e := d - DaysInMonth(y, m);
      assert Carry(y, m, d) == Carry(ny, nm, e);
      CarryKeepsDayNumber(ny, nm, e);
      NextMonth(y, m);
    } else {
      assert Carry(y, m, d) == CivilDate(y, m, d);
    }
  }

  /** The first of this month is one month length of the previous month after
      the first of that month. */
  lemma PreviousMonth(y: int, m: int)
    requires 1 <= m <= 12
    ensures var py := if m == 1 then y - 1 else y;
            var pm := if m == 1 then 12 else m - 1;
            DayNumber(CivilDate(y, m, 1)) == DayNumber(CivilDate(py, pm, 1)) + DaysInMonth(py, pm)
  {
    if m == 1 {
      NextMonth(y - 1, 12);
    } else {
      NextMonth(y, m - 1);
    }
  }

  /** MakeDay(year, month, date) of ECMA-262 with a zero-based month that may
      lie outside 0..11: whole years are carried first, then the day. */
  function MakeDay(year: int, month0: int, date: int): (r: CivilDate)
    ensures IsCalendarDate(r)
    ensures DayNumber(r) == DayNumber(CivilDate(year + month0 / 12, month0 % 12 + 1, 1)) + date - 1
  {
    CarryKeepsDayNumber(year + month0 / 12, month0 % 12 + 1, date);
    Carry(year + month0 / 12, month0 % 12 + 1, date)
  }

  /** `Date.UTC` reads a year from 0 to 99 as 1900 to 1999. */
  function UtcYear(y: int): int {
    if 0 <= y <= 99 then 1900 + y else y
  }

  /** Milliseconds since the epoch of 12:00:00 UTC on the day. */
  function NoonTimeValue(d: CivilDate): int
    requires 1 <= d.month <= 12
  {
    DayNumber(d) * 86400000 + 43200000
  }

  /** TimeClip: instants farther than 8.64e15 ms from the epoch are Invalid Date,
      which `toISOString()` refuses with a RangeError. */
  predicate InTimeRange(d: CivilDate)
    requires 1 <= d.month <= 12
  {
    -8640000000000000 <= NoonTimeValue(d) <= 8640000000000000
  }

  /** The year field of `toISOString()`: four digits for 0..9999, otherwise a sign and six digits. */
  function IsoYear(y: int): (r: string)
    ensures |r| >= 4
    ensures 0 <= y <= 9999 ==> |r| == 4 && AllDecimal(r) && DigitsValue(r, 10) == y
    ensures y < 0 ==> |r| >= 7 && r[0] == '-' && AllDecimal(r[1..]) && DigitsValue(r[1..], 10) == -y
    ensures y > 9999 ==> |r| >= 7 && r[0] == '+' && AllDecimal(r[1..]) && DigitsValue(r[1..], 10) == y
  {
    if 0 <= y <= 9999 then
      assert Pow10(4) == 10000;
      DecimalStringLength(y, 4);
      Padded(y, 4)
    else if y < 0 then
      var r := "-" + Padded(-y, 6);
      assert r[1..] == Padded(-y, 6);
      r
    else
      var r := "+" + Padded(y, 6);
      assert r[1..] == Padded(y, 6);
      r
  }

  /** A month or day number of the calendar takes at most two digits. */
  lemma TwoDigitField(n: nat)
    requires n <= 31
    ensures |Padded(n, 2)| == 2
  {
    assert Pow10(2) == 100;
    DecimalStringLength(n, 2);
  }

  /** `toISOString()` of 12:00:00 UTC on the day: the year field, two-digit
      month and day, and the fixed noon suffix; 24 characters for years 0 to 9999. */
  function IsoNoon(d: CivilDate): (r: string)
    requires IsCalendarDate(d)
    ensures |r| >= 24 && r[|r| - 14..] == "T12:00:00.000Z"
    ensures 0 <= d.year <= 9999 ==> |r| == 24
  {
    TwoDigitField(d.month);
    TwoDigitField(d.day);
    IsoYear(d.year) + "-" + Padded(d.month, 2) + "-" + Padded(d.day, 2) + "T12:00:00.000Z"
  }

  const InvalidDateFormat := "Invalid date format"

  /** `parseInt` of the i-th piece of the split input; a missing piece is `undefined`, which reads as NaN. */
  function PartValue(parts: seq<string>, i: nat): Option<int> {
    if i < |parts| then ParseInt(parts[i]) else None
  }

  /** The date step of addExpenseRecord: the calendar day at whose noon the
      stored instant lies, or the error that `toISOString()` of an Invalid Date
      turns into. */
  function NormaliseDate(input: string): (r: Result<CivilDate>)
    ensures r.Ok? ==> IsCalendarDate(r.value) && InTimeRange(r.value)
    ensures r.Err? ==> r.error == InvalidDateFormat
  {
    var parts := Split(input, '-');
    FromParts(PartValue(parts, 0), PartValue(parts, 1), PartValue(parts, 2))
  }

  /** `new Date(Date.UTC(year, month - 1, day, 12, 0, 0)).toISOString()` for the parsed parts. */
  function FromParts(year: Option<int>, month: Option<int>, day: Option<int>): (r: Result<CivilDate>)
    ensures r.Ok? ==> IsCalendarDate(r.value) && InTimeRange(r.value)
    ensures r.Err? ==> r.error == InvalidDateFormat
    ensures year.None? || month.None? || day.None? ==> r.Err?
  {
    if year.None? || month.None? || day.None? then Err(InvalidDateFormat)
    else
      var d := MakeDay(UtcYear(year.value), month.value - 1, day.value);
      if InTimeRange(d) then Ok(d) else Err(InvalidDateFormat)
  }

  /** A year, month and day that name a real calendar day within the time range are kept as they are. */
  lemma FromCalendarParts(y: int, m: int, d: int)
    requires IsCalendarDate(CivilDate(UtcYear(y), m, d)) && InTimeRange(CivilDate(UtcYear(y), m, d))
    ensures FromParts(Some(y), Some(m), Some(d)) == Ok(CivilDate(UtcYear(y), m, d))
  {
    var year := UtcYear(y);
    assert (m - 1) / 12 == 0 && (m - 1) % 12 + 1 == m;
    assert MakeDay(year, m - 1, d) == Carry(year, m, d);
    assert Carry(year, m, d) == CivilDate(year, m, d);
  }

  /** `YYYY-MM-DD` in the form's format. */
  function DateField(y: nat, m: nat, d: nat): string {
    Padded(y, 4) + "-" + Padded(m, 2) + "-" + Padded(d, 2)
  }

  lemma NoDash(n: nat, w: nat)
    ensures '-' !in Padded(n, w)
  {
    var p := Padded(n, w);
    assert forall i :: 0 <= i < |p| ==> p[i] != '-';
  }

  lemma SplitDateField(y: nat, m: nat, d: nat)
    ensures Split(DateField(y, m, d), '-') == [Padded(y, 4), Padded(m, 2), Padded(d, 2)]
  {
    NoDash(y, 4); NoDash(m, 2); NoDash(d, 2);
    SplitThree(Padded(y, 4), Padded(m, 2), Padded(d, 2));
  }

  lemma SplitThree(a: string, b: string, c: string)
    requires '-' !in a && '-' !in b && '-' !in c
    ensures Split(a + "-" + b + "-" + c, '-') == [a, b, c]
  {
    SplitNoSep(c, '-');
    SplitPrefix(b, c, '-');
    SplitPrefix(a, b + "-" + c, '-');
    assert a + "-" + b + "-" + c == a + ['-'] + (b + ['-'] + c);
  }

  lemma FourDigitYearInRange(d: CivilDate)
    requires IsCalendarDate(d) && 100 <= d.year <= 9999
    ensures InTimeRange(d)
  {
  }

  /** The three pieces of a `YYYY-MM-DD` field read back as the numbers written. */
  lemma DateFieldParts(y: nat, m: nat, d: nat)
    ensures var parts := Split(DateField(y, m, d), '-');
            PartValue(parts, 0) == Some(y) && PartValue(parts, 1) == Some(m) && PartValue(parts, 2) == Some(d)
  {
    var parts := Split(DateField(y, m, d), '-');
    SplitDateField(y, m, d);
    assert parts[0] == Padded(y, 4) && parts[1] == Padded(m, 2) && parts[2] == Padded(d, 2);
    ParseIntPadded(y, 4);
    assert PartValue(parts, 0) == Some(y);
    ParseIntPadded(m, 2);
    assert PartValue(parts, 1) == Some(m);
    ParseIntPadded(d, 2);
  }

  /** A real calendar day with a four-digit year from 0100 on is stored at noon
      UTC on that same day, and rendered as `YYYY-MM-DDT12:00:00.000Z`. */
  lemma CalendarDateKept(y: nat, m: nat, d: nat)
    requires 100 <= y <= 9999 && IsCalendarDate(CivilDate(y, m, d))
    ensures NormaliseDate(DateField(y, m, d)) == Ok(CivilDate(y, m, d))
    ensures IsoNoon(CivilDate(y, m, d)) == DateField(y, m, d) + "T12:00:00.000Z"
  {
    DateFieldParts(y, m, d);
    FourDigitYearInRange(CivilDate(y, m, d));
    FromCalendarParts(y, m, d);
  }

  /** A year written 0000 to 0099 lands in the twentieth century. */
  lemma TwoDigitYear(y: nat, m: nat, d: nat)
    requires y <= 99 && IsCalendarDate(CivilDate(1900 + y, m, d))
    ensures NormaliseDate(DateField(y, m, d)) == Ok(CivilDate(1900 + y, m, d))
  {
    DateFieldParts(y, m, d);
    FourDigitYearInRange(CivilDate(1900 + y, m, d));
    FromCalendarParts(y, m, d);
  }
}
