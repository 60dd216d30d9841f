/**
 * formatDate: the date part of an instant's ISO 8601 rendering, that is its
 * UTC calendar date in the proleptic Gregorian calendar, as YYYY-MM-DD
 * (years outside 0000-9999 take the expanded six-digit form with a sign).
 */
module Calendar {
  import opened Types
  import opened Decimal
  import Utils

  predicate IsLeap(year: int)
  {
    year % 4 == 0 && (year % 100 != 0 || year % 400 == 0)
  }

  function YearLength(year: int): nat
  {
    if IsLeap(year) then 366 else 365
  }

  function MonthLength(year: int, month: int): nat
    requires 1 <= month <= 12
  {
    if month == 2 then (if IsLeap(year) then 29 else 28)
    else if month == 4 || month == 6 || month == 9 || month == 11 then 30
    else 31
  }

  /** The number of days in months `month` to December. */
  function RestOfYear(year: int, month: int): nat
    requires 1 <= month <= 13
    decreases 13 - month
  {
    if month == 13 then 0 else MonthLength(year, month) + RestOfYear(year, month + 1)
  }

  lemma YearIsItsMonths(year: int)
    ensures RestOfYear(year, 1) == YearLength(year)
  {
  }

  datatype Date = Date(year: int, month: int, day: int)

  predicate Valid(d: Date)
  {
    1 <= d.month <= 12 && 1 <= d.day <= MonthLength(d.year, d.month)
  }

  /** The day number of January 1 of `year`, counting 1970-01-01 as day 0. */
  function YearStart(year: int): int
    decreases if year >= 1970 then year - 1970 else 1970 - year
  {
    if year == 1970 then 0
    else if year > 1970 then YearStart(year - 1) + YearLength(year - 1)
    else YearStart(year + 1) - YearLength(year)
  }

  /** The number of days from January 1 to the first of `month`. */
  function MonthStart(year: int, month: int): nat
    requires 1 <= month <= 12
  {
    if month == 1 then 0 else MonthStart(year, month - 1) + MonthLength(year, month - 1)
  }

  /** The day number of a calendar date. */
  function DayNumber(d: Date): int
    requires Valid(d)
  {
    YearStart(d.year) + MonthStart(d.year, d.month) + d.day - 1
  }

  /** The date `day` days after the first of `month` in `year`. */
  function InYear(year: int, month: int, day: int): (d: Date)
    requires 1 <= month <= 12 && 0 <= day < RestOfYear(year, month)
    ensures Valid(d) && d.year == year
    ensures MonthStart(year, d.month) + d.day - 1 == MonthStart(year, month) + day
    decreases 12 - month
  {
    if day < MonthLength(year, month) then Date(year, month, day + 1)
    else InYear(year, month + 1, day - MonthLength(year, month))
  }

  lemma YearStep(year: int)
    ensures YearStart(year + 1) == YearStart(year) + YearLength(year)
  {
  }

  /** The date `day` (>= 0) days after January 1 of `year`. */
  function Forward(year: int, day: int): (d: Date)
    requires day >= 0
    ensures Valid(d) && DayNumber(d) == YearStart(year) + day
    decreases day
  {
    if day < YearLength(year) then
      YearIsItsMonths(year);
      InYear(year, 1, day)
    else
      YearStep(year);
      Forward(year + 1, day - YearLength(year))
  }

  /** The date `-day` (> 0) days before January 1 of `year`. */
  function Backward(year: int, day: int): (d: Date)
    requires day < 0
    ensures Valid(d) && DayNumber(d) == YearStart(year) + day
    decreases -day
  {
    YearStep(year - 1);
    var inPrevious := day + YearLength(year - 1);
    if inPrevious >= 0 then
      YearIsItsMonths(year - 1);
      InYear(year - 1, 1, inPrevious)
    else
      Backward(year - 1, inPrevious)
  }

  /** The calendar date of day number `n`. */
  function CivilDate(n: int): (d: Date)
    ensures Valid(d) && DayNumber(d) == n
  {
    if n >= 0 then Forward(1970, n) else Backward(1970, n)
  }

  /** A valid date's number lies within its year. */
  lemma WithinYear(d: Date)
    requires Valid(d)
    ensures YearStart(d.year) <= DayNumber(d) < YearStart(d.year + 1)
  {
    MonthStartBounds(d.year, d.month);
    YearStep(d.year);
  }

  lemma {:induction false} YearStartGrows(a: int, b: int)
    requires a <= b
    ensures YearStart(a) <= YearStart(b)
    decreases b - a
  {
    if a < b {
      YearStep(a);
      YearStartGrows(a + 1, b);
    }
  }

  lemma {:induction false} MonthStartGrows(year: int, a: int, b: int)
    requires 1 <= a < b <= 12
    ensures MonthStart(year, a) + MonthLength(year, a) <= MonthStart(year, b)
    decreases b - a
  {
    if a + 1 < b {
      MonthStartGrows(year, a + 1, b);
    }
  }

  lemma SameYear(a: Date, b: Date)
    requires Valid(a) && Valid(b) && DayNumber(a) == DayNumber(b)
    ensures a.year == b.year
  {
    WithinYear(a);
    WithinYear(b);
    if a.year < b.year {
      YearStartGrows(a.year + 1, b.year);
    } else if b.year < a.year {
      YearStartGrows(b.year + 1, a.year);
    }
  }

  /** A day number determines its date: distinct valid dates have distinct numbers. */
  lemma DayNumberInjective(a: Date, b: Date)
    requires Valid(a) && Valid(b) && DayNumber(a) == DayNumber(b)
    ensures a == b
  {
    SameYear(a, b);
    if a.month < b.month {
      MonthStartGrows(a.year, a.month, b.month);
    } else if b.month < a.month {
      MonthStartGrows(a.year, b.month, a.month);
    }
  }

  /** CivilDate inverts DayNumber. */
  lemma CivilDateOfDayNumber(d: Date)
    requires Valid(d)
    ensures CivilDate(DayNumber(d)) == d
  {
    DayNumberInjective(CivilDate(DayNumber(d)), d);
  }

  /** The first of a month plus the month lies within the year. */
  lemma {:induction false} MonthStartBounds(year: int, month: int)
    requires 1 <= month <= 12
    ensures MonthStart(year, month) + RestOfYear(year, month) == YearLength(year)
  {
    if month > 1 {
      MonthStartBounds(year, month - 1);
    } else {
      YearIsItsMonths(year);
    }
  }

  /** The UTC calendar date of an instant: the day number rounds down. */
  function UtcDate(t: Millis): (d: Date)
    ensures Valid(d)
    ensures DayNumber(d) * Utils.DayMillis <= t < (DayNumber(d) + 1) * Utils.DayMillis
  {
    CivilDate(Utils.LocalDay(t, 0))
  }

  /** The epoch falls on 1970-01-01, and the instant a millisecond earlier on 1969-12-31. */
  lemma EpochDates()
    ensures UtcDate(0) == Date(1970, 1, 1)
    ensures UtcDate(-1) == Date(1969, 12, 31)
  {
    CivilDateOfDayNumber(Date(1970, 1, 1));
    assert MonthStart(1969, 12) == 334;
    assert YearStart(1969) == -365;
    CivilDateOfDayNumber(Date(1969, 12, 31));
  }

  // ---------------------------------------------------------------------------
  // Rendering

  function Zeros(k: nat): (s: string)
    ensures |s| == k && AllDigits(s) && DigitsValue(s) == 0
  {
    if k == 0 then "" else
      var s := Zeros(k - 1) + "0";
      assert s[..k - 1] == Zeros(k - 1);
      s
  }

  lemma {:induction false} LeadingZeros(k: nat, s: string)
    requires AllDigits(s)
    ensures AllDigits(Zeros(k) + s) && DigitsValue(Zeros(k) + s) == DigitsValue(s)
  {
    if s != [] {
      var init := s[..|s| - 1];
      LeadingZeros(k, init);
      assert (Zeros(k) + s)[..|Zeros(k) + s| - 1] == Zeros(k) + init;
    } else {
      assert Zeros(k) + s == Zeros(k);
    }
  }

  /** `n` zero-padded on the left to at least `width` digits. */
  function Padded(n: nat, width: nat): (s: string)
    ensures AllDigits(s) && DigitsValue(s) == n
    ensures |s| >= width
    ensures |NatToString(n)| <= width ==> |s| == width
  {
    var digits := NatToString(n);
    if |digits| >= width then digits
    else
      LeadingZeros(width - |digits|, digits);
      Zeros(width - |digits|) + digits
  }

  function Pow10(k: nat): nat
  {
    if k == 0 then 1 else 10 * Pow10(k - 1)
  }

  lemma {:induction false} NumeralLength(n: nat, k: nat)
    requires 1 <= k && n < Pow10(k)
    ensures |NatToString(n)| <= k
  {
    if n >= 10 {
      assert Pow10(1) == 10;
      assert k != 1;
      assert n / 10 < Pow10(k - 1);
      NumeralLength(n / 10, k - 1);
    }
  }

  /** The year as ISO 8601 writes it. */
  function YearText(year: int): string
  {
    if 0 <= year <= 9999 then Padded(year, 4)
    else (if year < 0 then "-" else "+") + Padded(if year < 0 then -year else year, 6)
  }

  /**
   * formatDate: the date of the instant's ISO string. Only instants within
   * 8.64e15 milliseconds of the epoch are dates at all. In every year the
   * text ends in '-', two month digits, '-' and two day digits naming the
   * UTC date; a year outside 0000-9999 is a sign and six digits.
   */
  function FormatDate(t: Millis): (s: string)
    requires -8_640_000_000_000_000 <= t <= 8_640_000_000_000_000
    ensures |s| >= 10 && s[|s| - 6] == '-' && s[|s| - 3] == '-'
    ensures AllDigits(s[|s| - 5..|s| - 3]) && DigitsValue(s[|s| - 5..|s| - 3]) == UtcDate(t).month
    ensures AllDigits(s[|s| - 2..]) && DigitsValue(s[|s| - 2..]) == UtcDate(t).day
    ensures var y := UtcDate(t).year;
      !(0 <= y <= 9999) ==>
        && |s| >= 13 && s[0] == (if y < 0 then '-' else '+')
        && AllDigits(s[1..|s| - 6]) && DigitsValue(s[1..|s| - 6]) == (if y < 0 then -y else y)
  {
    var d := UtcDate(t);
    assert Pow10(2) == 100;
    NumeralLength(d.month, 2);
    NumeralLength(d.day, 2);
    var year, month, day := YearText(d.year), Padded(d.month, 2), Padded(d.day, 2);
    var s := year + "-" + month + "-" + day;
    assert |s| == |year| + 6;
    assert s[|s| - 5..|s| - 3] == month;
    assert s[|s| - 2..] == day;
    assert s[..|s| - 6] == year;
    s
  }

  /** Reads a YYYY-MM-DD string back as a date. */
  function ParseDay(s: string): Date
    requires |s| == 10 && AllDigits(s[..4]) && AllDigits(s[5..7]) && AllDigits(s[8..])
  {
    Date(DigitsValue(s[..4]), DigitsValue(s[5..7]), DigitsValue(s[8..]))
  }

  lemma Layout(y: string, m: string, dd: string)
    requires |y| == 4 && |m| == 2 && |dd| == 2
    ensures var s := y + "-" + m + "-" + dd;
      |s| == 10 && s[4] == '-' && s[7] == '-' && s[..4] == y && s[5..7] == m && s[8..] == dd
  {
  }

  /** A date of the years 0000-9999 is written as YYYY-MM-DD and read back unchanged. */
  lemma DateTextRoundTrip(d: Date)
    requires Valid(d) && 0 <= d.year <= 9999
    ensures var s := YearText(d.year) + "-" + Padded(d.month, 2) + "-" + Padded(d.day, 2);
      && |s| == 10 && s[4] == '-' && s[7] == '-'
      && AllDigits(s[..4]) && AllDigits(s[5..7]) && AllDigits(s[8..])
      && ParseDay(s) == d
  {
    assert Pow10(4) == 10000 && Pow10(2) == 100;
    NumeralLength(d.year, 4);
    NumeralLength(d.month, 2);
    NumeralLength(d.day, 2);
    Layout(Padded(d.year, 4), Padded(d.month, 2), Padded(d.day, 2));
  }

  /**
   * For a year 0000-9999, formatDate gives ten characters: four year
   * digits, '-', two month digits, '-', two day digits; read back, they name
   * the UTC calendar date of the instant, in whose day the instant lies.
   */
  lemma FormatDateNamesTheDay(t: Millis)
    requires -8_640_000_000_000_000 <= t <= 8_640_000_000_000_000
    requires 0 <= UtcDate(t).year <= 9999
    ensures var s := FormatDate(t);
      && |s| == 10 && s[4] == '-' && s[7] == '-'
      && AllDigits(s[..4]) && AllDigits(s[5..7]) && AllDigits(s[8..])
      && Valid(ParseDay(s))
      && DayNumber(ParseDay(s)) * Utils.DayMillis <= t < (DayNumber(ParseDay(s)) + 1) * Utils.DayMillis
  {
    DateTextRoundTrip(UtcDate(t));
  }
}
