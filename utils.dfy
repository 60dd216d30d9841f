/**
 * The date-range predicate and the text helper of the library module:
 * isDateInRange and truncateText.
 *
 * Dates are instants in milliseconds. The end of the `to` day is taken in
 * local time, so the local zone enters as `offset`, the number of
 * milliseconds local time is ahead of UTC (daylight-saving changes are not
 * modelled).
 */
module Utils {
  import opened Types

  const DayMillis: int := 86_400_000

  /** The number of the local calendar day that contains t. */
  function LocalDay(t: Millis, offset: int): int
  {
    (t + offset) / DayMillis
  }

  lemma LocalDayMonotone(a: Millis, b: Millis, offset: int)
    requires a <= b
    ensures LocalDay(a, offset) <= LocalDay(b, offset)
  {
    var x, y := a + offset, b + offset;
    assert x == DayMillis * (x / DayMillis) + x % DayMillis;
    assert y == DayMillis * (y / DayMillis) + y % DayMillis;
  }

  /**
   * `to.setHours(23, 59, 59, 999)`: the last millisecond of the local day
   * that contains t.
   */
  function EndOfDay(t: Millis, offset: int): (e: Millis)
    ensures t <= e < t + DayMillis
    ensures LocalDay(e, offset) == LocalDay(t, offset)
    ensures LocalDay(e + 1, offset) == LocalDay(t, offset) + 1
  {
    var local := t + offset;
    local - local % DayMillis + DayMillis - 1 - offset
  }

  /**
   * isDateInRange: `from <= d <= end of the to day`. The range is a
   * day-granular interval: d is in range exactly when it is not before
   * `from` and falls on the local day of `to` or earlier.
   */
  predicate IsDateInRange(d: Millis, from: Millis, to: Millis, offset: int): (r: bool)
    ensures r <==> from <= d && LocalDay(d, offset) <= LocalDay(to, offset)
  {
    from <= d && d <= EndOfDay(to, offset)
  }

  /**
   * Both endpoints are inclusive: `from` itself is in range, and so is
   * every instant of the `to` day up to 23:59:59.999 local time. For a
   * `to` at local midnight the last instant is `to + 86_399_999`.
   */
  lemma EndpointsInclusive(from: Millis, to: Millis, offset: int, d: Millis)
    requires from <= to
    requires (to + offset) % DayMillis == 0
    ensures IsDateInRange(from, from, to, offset)
    ensures EndOfDay(to, offset) == to + 86_399_999
    ensures to <= d <= to + 86_399_999 ==> IsDateInRange(d, from, to, offset)
    ensures d == to + 86_400_000 ==> !IsDateInRange(d, from, to, offset)
  {
  }

  /**
   * A `to` parsed from a date field is UTC midnight, which is local midnight
   * only when the zone is UTC. West of UTC the range ends `-offset` ms into
   * the UTC day of `to`; east of UTC it ends `offset` ms before that day is
   * over. Either way part of the UTC day of `to` is out of range.
   */
  lemma UtcMidnightTo(from: Millis, to: Millis, offset: int)
    requires to % DayMillis == 0
    requires -DayMillis < offset < DayMillis
    ensures offset < 0 ==> EndOfDay(to, offset) == to - offset - 1
    ensures 0 <= offset ==> EndOfDay(to, offset) == to + DayMillis - 1 - offset
    ensures offset != 0 ==> exists d :: to <= d < to + DayMillis && !IsDateInRange(d, from, to, offset)
  {
    if offset < 0 {
      assert (to + offset) % DayMillis == DayMillis + offset by {
        assert to + offset == DayMillis * (to / DayMillis - 1) + (DayMillis + offset);
      }
      assert !IsDateInRange(to - offset, from, to, offset);
    } else {
      assert (to + offset) % DayMillis == offset by {
        assert to + offset == DayMillis * (to / DayMillis) + offset;
      }
      if offset > 0 {
        assert !IsDateInRange(to + DayMillis - offset, from, to, offset);
      }
    }
  }

  /** JavaScript's `s.slice(0, end)`: a negative end counts back from the end of s. */
  function SliceTo(s: string, end: int): string
  {
    if end < 0 then (if |s| + end < 0 then [] else s[..|s| + end])
    else if end > |s| then s
    else s[..end]
  }

  /** truncateText: text longer than maxLength is cut and ends in "...". */
  function TruncateText(text: string, maxLength: int): (r: string)
    ensures |text| <= maxLength ==> r == text
    ensures |text| > maxLength >= 3 ==> |r| == maxLength && r == text[..maxLength - 3] + "..."
    ensures |text| > maxLength ==> |r| >= 3 && r[|r| - 3..] == "..." && r[..|r| - 3] <= text
  {
    if |text| <= maxLength then text else SliceTo(text, maxLength - 3) + "..."
  }

  /** For a usable limit the result never exceeds it, so truncating twice changes nothing. */
  lemma TruncateIdempotent(text: string, maxLength: int)
    requires maxLength >= 3
    ensures |TruncateText(text, maxLength)| <= maxLength
    ensures TruncateText(TruncateText(text, maxLength), maxLength) == TruncateText(text, maxLength)
  {
  }
}
