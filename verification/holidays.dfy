/** The holiday calendar (src/config/holidays.js). Dates are `YYYY-MM-DD`
    strings. The source derives "today" from `toISOString`, i.e. the UTC
    calendar date, whereas the auto-session window and its daily latch read
    the local clock; here the UTC date string is a parameter. */
module Holidays {
  import opened JsString

  const HOLIDAYS: seq<string> := [
    "2024-01-26", "2024-08-15", "2024-10-02", "2024-10-31", "2024-12-25",
    "2025-01-26", "2025-08-15", "2025-10-02", "2025-12-25"
  ]

  // ---------------------------------------------------------------------------
  // Dates as strings
  // ---------------------------------------------------------------------------

  /** A zero-padded `YYYY-MM-DD` string. */
  predicate WellFormedDate(s: string) {
    && |s| == 10
    && AllDigits(s[..4]) && s[4] == '-'
    && AllDigits(s[5..7]) && s[7] == '-'
    && AllDigits(s[8..])
  }

  function Year(s: string): nat
    requires WellFormedDate(s)
  {
    DigitsValue(s[..4])
  }

  function Month(s: string): nat
    requires WellFormedDate(s)
  {
    DigitsValue(s[5..7])
  }

  function Day(s: string): nat
    requires WellFormedDate(s)
  {
    DigitsValue(s[8..])
  }

  /** Calendar order: by year, then month, then day. */
  predicate CalendarBefore(a: string, b: string)
    requires WellFormedDate(a) && WellFormedDate(b)
  {
    || Year(a) < Year(b)
    || (Year(a) == Year(b) && Month(a) < Month(b))
    || (Year(a) == Year(b) && Month(a) == Month(b) && Day(a) < Day(b))
  }

  /** Equal-length digit strings are equal exactly when their values are. */
  lemma DigitsEqual(a: string, b: string)
    requires AllDigits(a) && AllDigits(b) && |a| == |b|
    ensures a == b <==> DigitsValue(a) == DigitsValue(b)
  {
    DigitsOrder(a, b);
    DigitsOrder(b, a);
    if a != b {
      LessConnected(a, b);
    }
  }

  /** For two equal-length strings, one fixed-width digit field followed by the
      rest: string order compares the field's value first, then the rest. */
  lemma FieldThenRest(a: string, b: string, w: nat)
    requires w <= |a| && |a| == |b| && AllDigits(a[..w]) && AllDigits(b[..w])
    ensures Less(a, b) <==> DigitsValue(a[..w]) < DigitsValue(b[..w])
                            || (DigitsValue(a[..w]) == DigitsValue(b[..w]) && Less(a[w..], b[w..]))
  {
    assert a == a[..w] + a[w..] && b == b[..w] + b[w..];
    LessConcat(a[..w], a[w..], b[..w], b[w..]);
    DigitsOrder(a[..w], b[..w]);
    DigitsEqual(a[..w], b[..w]);
  }

  /** Skipping one shared separator character does not change the order. */
  lemma SkipSeparator(a: string, b: string)
    requires a != [] && b != [] && a[0] == b[0]
    ensures Less(a, b) <==> Less(a[1..], b[1..])
  {
  }

  /** For well-formed dates the string comparison the calendar code relies on
      is calendar order. */
  lemma DateOrderIsCalendarOrder(a: string, b: string)
    requires WellFormedDate(a) && WellFormedDate(b)
    ensures Less(a, b) <==> CalendarBefore(a, b)
  {
    FieldThenRest(a, b, 4);
    SkipSeparator(a[4..], b[4..]);
    assert a[4..][1..] == a[5..] && b[4..][1..] == b[5..];
    assert a[5..][..2] == a[5..7] && b[5..][..2] == b[5..7];
    FieldThenRest(a[5..], b[5..], 2);
    SkipSeparator(a[7..], b[7..]);
    assert a[5..][2..] == a[7..] && b[5..][2..] == b[7..];
    assert a[7..][1..] == a[8..] && b[7..][1..] == b[8..];
    DigitsOrder(a[8..], b[8..]);
  }

  // ---------------------------------------------------------------------------
  // Membership
  // ---------------------------------------------------------------------------

  /** A ten-character string with digits around dashes at positions 4 and
      7 is a well-formed date. */
  lemma DateShape(s: string)
    requires |s| == 10 && s[4] == '-' && s[7] == '-'
    requires forall i :: 0 <= i < 10 && i != 4 && i != 7 ==> IsDigit(s[i])
    ensures WellFormedDate(s)
  {
    assert forall i :: 0 <= i < 4 ==> s[..4][i] == s[i];
    assert forall i :: 0 <= i < 2 ==> s[5..7][i] == s[5 + i];
    assert forall i :: 0 <= i < 2 ==> s[8..][i] == s[8 + i];
  }

  lemma HolidaysWellFormed()
    ensures forall h :: h in HOLIDAYS ==> WellFormedDate(h)
  {
    forall i | 0 <= i < |HOLIDAYS|
      ensures WellFormedDate(HOLIDAYS[i])
    {
      DateShape(HOLIDAYS[i]);
    }
  }

  /** `isHoliday(date)` and `isTodayHoliday()`: the date's `YYYY-MM-DD` string
      is on the calendar. Only well-formed dates can be holidays. */
  predicate IsHoliday(isoDate: string)
    ensures IsHoliday(isoDate) ==> WellFormedDate(isoDate)
  {
    HolidaysWellFormed();
    isoDate in HOLIDAYS
  }

  // ---------------------------------------------------------------------------
  // Upcoming holidays
  // ---------------------------------------------------------------------------

  /** One entry of `getUpcomingHolidays`; the display-only `formatted` field is
      not modelled. */
  datatype UpcomingHoliday = UpcomingHoliday(date: string)

  /** The entries of `hs` that are `>= today` (JavaScript string comparison),
      in list order. */
  function OnOrAfter(hs: seq<string>, today: string): (r: seq<string>)
    ensures |r| <= |hs|
    ensures forall x :: x in r <==> x in hs && !Less(x, today)
  {
    if hs == [] then []
    else if !Less(hs[0], today) then [hs[0]] + OnOrAfter(hs[1..], today)
    else OnOrAfter(hs[1..], today)
  }

  /** The end index of `xs.slice(0, count)` on a list of length `len`: a
      negative count counts back from the end. */
  function SliceEnd(len: nat, count: int): (e: nat)
    ensures e <= len
    ensures count >= 0 ==> e == if count < len then count else len
    ensures count < 0 ==> e == if len + count > 0 then len + count else 0
  {
    if count >= 0 then (if count < len then count else len)
    else if len + count > 0 then len + count else 0
  }

  /** `getUpcomingHolidays(count = 5)` for the UTC date string `today`: at
      most `count` holidays on or after today, taken from the front of the
      calendar. */
  function GetUpcomingHolidays(today: string, count: int := 5): (r: seq<UpcomingHoliday>)
    ensures count >= 0 ==> |r| <= count
    ensures |r| == SliceEnd(|OnOrAfter(HOLIDAYS, today)|, count)
    ensures 0 <= count <= |OnOrAfter(HOLIDAYS, today)| ==> |r| == count
    ensures |r| <= |OnOrAfter(HOLIDAYS, today)|
    ensures forall i :: 0 <= i < |r| ==> r[i].date == OnOrAfter(HOLIDAYS, today)[i]
    ensures forall i :: 0 <= i < |r| ==> r[i].date in HOLIDAYS && !Less(r[i].date, today)
  {
    var upcoming := OnOrAfter(HOLIDAYS, today);
    var taken := upcoming[..SliceEnd(|upcoming|, count)];
    seq(|taken|, i requires 0 <= i < |taken| => UpcomingHoliday(taken[i]))
  }

  /** Called without a count, at most five holidays come back, and exactly
      five when that many are upcoming. */
  lemma DefaultCountIsFive(today: string)
    ensures |GetUpcomingHolidays(today)| == if |OnOrAfter(HOLIDAYS, today)| < 5 then |OnOrAfter(HOLIDAYS, today)| else 5
  {
  }

  /** With a non-negative count at least as large as the number of upcoming
      holidays, every one of them is returned. */
  lemma LargeCountReturnsAll(today: string, count: int)
    requires count >= |OnOrAfter(HOLIDAYS, today)|
    ensures |GetUpcomingHolidays(today, count)| == |OnOrAfter(HOLIDAYS, today)|
  {
  }

  // ---------------------------------------------------------------------------
  // Ordering of the calendar
  // ---------------------------------------------------------------------------

  ghost predicate StrictlyIncreasing(hs: seq<string>) {
    forall i, j :: 0 <= i < j < |hs| ==> Less(hs[i], hs[j])
  }

  ghost predicate AdjacentIncreasing(hs: seq<string>) {
    forall i :: 0 <= i < |hs| - 1 ==> Less(hs[i], hs[i + 1])
  }

  lemma {:induction false} AdjacentToStrict(hs: seq<string>)
    requires AdjacentIncreasing(hs)
    ensures StrictlyIncreasing(hs)
    decreases |hs|
  {
    if |hs| > 1 {
      AdjacentToStrict(hs[1..]);
      forall j | 0 < j < |hs|
        ensures Less(hs[0], hs[j])
      {
        if j > 1 {
          assert hs[1..][0] == hs[1] && hs[1..][j - 1] == hs[j];
          LessTransitive(hs[0], hs[1], hs[j]);
        }
      }
      forall i, j | 0 <= i < j < |hs|
        ensures Less(hs[i], hs[j])
      {
        if i > 0 {
          assert hs[1..][i - 1] == hs[i] && hs[1..][j - 1] == hs[j];
        }
      }
    }
  }

  /** Each holiday comes before the next one on the list. */
  lemma HolidayBeforeNext(i: nat)
    requires i < |HOLIDAYS| - 1
    ensures Less(HOLIDAYS[i], HOLIDAYS[i + 1])
  {
    if i == 0 {
      LessAtFirstDifference(HOLIDAYS[0], HOLIDAYS[1], 6);
    } else if i == 1 {
      LessAtFirstDifference(HOLIDAYS[1], HOLIDAYS[2], 5);
    } else if i == 2 {
      LessAtFirstDifference(HOLIDAYS[2], HOLIDAYS[3], 8);
    } else if i == 3 {
      LessAtFirstDifference(HOLIDAYS[3], HOLIDAYS[4], 6);
    } else if i == 4 {
      LessAtFirstDifference(HOLIDAYS[4], HOLIDAYS[5], 3);
    } else if i == 5 {
      LessAtFirstDifference(HOLIDAYS[5], HOLIDAYS[6], 6);
    } else if i == 6 {
      LessAtFirstDifference(HOLIDAYS[6], HOLIDAYS[7], 5);
    } else {
      LessAtFirstDifference(HOLIDAYS[7], HOLIDAYS[8], 6);
    }
  }

  /** The calendar is listed in strictly increasing order. */
  lemma HolidaysStrictlyIncreasing()
    ensures StrictlyIncreasing(HOLIDAYS)
  {
    forall i | 0 <= i < |HOLIDAYS| - 1
      ensures Less(HOLIDAYS[i], HOLIDAYS[i + 1])
    {
      HolidayBeforeNext(i);
    }
    AdjacentToStrict(HOLIDAYS);
  }

  /** Filtering keeps a strictly increasing list strictly increasing. */
  lemma {:induction false} OnOrAfterIncreasing(hs: seq<string>, today: string)
    requires StrictlyIncreasing(hs)
    ensures StrictlyIncreasing(OnOrAfter(hs, today))
    decreases |hs|
  {
    if hs != [] {
      assert StrictlyIncreasing(hs[1..]);
      OnOrAfterIncreasing(hs[1..], today);
      if !Less(hs[0], today) {
        var rest := OnOrAfter(hs[1..], today);
        forall x | x in rest
          ensures Less(hs[0], x)
        {
          var k :| 0 <= k < |hs[1..]| && hs[1..][k] == x;
          assert hs[k + 1] == x;
        }
        var r := [hs[0]] + rest;
        forall i, j | 0 <= i < j < |r|
          ensures Less(r[i], r[j])
        {
          assert r[j] == rest[j - 1];
          if i > 0 {
            assert r[i] == rest[i - 1];
          }
        }
      }
    }
  }

  /** The result is the `count` earliest upcoming holidays: every upcoming
      holiday left out comes after every one returned. */
  lemma UpcomingAreEarliest(today: string, count: int, h: string)
    requires h in HOLIDAYS && !Less(h, today)
    requires forall i :: 0 <= i < |GetUpcomingHolidays(today, count)| ==> GetUpcomingHolidays(today, count)[i].date != h
    ensures forall i :: 0 <= i < |GetUpcomingHolidays(today, count)| ==> Less(GetUpcomingHolidays(today, count)[i].date, h)
  {
    var r := GetUpcomingHolidays(today, count);
    var up := OnOrAfter(HOLIDAYS, today);
    HolidaysStrictlyIncreasing();
    OnOrAfterIncreasing(HOLIDAYS, today);
    var k :| 0 <= k < |up| && up[k] == h;
    forall i | 0 <= i < |r|
      ensures Less(r[i].date, h)
    {
      assert r[i].date == up[i];
    }
  }
}
