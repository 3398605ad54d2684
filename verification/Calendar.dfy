/** Seconds since the Unix epoch as a civil date and time, found by counting years and months off. */
module Calendar {

  datatype DateTime = DateTime(year: nat, month: nat, day: nat, hour: nat, minute: nat, second: nat)

  // ----- The Gregorian calendar -----

  /** The leap-year rule of Appendix C of RFC 3339. */
  predicate Leap(year: nat) {
    year % 4 == 0 && (year % 100 != 0 || year % 400 == 0)
  }

  function DaysOfYear(year: nat): nat {
    if Leap(year) then 366 else 365
  }

  /** The month lengths of section 5.7 of RFC 3339; months count from one. */
  function DaysOfMonth(year: nat, month: nat): nat {
    if month == 2 then (if Leap(year) then 29 else 28)
    else if month == 4 || month == 6 || month == 9 || month == 11 then 30
    else 31
  }

  predicate Valid(t: DateTime) {
    && 1970 <= t.year
    && 1 <= t.month <= 12
    && 1 <= t.day <= DaysOfMonth(t.year, t.month)
    && t.hour < 24 && t.minute < 60 && t.second < 60
  }

  /** Days before the first of January of the year, counted from 1970. */
  function DaysBeforeYear(year: nat): nat {
    if year <= 1970 then 0 else DaysBeforeYear(year - 1) + DaysOfYear(year - 1)
  }

  function DaysBeforeMonth(year: nat, month: nat): nat {
    if month <= 1 then 0 else DaysBeforeMonth(year, month - 1) + DaysOfMonth(year, month - 1)
  }

  function DayNumber(t: DateTime): int {
    DaysBeforeYear(t.year) + DaysBeforeMonth(t.year, t.month) + t.day - 1
  }

  /** Counting back. */
  function Seconds(t: DateTime): int {
    DayNumber(t) * 86400 + SecondOfDay(t)
  }

  function SecondOfDay(t: DateTime): int {
    t.hour * 3600 + t.minute * 60 + t.second
  }

  predicate Earlier(a: DateTime, b: DateTime) {
    a.year < b.year || (a.year == b.year &&
    (a.month < b.month || (a.month == b.month &&
    (a.day < b.day || (a.day == b.day &&
    (a.hour < b.hour || (a.hour == b.hour &&
    (a.minute < b.minute || (a.minute == b.minute &&
    a.second < b.second)))))))))
  }

  // ----- The conversion -----

  method TimestampNow(secs: nat) returns (t: DateTime)
    ensures Valid(t) && Seconds(t) == secs
  {
    var days, rem := secs / 86400, secs % 86400;
    var year, remainingDays := 1970, days;
    while true
      invariant 1970 <= year && 0 <= remainingDays && DaysBeforeYear(year) + remainingDays == days
      decreases remainingDays
    {
      var yearDays := if year % 4 == 0 && (year % 100 != 0 || year % 400 == 0) then 366 else 365;
      if remainingDays < yearDays {
        break;
      }
      remainingDays, year := remainingDays - yearDays, year + 1;
    }
    var leap := year % 4 == 0 && (year % 100 != 0 || year % 400 == 0);
    var lengths := [31, if leap then 29 else 28, 31, 30, 31, 30, 31, 31, 30, 31, 30, 31];
    var month := 0;
    ghost var dayOfYear := remainingDays;
    MonthsMakeYear(year);
    for i := 0 to |lengths|
      invariant month == i && 0 <= remainingDays
      invariant DaysBeforeMonth(year, month + 1) + remainingDays == dayOfYear
    {
      assert lengths[i] == DaysOfMonth(year, month + 1);
      if remainingDays < lengths[i] {
        break;
      }
      remainingDays, month := remainingDays - lengths[i], month + 1;
    }
    t := DateTime(year, month + 1, remainingDays + 1, rem / 3600, rem % 3600 / 60, rem % 60);
  }

  lemma {:induction false} MonthsMakeYear(year: nat)
    ensures DaysBeforeMonth(year, 13) == DaysOfYear(year)
  {
    assert forall month :: 1 <= month <= 12 ==>
      DaysBeforeMonth(year, month + 1) == DaysBeforeMonth(year, month) + DaysOfMonth(year, month);
    assert DaysBeforeMonth(year, 4) == DaysBeforeMonth(year, 3) + 31;
    assert DaysBeforeMonth(year, 7) == DaysBeforeMonth(year, 6) + 30;
    assert DaysBeforeMonth(year, 10) == DaysBeforeMonth(year, 9) + 30;
  }

  /** The count of days before a month agrees with the closed form in which a year runs from March: five
      months always have 153 days, and January and February come before. */
  lemma {:induction false} DaysBeforeMonthClosed(year: nat, month: nat)
    requires 1 <= month <= 12
    ensures DaysBeforeMonth(year, month) ==
            if month <= 2 then 31 * (month - 1)
            else (153 * (month - 3) + 2) / 5
                 + (if year % 4 == 0 && (year % 100 != 0 || year % 400 == 0) then 60 else 59)
  {
    assert DaysBeforeMonth(year, 2) == 31;
    if month > 3 {
      DaysBeforeMonthClosed(year, month - 1);
      MarchMonths(year, month - 1);
    }
  }

  /** One more month in that closed form. */
  lemma MarchMonths(year: nat, month: nat)
    requires 3 <= month < 12
    ensures (153 * (month - 2) + 2) / 5 == (153 * (month - 3) + 2) / 5 + DaysOfMonth(year, month)
  {
  }

  // ----- The count is right -----

  function LeapYearsBefore(year: nat): int {
    if year == 0 then 0 else (year - 1) / 4 - (year - 1) / 100 + (year - 1) / 400
  }

  /** The count of days agrees with the closed form of the Gregorian calendar. */
  lemma {:induction false} DaysBeforeYearClosed(year: nat)
    requires 1970 <= year
    ensures DaysBeforeYear(year) == 365 * (year - 1970) + LeapYearsBefore(year) - LeapYearsBefore(1970)
  {
    if year > 1970 {
      DaysBeforeYearClosed(year - 1);
      LeapYearCounts(year - 1);
    }
  }

  lemma LeapYearCounts(year: nat)
    requires year > 0
    ensures LeapYearsBefore(year + 1) == LeapYearsBefore(year) + (if Leap(year) then 1 else 0)
  {
    assert year / 4 == (year - 1) / 4 + (if year % 4 == 0 then 1 else 0);
    assert year / 100 == (year - 1) / 100 + (if year % 100 == 0 then 1 else 0);
    assert year / 400 == (year - 1) / 400 + (if year % 400 == 0 then 1 else 0);
  }

  // ----- Order -----

  lemma {:induction false} LaterYearsStartLater(year: nat, later: nat)
    requires 1970 <= year < later
    ensures DaysBeforeYear(year) + DaysOfYear(year) <= DaysBeforeYear(later)
    decreases later
  {
    if year + 1 < later {
      LaterYearsStartLater(year, later - 1);
    }
  }

  lemma {:induction false} LaterMonthsStartLater(year: nat, month: nat, later: nat)
    requires 1 <= month < later
    ensures DaysBeforeMonth(year, month) + DaysOfMonth(year, month) <= DaysBeforeMonth(year, later)
    decreases later
  {
    if month + 1 < later {
      LaterMonthsStartLater(year, month, later - 1);
    }
  }

  lemma DayWithinYear(t: DateTime)
    requires Valid(t)
    ensures 0 <= DayNumber(t) - DaysBeforeYear(t.year) < DaysOfYear(t.year)
  {
    LaterMonthsStartLater(t.year, t.month, 13);
    MonthsMakeYear(t.year);
  }

  lemma EarlierDaysCountLess(a: DateTime, b: DateTime)
    requires Valid(a) && Valid(b) && Earlier(a, b)
    requires (a.year, a.month, a.day) != (b.year, b.month, b.day)
    ensures DayNumber(a) < DayNumber(b)
  {
    if a.year < b.year {
      DayWithinYear(a);
      DayWithinYear(b);
      LaterYearsStartLater(a.year, b.year);
    } else if a.month < b.month {
      LaterMonthsStartLater(a.year, a.month, b.month);
    }
  }

  lemma EarlierCountsLess(a: DateTime, b: DateTime)
    requires Valid(a) && Valid(b) && Earlier(a, b)
    ensures Seconds(a) < Seconds(b)
  {
    if (a.year, a.month, a.day) != (b.year, b.month, b.day) {
      EarlierDaysCountLess(a, b);
    }
  }

  /** Counting back keeps the order both ways, so a count belongs to one date and time only. */
  lemma OrderIsKept(a: DateTime, b: DateTime)
    requires Valid(a) && Valid(b)
    ensures Seconds(a) < Seconds(b) <==> Earlier(a, b)
    ensures Seconds(a) == Seconds(b) <==> a == b
  {
    if Earlier(a, b) {
      EarlierCountsLess(a, b);
    } else if Earlier(b, a) {
      EarlierCountsLess(b, a);
    }
  }
}
