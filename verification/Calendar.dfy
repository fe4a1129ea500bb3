// The proleptic Gregorian calendar of Python's date: years 1 to 9999, one day
// at a time. A date outside that range is no date (Python raises).
module Calendar {
  import opened Text

  datatype YMD = Date(y: int, m: int, d: int)

  predicate IsLeap(y: int) { y % 4 == 0 && (y % 100 != 0 || y % 400 == 0) }

  function DaysIn(y: int, m: int): (n: int)
    ensures 28 <= n <= 31
  {
    if m == 2 then (if IsLeap(y) then 29 else 28)
    else if m == 4 || m == 6 || m == 9 || m == 11 then 30
    else 31
  }

  // February apart, long and short months alternate, twice long from July to August.
  lemma MonthLengths(y: int, m: int)
    requires 1 <= m <= 12
    ensures DaysIn(y, m) == if m == 2 then (if IsLeap(y) then 29 else 28) else if (m <= 7) == (m % 2 == 1) then 31 else 30
  {
  }

  predicate InCalendar(t: YMD) { 1 <= t.y <= 9999 && 1 <= t.m <= 12 && 1 <= t.d <= DaysIn(t.y, t.m) }

  type Day = t: YMD | InCalendar(t) witness Date(1, 1, 1)

  function Tomorrow(t: Day): Option<Day> {
    if t.d < DaysIn(t.y, t.m) then Some(Date(t.y, t.m, t.d + 1))
    else if t.m < 12 then Some(Date(t.y, t.m + 1, 1))
    else if t.y < 9999 then Some(Date(t.y + 1, 1, 1))
    else None
  }

  function Yesterday(t: Day): Option<Day> {
    if t.d > 1 then Some(Date(t.y, t.m, t.d - 1))
    else if t.m > 1 then Some(Date(t.y, t.m - 1, DaysIn(t.y, t.m - 1)))
    else if t.y > 1 then Some(Date(t.y - 1, 12, 31))
    else None
  }

  // t + timedelta(days=n)
  function AddDays(t: Day, n: int): Option<Day>
    decreases if n < 0 then -n else n
  {
    if n == 0 then Some(t)
    else if n > 0 then
      match Tomorrow(t) case Some(u) => AddDays(u, n - 1) case None => None
    else
      match Yesterday(t) case Some(u) => AddDays(u, n + 1) case None => None
  }

  function MonthStart(t: Day): Day { t.(d := 1) }

  // --------------------------------------------------------------- ordinals

  function DaysBeforeYear(y: int): int { (y - 1) * 365 + (y - 1) / 4 - (y - 1) / 100 + (y - 1) / 400 }

  function DaysBeforeMonth(y: int, m: int): int
    decreases m
  {
    if m <= 1 then 0 else DaysBeforeMonth(y, m - 1) + DaysIn(y, m - 1)
  }

  // t.toordinal(): 1 January of year 1 is day 1, a Monday.
  function Ordinal(t: Day): int { DaysBeforeYear(t.y) + DaysBeforeMonth(t.y, t.m) + t.d }

  // t.weekday(): 0 is Monday.
  function Weekday(t: Day): int { WeekdayAt(Ordinal(t)) }

  function WeekdayAt(ordinal: int): int { (ordinal + 6) % 7 }

  lemma FourYears(y: int)
    ensures y / 4 - (y - 1) / 4 == if y % 4 == 0 then 1 else 0
  {
    var q, r := y / 4, y % 4;
    assert r == 0 ==> y - 1 == 4 * (q - 1) + 3;
    assert r > 0 ==> y - 1 == 4 * q + (r - 1);
  }

  lemma Century(y: int)
    ensures y / 100 - (y - 1) / 100 == if y % 100 == 0 then 1 else 0
  {
    var q, r := y / 100, y % 100;
    assert r == 0 ==> y - 1 == 100 * (q - 1) + 99;
    assert r > 0 ==> y - 1 == 100 * q + (r - 1);
  }

  lemma FourCenturies(y: int)
    ensures y / 400 - (y - 1) / 400 == if y % 400 == 0 then 1 else 0
  {
    var q, r := y / 400, y % 400;
    assert r == 0 ==> y - 1 == 400 * (q - 1) + 399;
    assert r > 0 ==> y - 1 == 400 * q + (r - 1);
  }

  lemma CenturyIsFours(y: int)
    requires y % 100 == 0
    ensures y % 4 == 0
  {
    assert y == 4 * (25 * (y / 100));
  }

  lemma FourCenturiesAreCenturies(y: int)
    requires y % 400 == 0
    ensures y % 100 == 0
  {
    assert y == 100 * (4 * (y / 400));
  }

  lemma YearLength(y: int)
    ensures DaysBeforeYear(y + 1) - DaysBeforeYear(y) == if IsLeap(y) then 366 else 365
  {
    FourYears(y);
    Century(y);
    FourCenturies(y);
    if y % 400 == 0 {
      FourCenturiesAreCenturies(y);
    }
    if y % 100 == 0 {
      CenturyIsFours(y);
    }
  }

  lemma MonthsOfYear(y: int)
    ensures DaysBeforeMonth(y, 12) == if IsLeap(y) then 335 else 334
  {
    assert DaysBeforeMonth(y, 3) == DaysBeforeMonth(y, 2) + DaysIn(y, 2);
    assert DaysBeforeMonth(y, 5) == DaysBeforeMonth(y, 3) + 61;
    assert DaysBeforeMonth(y, 7) == DaysBeforeMonth(y, 5) + 61;
    assert DaysBeforeMonth(y, 9) == DaysBeforeMonth(y, 7) + 62;
    assert DaysBeforeMonth(y, 11) == DaysBeforeMonth(y, 9) + 61;
  }

  lemma TomorrowIsNextOrdinal(t: Day)
    requires Tomorrow(t).Some?
    ensures Ordinal(Tomorrow(t).value) == Ordinal(t) + 1
    ensures Yesterday(Tomorrow(t).value) == Some(t)
  {
    YesterdayOfTomorrow(t);
    if t.d == DaysIn(t.y, t.m) {
      if t.m < 12 {
        NewMonth(t.y, t.m);
      } else {
        NewYear(t.y);
      }
    }
  }

  lemma YesterdayOfTomorrow(t: Day)
    requires Tomorrow(t).Some?
    ensures Yesterday(Tomorrow(t).value) == Some(t)
  {
  }

  lemma NewMonth(y: int, m: int)
    requires 1 <= m
    ensures DaysBeforeMonth(y, m + 1) == DaysBeforeMonth(y, m) + DaysIn(y, m)
  {
  }

  lemma NewYear(y: int)
    ensures DaysBeforeYear(y + 1) + DaysBeforeMonth(y + 1, 1) + 1 ==
            DaysBeforeYear(y) + DaysBeforeMonth(y, 12) + DaysIn(y, 12) + 1
  {
    YearLength(y);
    MonthsOfYear(y);
  }

  lemma YesterdayIsPreviousOrdinal(t: Day)
    requires Yesterday(t).Some?
    ensures Ordinal(Yesterday(t).value) == Ordinal(t) - 1
  {
    var u := Yesterday(t).value;
    assert Tomorrow(u) == Some(t);
    TomorrowIsNextOrdinal(u);
  }

  // Adding days moves the ordinal by as many, and subtracting them moves back.
  lemma {:induction false} AddDaysOrdinal(t: Day, n: int)
    requires AddDays(t, n).Some?
    ensures Ordinal(AddDays(t, n).value) == Ordinal(t) + n
    decreases if n < 0 then -n else n
  {
    if n > 0 {
      TomorrowIsNextOrdinal(t);
      AddDaysOrdinal(Tomorrow(t).value, n - 1);
    } else if n < 0 {
      YesterdayIsPreviousOrdinal(t);
      AddDaysOrdinal(Yesterday(t).value, n + 1);
    }
  }

  const LAST := Date(9999, 12, 31)

  // Adding days fails only by leaving the calendar.
  lemma {:induction false} AddDaysInCalendar(t: Day, n: int)
    requires AddDays(t, n).None?
    ensures Ordinal(t) + n < 1 || Ordinal(t) + n > Ordinal(LAST)
    decreases if n < 0 then -n else n
  {
    if n > 0 {
      if Tomorrow(t).Some? {
        TomorrowIsNextOrdinal(t);
        AddDaysInCalendar(Tomorrow(t).value, n - 1);
      } else {
        assert t == LAST;
      }
    } else {
      if Yesterday(t).Some? {
        YesterdayIsPreviousOrdinal(t);
        AddDaysInCalendar(Yesterday(t).value, n + 1);
      } else {
        assert t == Date(1, 1, 1) && Ordinal(t) == 1;
      }
    }
  }

  lemma {:induction false} AddDaysSplit(t: Day, a: nat, b: nat)
    requires AddDays(t, a).Some?
    ensures AddDays(t, a + b) == AddDays(AddDays(t, a).value, b)
    decreases a
  {
    if a > 0 {
      AddDaysSplit(Tomorrow(t).value, a - 1, b);
    }
  }

  lemma {:induction false} AddDaysWithinMonth(t: Day, n: nat)
    requires t.d + n <= DaysIn(t.y, t.m)
    ensures AddDays(t, n) == Some(Date(t.y, t.m, t.d + n))
    decreases n
  {
    if n > 0 {
      AddDaysWithinMonth(Date(t.y, t.m, t.d + 1), n - 1);
    }
  }

  // ----------------------------------------------------------------- months

  function FollowingMonth(t: Day): Option<Day> {
    if t.m < 12 then Some(Date(t.y, t.m + 1, 1))
    else if t.y < 9999 then Some(Date(t.y + 1, 1, 1))
    else None
  }

  function PrecedingMonth(t: Day): Option<Day> {
    if t.m > 1 then Some(Date(t.y, t.m - 1, 1))
    else if t.y > 1 then Some(Date(t.y - 1, 12, 1))
    else None
  }

  // From the 28th, seven days later is always within the following month.
  lemma PastTheEnd(t: Day)
    requires t.d == 28
    ensures match FollowingMonth(t)
            case Some(next) => AddDays(t, 7).Some? && MonthStart(AddDays(t, 7).value) == next
            case None => AddDays(t, 7) == None
  {
    var left := DaysIn(t.y, t.m) - 28;
    AddDaysWithinMonth(t, left);
    AddDaysSplit(t, left, 7 - left);
    var last := AddDays(t, left).value;
    assert Tomorrow(last) == FollowingMonth(t);
    if FollowingMonth(t).Some? {
      AddDaysWithinMonth(FollowingMonth(t).value, 6 - left);
    }
  }

  // A fortnight from either end of the calendar is in its first or last year.
  lemma EndsOfCalendar(t: Day)
    ensures Ordinal(t) <= 14 ==> t.y == 1
    ensures Ordinal(t) > Ordinal(LAST) - 14 ==> t.y == 9999
  {
    WithinYear(t);
    YearsGrow(1, t.y);
    YearsGrow(t.y, 9999);
    assert DaysBeforeMonth(9999, 12) == 334 by { MonthsOfYear(9999); }
  }

  lemma {:induction false} YearsGrow(a: int, b: int)
    requires a <= b
    ensures DaysBeforeYear(b) >= DaysBeforeYear(a) + 365 * (b - a)
    ensures a < b ==> DaysBeforeYear(b) >= DaysBeforeYear(a + 1) + 365 * (b - a - 1)
    decreases b - a
  {
    if a < b {
      YearLength(a);
      YearsGrow(a + 1, b);
    }
  }

  lemma WithinYear(t: Day)
    ensures 0 < DaysBeforeMonth(t.y, t.m) + t.d <= if IsLeap(t.y) then 366 else 365
    ensures DaysBeforeYear(t.y) < Ordinal(t) <= DaysBeforeYear(t.y + 1)
  {
    MonthsOfYear(t.y);
    BeforeDecember(t.y, t.m);
    YearLength(t.y);
  }

  lemma {:induction false} BeforeDecember(y: int, m: int)
    requires 1 <= m <= 12
    ensures 0 <= DaysBeforeMonth(y, m)
    ensures DaysBeforeMonth(y, m) + DaysIn(y, m) <= DaysBeforeMonth(y, 12) + 31
    decreases 12 - m
  {
    BeforeIsPositive(y, m);
    if m < 12 {
      BeforeDecember(y, m + 1);
    }
  }

  lemma {:induction false} BeforeIsPositive(y: int, m: int)
    ensures DaysBeforeMonth(y, m) >= 0
    decreases m
  {
    if m > 1 {
      BeforeIsPositive(y, m - 1);
    }
  }

  lemma MonthLength(t: Day)
    requires t.d == 1 && FollowingMonth(t).Some?
    ensures Ordinal(FollowingMonth(t).value) == Ordinal(t) + DaysIn(t.y, t.m)
  {
    AddDaysWithinMonth(t, DaysIn(t.y, t.m) - 1);
    var last := AddDays(t, DaysIn(t.y, t.m) - 1).value;
    AddDaysOrdinal(t, DaysIn(t.y, t.m) - 1);
    TomorrowIsNextOrdinal(last);
  }
}
