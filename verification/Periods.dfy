// The reporting periods of manager/api/periods.py: a name, a month or a year
// resolved to one half-open interval of days.
module Periods {
  import opened Calendar
  import opened Text

  // Raised: the date arithmetic left the calendar (OverflowError, ValueError).
  // BadRequest: the 400 answers.
  datatype Resolved = Period(since: Day, until: Day, named: string) | BadRequest | Raised

  // ----------------------------------------------------------- month steps

  // first.replace(day=28) + 7 days, on its first day.
  function NextMonth(first: Day): Option<Day> {
    match AddDays(first.(d := 28), 7) case Some(t) => Some(MonthStart(t)) case None => None
  }

  function PreviousMonth(today: Day): Option<Day> {
    match AddDays(MonthStart(today), -1) case Some(t) => Some(MonthStart(t)) case None => None
  }

  // window: `months` whole months back from today's month. A count below one
  // goes back none.
  method Window(months: int, today: Day) returns (first: Option<Day>)
    ensures first == MonthsBack(MonthStart(today), if months <= 1 then 0 else months - 1)
  {
    var start := MonthStart(today);
    var k := 0;
    while k < months - 1
      invariant 0 <= k && (k <= months - 1 || k == 0)
      invariant MonthsBack(MonthStart(today), if months <= 1 then 0 else months - 1) ==
                MonthsBack(start, if months <= 1 then 0 else months - 1 - k)
    {
      var before := PreviousMonth(start);
      if before.None? {
        return None;
      }
      start := before.value;
      k := k + 1;
    }
    return Some(start);
  }

  function MonthsBack(first: Day, n: nat): Option<Day>
    decreases n
  {
    if n == 0 then Some(first)
    else match PreviousMonth(first) case Some(t) => MonthsBack(t, n - 1) case None => None
  }

  function MonthsOn(first: Day, n: nat): Option<Day>
    decreases n
  {
    if n == 0 then Some(first)
    else match NextMonth(first) case Some(t) => MonthsOn(t, n - 1) case None => None
  }

  lemma NextMonthIs(t: Day)
    ensures NextMonth(t) == FollowingMonth(t)
  {
    PastTheEnd(t.(d := 28));
  }

  lemma PreviousMonthIs(t: Day)
    ensures PreviousMonth(t) == PrecedingMonth(t)
  {
    var first := MonthStart(t);
    assert AddDays(first, -1) == match Yesterday(first) case Some(u) => AddDays(u, 0) case None => None;
  }

  // On month starts the two steps undo one another, at every date that has them.
  lemma MonthStepsAreInverse(first: Day)
    requires first.d == 1
    ensures NextMonth(first).Some? ==> PreviousMonth(NextMonth(first).value) == Some(first)
    ensures PreviousMonth(first).Some? ==> NextMonth(PreviousMonth(first).value) == Some(first)
  {
    NextMonthIs(first);
    PreviousMonthIs(first);
    if NextMonth(first).Some? {
      PreviousMonthIs(NextMonth(first).value);
    }
    if PreviousMonth(first).Some? {
      NextMonthIs(PreviousMonth(first).value);
    }
  }

  // The n months from window(n) follow one another up to today's month.
  lemma {:induction false} WindowTiles(first: Day, n: nat)
    requires first.d == 1 && MonthsBack(first, n).Some?
    ensures MonthsBack(first, n).value.d == 1
    ensures MonthsOn(MonthsBack(first, n).value, n) == Some(first)
    decreases n
  {
    if n > 0 {
      PreviousMonthIs(first);
      var before := PreviousMonth(first).value;
      WindowTiles(before, n - 1);
      MonthStepsAreInverse(first);
      MonthsOnSplit(MonthsBack(first, n).value, n - 1);
    }
  }

  lemma {:induction false} MonthsOnSplit(first: Day, n: nat)
    requires MonthsOn(first, n).Some?
    ensures MonthsOn(first, n + 1) == NextMonth(MonthsOn(first, n).value)
    decreases n
  {
    if n > 0 {
      MonthsOnSplit(NextMonth(first).value, n - 1);
    } else if NextMonth(first).Some? {
      assert MonthsOn(NextMonth(first).value, 0) == NextMonth(first);
    }
  }

  // ------------------------------------------------------------------ texts

  function TwoDigits(n: nat): (s: string)
    requires n < 100
    ensures |s| == 2 && AllDigits(s)
  {
    [Digit(n / 10), Digit(n % 10)]
  }

  function FourDigits(n: nat): (s: string)
    requires n < 10000
    ensures |s| == 4 && AllDigits(s)
  {
    TwoDigits(n / 100) + TwoDigits(n % 100)
  }

  function IsoMonth(t: Day): string { FourDigits(t.y) + "-" + TwoDigits(t.m) }

  function Iso(t: Day): string { IsoMonth(t) + "-" + TwoDigits(t.d) }

  lemma TwoDigitsValue(n: nat)
    requires n < 100
    ensures Value(TwoDigits(n)) == n
  {
    var s := TwoDigits(n);
    DecimalRoundTrip(n / 10);
    assert s[..1] == Decimal(n / 10);
    assert Value(s) == Value(s[..1]) * 10 + n % 10;
  }

  lemma FourDigitsValue(n: nat)
    requires n < 10000
    ensures Value(FourDigits(n)) == n
  {
    var high, low, s := n / 100, n % 100, FourDigits(n);
    TwoDigitsValue(high);
    assert s[..2] == TwoDigits(high) && s[..3][..2] == s[..2] && s[..4][..3] == s[..3];
    assert Value(s[..3]) == Value(s[..2]) * 10 + low / 10;
    assert s[..4] == s;
  }

  // ---------------------------------------------------------------- resolve

  function Interval(since: Day, until: Option<Day>, named: string): Resolved {
    match until case Some(u) => Period(since, u, named) case None => Raised
  }

  function Month(first: Day, named: string): Resolved { Interval(first, NextMonth(first), named) }

  function Year(y: int, named: string): Resolved {
    if 1 <= y < 9999 then Period(Date(y, 1, 1), Date(y + 1, 1, 1), named) else Raised
  }

  function WeekBack(today: Day, days: int): Resolved {
    match AddDays(today, 0 - days)
    case Some(first) => Interval(first, AddDays(first, 7), "week of " + Iso(first))
    case None => Raised
  }

  predicate CheckedYear(y: int) { 1970 <= y <= 2100 }

  predicate IsYear(p: string) { |p| == 4 && AllDigits(p) }

  predicate IsMonth(p: string) { |p| == 7 && AllDigits(p[..4]) && p[4] == '-' && AllDigits(p[5..]) }

  function Resolve(period: string, today: Day): Resolved {
    if period == "" || period == "last_month" then
      match PreviousMonth(today) case Some(first) => Month(first, IsoMonth(first)) case None => Raised
    else if period == "today" then Interval(today, AddDays(today, 1), Iso(today))
    else if period == "week" then WeekBack(today, Weekday(today))
    else if period == "last_week" then WeekBack(today, Weekday(today) + 7)
    else if period == "month" then Month(MonthStart(today), IsoMonth(today))
    else if period == "year" then Year(today.y, Decimal(today.y))
    else if period == "last_year" then Year(today.y - 1, Decimal(if today.y > 1 then today.y - 1 else 0))
    else if IsYear(period) then
      if CheckedYear(Value(period)) then Year(Value(period), period) else BadRequest
    else if IsMonth(period) then
      var y, m := Value(period[..4]), Value(period[5..]);
      if !(1 <= m <= 12) then BadRequest
      else if CheckedYear(y) then Month(Date(y, m, 1), period)
      else BadRequest
    else BadRequest
  }

  lemma MonthIs(t: Day, named: string)
    requires t.d == 1
    ensures Month(t, named) == Interval(t, FollowingMonth(t), named)
    ensures Month(t, named).Period? ==> Ordinal(Month(t, named).until) == Ordinal(t) + DaysIn(t.y, t.m)
  {
    NextMonthIs(t);
    if FollowingMonth(t).Some? {
      MonthLength(t);
    }
  }

  lemma YearIs(y: int, named: string)
    requires Year(y, named).Period?
    ensures Ordinal(Year(y, named).until) == Ordinal(Year(y, named).since) + if IsLeap(y) then 366 else 365
  {
    YearLength(y);
  }

  lemma WeekIs(today: Day, days: nat)
    requires WeekBack(today, days).Period?
    ensures Ordinal(WeekBack(today, days).since) == Ordinal(today) - days
    ensures Ordinal(WeekBack(today, days).until) == Ordinal(today) - days + 7
  {
    AddDaysOrdinal(today, 0 - days);
    AddDaysOrdinal(AddDays(today, 0 - days).value, 7);
  }

  // Every accepted period holds at least one day.
  lemma PeriodsAreNotEmpty(period: string, today: Day)
    requires Resolve(period, today).Period?
    ensures Ordinal(Resolve(period, today).since) < Ordinal(Resolve(period, today).until)
  {
    if period == "" || period == "last_month" {
      MonthIs(PreviousMonth(today).value, Resolve(period, today).named);
    } else if period == "today" {
      AddDaysOrdinal(today, 1);
    } else if period == "week" {
      WeekIs(today, Weekday(today));
    } else if period == "last_week" {
      WeekIs(today, Weekday(today) + 7);
    } else if period == "month" {
      MonthIs(MonthStart(today), IsoMonth(today));
    } else if period == "year" || period == "last_year" || IsYear(period) {
      YearIs(Resolve(period, today).since.y, Resolve(period, today).named);
    } else {
      MonthIs(Resolve(period, today).since, period);
    }
  }

  // The past period ends exactly where the current one begins.
  lemma LastMonthMeetsMonth(today: Day)
    requires Resolve("last_month", today).Period?
    ensures Resolve("last_month", today).until == MonthStart(today)
    ensures Resolve("last_month", today).since.d == 1
    ensures FollowingMonth(Resolve("last_month", today).since) == Some(MonthStart(today))
    ensures Resolve("", today) == Resolve("last_month", today)
    ensures Resolve("month", today).Period? ==> Resolve("month", today).since == MonthStart(today)
  {
    PreviousMonthIs(today);
    MonthIs(PreviousMonth(today).value, IsoMonth(PreviousMonth(today).value));
  }

  lemma LastWeekMeetsWeek(today: Day)
    requires Resolve("last_week", today).Period? && Resolve("week", today).Period?
    ensures Ordinal(Resolve("last_week", today).until) == Ordinal(Resolve("week", today).since)
    ensures Ordinal(Resolve("last_week", today).since) + 7 == Ordinal(Resolve("last_week", today).until)
  {
    WeekIs(today, Weekday(today));
    WeekIs(today, Weekday(today) + 7);
  }

  // Last year is the whole calendar year before today's: it ends where this year
  // begins, on the first of January.
  lemma LastYearMeetsYear(today: Day)
    ensures if today.y == 1 then Resolve("last_year", today) == Raised
            else Resolve("last_year", today) ==
                 Period(Date(today.y - 1, 1, 1), Date(today.y, 1, 1), Decimal(today.y - 1))
    ensures Resolve("last_year", today).Period? && Resolve("year", today).Period? ==>
      Resolve("last_year", today).until == Resolve("year", today).since
  {
  }

  // The current one holds today; a week is the seven days from a Monday.
  lemma WeekHoldsToday(today: Day)
    requires Resolve("week", today).Period?
    ensures var week := Resolve("week", today);
            && Ordinal(week.since) <= Ordinal(today) < Ordinal(week.until)
            && Weekday(week.since) == 0 && Ordinal(week.until) == Ordinal(week.since) + 7
  {
    WeekOf(today, WeekBack(today, Weekday(today)));
  }

  lemma WeekOf(today: Day, week: Resolved)
    requires week == WeekBack(today, Weekday(today)) && week.Period?
    ensures Ordinal(week.since) <= Ordinal(today) < Ordinal(week.until)
    ensures Weekday(week.since) == 0 && Ordinal(week.until) == Ordinal(week.since) + 7
  {
    WeekIs(today, Weekday(today));
    SinceMonday(Ordinal(today));
  }

  lemma SinceMonday(o: int)
    ensures 0 <= WeekdayAt(o) < 7 && WeekdayAt(o - WeekdayAt(o)) == 0
  {
  }

  lemma MonthHoldsToday(today: Day)
    requires Resolve("month", today).Period?
    ensures Ordinal(Resolve("month", today).since) <= Ordinal(today) < Ordinal(Resolve("month", today).until)
  {
    MonthIs(MonthStart(today), IsoMonth(today));
  }

  lemma YearHoldsToday(today: Day)
    requires Resolve("year", today).Period?
    ensures Ordinal(Resolve("year", today).since) <= Ordinal(today) < Ordinal(Resolve("year", today).until)
  {
    YearIs(today.y, Decimal(today.y));
    WithinYear(today);
  }

  // A month's label names the same month: the report can be asked for again.
  lemma MonthLabelRoundTrip(first: Day, today: Day)
    requires first.d == 1 && CheckedYear(first.y)
    ensures Resolve(IsoMonth(first), today) == Month(first, IsoMonth(first))
  {
    var p := IsoMonth(first);
    FourDigitsValue(first.y);
    TwoDigitsValue(first.m);
    assert p[..4] == FourDigits(first.y) && p[5..] == TwoDigits(first.m) && p[4] == '-';
    assert p[0] == FourDigits(first.y)[0] && IsDigit(p[0]);
  }

  lemma YearLabelRoundTrip(y: int, today: Day)
    requires CheckedYear(y)
    ensures Resolve(FourDigits(y), today) == Year(y, FourDigits(y))
  {
    FourDigitsValue(y);
    assert IsDigit(FourDigits(y)[0]);
  }

  // Asking for the current month, the last one or the current year by name is
  // asking for it by its label.
  lemma NamedIsLabelled(today: Day)
    requires CheckedYear(today.y)
    ensures Resolve("month", today) == Resolve(IsoMonth(today), today)
    ensures Resolve("year", today).Period? && Resolve("year", today) == Resolve(FourDigits(today.y), today)
  {
    FourDigitsIsDecimal(today.y);
    MonthLabelRoundTrip(MonthStart(today), today);
    YearLabelRoundTrip(today.y, today);
  }

  lemma LastMonthIsLabelled(today: Day)
    requires PreviousMonth(today).Some? && CheckedYear(PreviousMonth(today).value.y)
    ensures Resolve("last_month", today) == Resolve(IsoMonth(PreviousMonth(today).value), today)
  {
    MonthLabelRoundTrip(PreviousMonth(today).value, today);
  }

  lemma LastYearIsLabelled(today: Day)
    requires CheckedYear(today.y - 1)
    ensures Resolve("last_year", today) == Resolve(FourDigits(today.y - 1), today)
  {
    LastYearMeetsYear(today);
    FourDigitsIsDecimal(today.y - 1);
    YearLabelRoundTrip(today.y - 1, today);
  }

  lemma FourDigitsIsDecimal(n: nat)
    requires 1000 <= n < 10000
    ensures FourDigits(n) == Decimal(n)
  {
    assert n / 10 / 10 == n / 100 && n / 100 / 10 == n / 1000 && n % 100 / 10 == n / 10 % 10;
    assert Decimal(n / 100) == [Digit(n / 1000)] + [Digit(n / 100 % 10)];
  }

  // The label of a day or of a week tells the day.
  lemma IsoReadsBack(t: Day)
    ensures var s := Iso(t);
            && |s| == 10 && s[4] == s[7] == '-'
            && AllDigits(s[..4]) && AllDigits(s[5..7]) && AllDigits(s[8..])
            && Value(s[..4]) == t.y && Value(s[5..7]) == t.m && Value(s[8..]) == t.d
  {
    var s := Iso(t);
    FourDigitsValue(t.y);
    TwoDigitsValue(t.m);
    TwoDigitsValue(t.d);
    assert s[..4] == FourDigits(t.y) && s[5..7] == TwoDigits(t.m) && s[8..] == TwoDigits(t.d);
  }

  lemma LabelsTellTheDay(today: Day)
    ensures Resolve("today", today).Period? ==> Resolve("today", today).since == today
                                                && Resolve("today", today).named == Iso(today)
    ensures Resolve("week", today).Period? ==>
      Resolve("week", today).named == "week of " + Iso(Resolve("week", today).since)
    ensures Resolve("last_week", today).Period? ==>
      Resolve("last_week", today).named == "week of " + Iso(Resolve("last_week", today).since)
  {
  }

  // A period is refused exactly when it is none of the names, no year and no
  // month from 1970 to 2100.
  ghost predicate AsksYear(period: string) { exists y :: 1970 <= y <= 2100 && period == FourDigits(y) }

  ghost predicate AsksMonth(period: string) {
    exists y, m :: 1970 <= y <= 2100 && 1 <= m <= 12 && period == FourDigits(y) + "-" + TwoDigits(m)
  }

  lemma RefusedExactly(period: string, today: Day)
    ensures Resolve(period, today) == BadRequest <==>
            && period !in {"", "today", "week", "last_week", "month", "last_month", "year", "last_year"}
            && !AsksYear(period) && !AsksMonth(period)
  {
    if IsYear(period) {
      FourBack(period);
    } else if IsMonth(period) {
      FourBack(period[..4]);
      TwoBack(period[5..]);
      assert period == period[..4] + "-" + period[5..];
    }
    if y :| 1970 <= y <= 2100 && period == FourDigits(y) {
      FourDigitsValue(y);
    }
    if y, m :| 1970 <= y <= 2100 && 1 <= m <= 12 && period == FourDigits(y) + "-" + TwoDigits(m) {
      MonthText(y, m, period);
    }
  }

  lemma MonthText(y: nat, m: nat, p: string)
    requires y < 10000 && m < 100 && p == FourDigits(y) + "-" + TwoDigits(m)
    ensures IsMonth(p) && Value(p[..4]) == y && Value(p[5..]) == m
  {
    FourDigitsValue(y);
    TwoDigitsValue(m);
    assert p[..4] == FourDigits(y) && p[5..] == TwoDigits(m);
  }

  // Four digits are those of their number, and so are two.
  lemma FourBack(s: string)
    requires AllDigits(s) && |s| == 4
    ensures Value(s) < 10000 && FourDigits(Value(s)) == s
  {
    var high, low := s[..2], s[2..];
    TwoBack(high);
    TwoBack(low);
    FourValue(s);
    Halves(Value(high), Value(low));
    assert s == high + low;
  }

  lemma FourValue(s: string)
    requires AllDigits(s) && |s| == 4
    ensures Value(s) == Value(s[..2]) * 100 + Value(s[2..])
  {
    assert s[..3][..2] == s[..2] && s[2..][..1] == [s[2]] && [s[2]][..0] == "";
    assert Value(s[2..]) == Value([s[2]]) * 10 + (s[3] as int - '0' as int);
    assert Value(s[..3]) == Value(s[..2]) * 10 + (s[2] as int - '0' as int);
  }

  lemma Halves(high: nat, low: nat)
    requires high < 100 && low < 100
    ensures FourDigits(high * 100 + low) == TwoDigits(high) + TwoDigits(low)
  {
  }

  lemma TwoBack(s: string)
    requires AllDigits(s) && |s| == 2
    ensures Value(s) < 100 && TwoDigits(Value(s)) == s
  {
    assert s[..1][..0] == "" && Value(s[..1]) == s[0] as int - '0' as int;
  }

  // The twelve months of a year tile the year.
  lemma MonthsTileTheYear(y: int, m: int, today: Day)
    requires CheckedYear(y) && 1 <= m <= 12
    ensures var year, month := Resolve(FourDigits(y), today), Resolve(IsoMonth(Date(y, m, 1)), today);
            && year.Period? && month.Period?
            && (m == 1 ==> month.since == year.since)
            && (m < 12 ==> month.until == Date(y, m + 1, 1))
            && (m < 12 ==> Resolve(IsoMonth(Date(y, m + 1, 1)), today).Period?
                           && Resolve(IsoMonth(Date(y, m + 1, 1)), today).since == month.until)
            && (m == 12 ==> month.until == year.until)
  {
    YearLabelRoundTrip(y, today);
    MonthLabelRoundTrip(Date(y, m, 1), today);
    MonthIs(Date(y, m, 1), IsoMonth(Date(y, m, 1)));
    if m < 12 {
      MonthLabelRoundTrip(Date(y, m + 1, 1), today);
      MonthIs(Date(y, m + 1, 1), IsoMonth(Date(y, m + 1, 1)));
    }
  }

  // When the arithmetic itself fails: only in the first and last years there are.
  lemma RaisedOnlyAtTheEnds(period: string, today: Day)
    requires Resolve(period, today) == Raised
    ensures today.y == 1 || today.y == 9999
  {
    if period == "" || period == "last_month" {
      PreviousMonthIs(today);
      if PreviousMonth(today).Some? {
        NextMonthIs(PreviousMonth(today).value);
      }
    } else if period == "month" {
      NextMonthIs(MonthStart(today));
    } else if period == "today" {
      AddDaysInCalendar(today, 1);
      EndsOfCalendar(today);
    } else if period == "week" {
      WeekRaised(today, Weekday(today));
    } else if period == "last_week" {
      WeekRaised(today, Weekday(today) + 7);
    } else if period != "year" && period != "last_year" && !IsYear(period) {
      NextMonthIs(Date(Value(period[..4]), Value(period[5..]), 1));
    }
  }

  lemma WeekRaised(today: Day, days: nat)
    requires WeekBack(today, days) == Raised && days <= 13
    ensures today.y == 1 || today.y == 9999
  {
    match AddDays(today, 0 - days)
    case Some(first) => NoWeekFrom(today, 0 - days, first);
    case None => OutOfCalendar(today, 0 - days);
  }

  lemma OutOfCalendar(t: Day, n: int)
    requires AddDays(t, n).None? && -14 < n <= 0
    ensures t.y == 1
  {
    AddDaysInCalendar(t, n);
    AtMostLast(t);
    EndsOfCalendar(t);
  }

  lemma AtMostLast(t: Day)
    ensures Ordinal(t) <= Ordinal(LAST)
  {
    WithinYear(t);
    YearsGrow(t.y, 9999);
    MonthsOfYear(9999);
  }

  lemma NoWeekFrom(today: Day, n: int, first: Day)
    requires AddDays(today, n) == Some(first) && AddDays(first, 7).None? && -14 < n <= 0
    ensures today.y == 9999
  {
    AddDaysOrdinal(today, n);
    AddDaysInCalendar(first, 7);
    WithinYear(first);
    YearsGrow(1, first.y);
    EndsOfCalendar(today);
  }
}
