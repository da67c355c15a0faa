/** Optional values: a date that failed to parse, or a category label that is
    missing, arrives as None. */
module Options {
  datatype Option<+T> = None | Some(value: T)
}

/** Calendar arithmetic on day numbers. A date is the number of days since
    2028-01-01 (day 0), so 2027 dates are negative and 2028-12-31 is day 365. */
module Dates {
  import opened Options

  type Day = int

  /** The fixed annual analysis window [2028-01-01, 2028-12-31]. */
  const AnalysisStart: Day := 0
  const AnalysisEnd: Day := 365
  /** 2099-12-31, the open end used for a facility's listed lifetime. */
  const FarFuture: Day := 26297

  function Max(a: int, b: int): int { if a >= b then a else b }
  function Min(a: int, b: int): int { if a <= b then a else b }

  /** Day of the week with Monday = 0 ... Sunday = 6; day 0 is a Saturday.
      Dafny's % is Euclidean, so negative (2027) days are handled too. */
  function Weekday(d: Day): (w: int)
    ensures 0 <= w < 7
  {
    (d + 5) % 7
  }

  /** Friday, Saturday and Sunday count for weekend-only figures. */
  predicate IsWeekendDay(d: Day) {
    Weekday(d) in {4, 5, 6}
  }

  lemma WeekdayOfKnownDates()
    ensures Weekday(0) == 5       // 2028-01-01 is a Saturday
    ensures Weekday(-2) == 3      // 2027-12-30 is a Thursday
    ensures Weekday(152) == 3     // 2028-06-01 is a Thursday
  {
  }

  /** Number of weekend days d with lo <= d < hi (0 for an empty range). */
  function WeekendDaysBetween(lo: Day, hi: Day): (n: int)
    decreases hi - lo
    ensures 0 <= n <= Max(hi - lo, 0)
  {
    if hi <= lo then 0
    else WeekendDaysBetween(lo, hi - 1) + (if IsWeekendDay(hi - 1) then 1 else 0)
  }

  /** The day-by-day counter of the source: walk from `lo` up to (but not
      including) `hi` and count Fridays, Saturdays and Sundays. The inclusive
      loop `while current <= end` is this loop with hi = end + 1. */
  method CountWeekendDays(lo: Day, hi: Day) returns (count: int)
    ensures count == WeekendDaysBetween(lo, hi)
  {
    count := 0;
    var current := lo;
    while current < hi
      invariant lo <= current
      invariant current <= hi || current == lo
      invariant count == WeekendDaysBetween(lo, current)
      decreases hi - current
    {
      if Weekday(current) in {4, 5, 6} {
        count := count + 1;
      }
      current := current + 1;
    }
  }

  /** Every run of seven consecutive days holds exactly three weekend days. */
  lemma {:induction false} WeekendDaysPerWeek(lo: Day)
    ensures WeekendDaysBetween(lo, lo + 7) == 3
  {
    WeekdayStep(lo);
    WeekdayStep(lo + 1);
    WeekdayStep(lo + 2);
    WeekdayStep(lo + 3);
    WeekdayStep(lo + 4);
    WeekdayStep(lo + 5);
    WeekendDaysUnfold(lo, lo + 7);
    WeekendDaysUnfold(lo, lo + 6);
    WeekendDaysUnfold(lo, lo + 5);
    WeekendDaysUnfold(lo, lo + 4);
    WeekendDaysUnfold(lo, lo + 3);
    WeekendDaysUnfold(lo, lo + 2);
    WeekendDaysUnfold(lo, lo + 1);
    assert WeekendDaysBetween(lo, lo) == 0;
  }

  /** The weekday advances by one, modulo seven, from one day to the next. */
  lemma WeekdayStep(d: Day)
    ensures Weekday(d + 1) == if Weekday(d) == 6 then 0 else Weekday(d) + 1
  {
  }

  lemma WeekendDaysUnfold(lo: Day, hi: Day)
    requires lo < hi
    ensures WeekendDaysBetween(lo, hi) == WeekendDaysBetween(lo, hi - 1) + (if IsWeekendDay(hi - 1) then 1 else 0)
  {
  }

  // ---------------------------------------------------------------------
  // Months of 2028

  predicate IsLeapYear(y: int) {
    (y % 4 == 0 && y % 100 != 0) || y % 400 == 0
  }

  /** Days in month m of year y (Python's calendar.monthrange(y, m)[1]). */
  function DaysInMonth(y: int, m: int): (n: int)
    requires 1 <= m <= 12
    ensures 28 <= n <= 31
  {
    if m == 2 then (if IsLeapYear(y) then 29 else 28)
    else if m in {4, 6, 9, 11} then 30
    else 31
  }

  /** Day number of the first day of month m of 2028. */
  function MonthStart(m: int): (d: Day)
    requires 1 <= m <= 12
    ensures 0 <= d <= 31 * (m - 1)
  {
    if m == 1 then 0 else MonthStart(m - 1) + DaysInMonth(2028, m - 1)
  }

  /** Day number of the last day of month m of 2028. */
  function MonthEnd(m: int): (d: Day)
    requires 1 <= m <= 12
    ensures MonthStart(m) + 27 <= d <= MonthStart(m) + 30
  {
    MonthStart(m) + DaysInMonth(2028, m) - 1
  }

  /** The twelve month windows of 2028 tile the analysis window. */
  lemma MonthsTileYear(m: int)
    requires 1 <= m <= 12
    ensures AnalysisStart <= MonthStart(m) <= MonthEnd(m) <= AnalysisEnd
    ensures m == 1 ==> MonthStart(m) == AnalysisStart
    ensures m == 12 ==> MonthEnd(m) == AnalysisEnd
    ensures m < 12 ==> MonthStart(m + 1) == MonthEnd(m) + 1
  {
  }

  lemma JuneWindow()
    ensures MonthStart(6) == 152 && MonthEnd(6) == 181
    ensures DaysInMonth(2028, 2) == 29
  {
  }

  // ---------------------------------------------------------------------
  // The two overlap conventions

  /** Nights of a stay [checkin, checkout) inside the window [start, end]:
      the window is inclusive and the checkout exclusive, which the source
      expresses through end + 1 day. A missing date gives 0. */
  function NightsInOverlap(checkin: Option<Day>, checkout: Option<Day>, start: Day, end: Day): (n: int)
    ensures n >= 0
    ensures checkin.None? || checkout.None? ==> n == 0
    ensures checkin.Some? && checkout.Some? && checkin.value <= checkout.value ==>
              n <= checkout.value - checkin.value
    ensures n <= Max(end + 1 - start, 0)
  {
    if checkin.None? || checkout.None? then 0
    else
      var tripStart := Max(checkin.value, start);
      var tripEnd := Min(checkout.value, end + 1);
      Max(tripEnd - tripStart, 0)
  }

  /** Length of a whole stay, checkout exclusive; a missing date gives 0. */
  function TotalTripNights(checkin: Option<Day>, checkout: Option<Day>): (n: int)
    ensures checkin.None? || checkout.None? ==> n == 0
    ensures checkin.Some? && checkout.Some? ==> n + checkin.value == checkout.value
  {
    if checkin.None? || checkout.None? then 0
    else checkout.value - checkin.value
  }

  /** Days shared by two ranges that are inclusive at both ends. */
  function DaysInOverlap(start: Day, end: Day, windowStart: Day, windowEnd: Day): (n: int)
    ensures n >= 0
    ensures n <= Max(windowEnd - windowStart + 1, 0)
    ensures n <= Max(end - start + 1, 0)
    ensures n > 0 <==> Max(start, windowStart) <= Min(end, windowEnd)
  {
    var actualStart := Max(start, windowStart);
    var actualEnd := Min(end, windowEnd);
    Max(actualEnd - actualStart + 1, 0)
  }

  /** The inclusive overlap does not depend on which range is the window. */
  lemma DaysInOverlapSymmetric(s1: Day, e1: Day, s2: Day, e2: Day)
    ensures DaysInOverlap(s1, e1, s2, e2) == DaysInOverlap(s2, e2, s1, e1)
  {
  }

  /** A facility is live for at most 366 days of leap year 2028, and for
      every day from its go-live date on when it went live inside 2028. */
  lemma DaysLiveBound(wentLive: Day)
    ensures 0 <= DaysInOverlap(wentLive, FarFuture, AnalysisStart, AnalysisEnd) <= 366
    ensures wentLive <= AnalysisStart ==> DaysInOverlap(wentLive, FarFuture, AnalysisStart, AnalysisEnd) == 366
    ensures AnalysisStart <= wentLive <= AnalysisEnd ==>
              DaysInOverlap(wentLive, FarFuture, AnalysisStart, AnalysisEnd) == AnalysisEnd - wentLive + 1
    ensures wentLive > AnalysisEnd ==> DaysInOverlap(wentLive, FarFuture, AnalysisStart, AnalysisEnd) == 0
  {
  }

  /** The two conventions agree once the stay is written with its last
      night (checkout - 1) as an inclusive end, which is how the expansion
      analysis calls the inclusive helper. */
  lemma ConventionsAgree(checkin: Day, checkout: Day, start: Day, end: Day)
    ensures NightsInOverlap(Some(checkin), Some(checkout), start, end)
         == DaysInOverlap(checkin, checkout - 1, start, end)
  {
  }
}
