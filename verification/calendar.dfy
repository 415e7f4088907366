/** Proleptic Gregorian dates and wall-clock times as Python's `datetime.date`
    and `datetime.time` hold them, with the day arithmetic the monthly report
    uses. */
module Calendar {
  import opened Base

  datatype Date = Date(year: int, month: int, day: int)

  /** An hour and a minute; `ClockTime` below holds the ones a clock shows. */
  datatype Time = Time(hour: int, minute: int)

  /** The first day of a calendar month through the last day of that month. */
  datatype Range = Range(first: Date, last: Date)

  const MinYear := 1
  const MaxYear := 9999

  predicate IsLeapYear(y: int) {
    y % 4 == 0 && (y % 100 != 0 || y % 400 == 0)
  }

  function DaysInMonth(y: int, m: int): (n: int)
    requires 1 <= m <= 12
    ensures 28 <= n <= 31
    ensures m == 2 ==> (n == 29 <==> IsLeapYear(y))
    ensures m != 2 ==> 30 <= n && (n == 30 <==> m == 4 || m == 6 || m == 9 || m == 11)
  {
    if m == 2 then (if IsLeapYear(y) then 29 else 28)
    else if m == 4 || m == 6 || m == 9 || m == 11 then 30
    else 31
  }

  predicate ValidDate(d: Date) {
    && MinYear <= d.year <= MaxYear
    && 1 <= d.month <= 12
    && 1 <= d.day <= DaysInMonth(d.year, d.month)
  }

  /** The dates `strptime(..., '%Y-%m-%d')` can produce: the only dates the
      tables ever hold. */
  type CalendarDate = d: Date | ValidDate(d) witness Date(MinYear, 1, 1)

  predicate ValidTime(t: Time) {
    0 <= t.hour < 24 && 0 <= t.minute < 60
  }

  /** The times `strptime(..., '%H:%M')` can produce (seconds are 0): the only
      times the tables ever hold. */
  type ClockTime = t: Time | ValidTime(t) witness Time(0, 0)

  /** Python's `date <= date`: year, then month, then day. */
  predicate DateLeq(a: Date, b: Date) {
    a.year < b.year || (a.year == b.year && (a.month < b.month || (a.month == b.month && a.day <= b.day)))
  }

  /** A number that orders valid dates as `DateLeq` does (used as a sort key). */
  function Ordinal(d: Date): int {
    d.year * 416 + d.month * 32 + d.day
  }

  lemma OrdinalOrdersDates(a: Date, b: Date)
    requires ValidDate(a) && ValidDate(b)
    ensures DateLeq(a, b) <==> Ordinal(a) <= Ordinal(b)
  {
    if a.year < b.year {
      assert Ordinal(a) <= a.year * 416 + 12 * 32 + 31 < (a.year + 1) * 416 + 32 <= Ordinal(b);
    } else if a.year > b.year {
      assert Ordinal(b) <= b.year * 416 + 12 * 32 + 31 < (b.year + 1) * 416 + 32 <= Ordinal(a);
    }
  }

  /** `date.replace(day=1)`. */
  function FirstOfMonth(d: Date): (r: Date)
    requires ValidDate(d)
    ensures ValidDate(r) && r.day == 1
    ensures r.year == d.year && r.month == d.month
  {
    d.(day := 1)
  }

  /** `d - timedelta(days=1)`; None where Python raises OverflowError (the day
      before 0001-01-01). */
  function PrevDay(d: Date): (r: Option<Date>)
    requires ValidDate(d)
    ensures r.None? <==> d == Date(MinYear, 1, 1)
    ensures r.Some? ==> ValidDate(r.value) && DateLeq(r.value, d) && r.value != d
    ensures r.Some? ==> forall e :: ValidDate(e) && DateLeq(e, d) && e != d ==> DateLeq(e, r.value)
  {
    if d.day > 1 then Some(d.(day := d.day - 1))
    else if d.month > 1 then Some(Date(d.year, d.month - 1, DaysInMonth(d.year, d.month - 1)))
    else if d.year > MinYear then Some(Date(d.year - 1, 12, 31))
    else None
  }

  /** `d + timedelta(days=1)`; None past 9999-12-31. */
  function NextDay(d: Date): (r: Option<Date>)
    requires ValidDate(d)
    ensures r.None? <==> d == Date(MaxYear, 12, 31)
    ensures r.Some? ==> ValidDate(r.value) && DateLeq(d, r.value) && r.value != d
    ensures r.Some? ==> forall e :: ValidDate(e) && DateLeq(d, e) && e != d ==> DateLeq(r.value, e)
  {
    if d.day < DaysInMonth(d.year, d.month) then Some(d.(day := d.day + 1))
    else if d.month < 12 then Some(Date(d.year, d.month + 1, 1))
    else if d.year < MaxYear then Some(Date(d.year + 1, 1, 1))
    else None
  }

  /** Stepping back one day and forward one day are inverse. */
  lemma PrevNextInverse(d: Date)
    requires ValidDate(d)
    ensures PrevDay(d).Some? ==> NextDay(PrevDay(d).value) == Some(d)
    ensures NextDay(d).Some? ==> PrevDay(NextDay(d).value) == Some(d)
  {
  }

  /** Month and year of the calendar month before the month of `d`. */
  function PrevMonthOf(d: Date): (ym: (int, int))
    requires ValidDate(d)
    ensures 1 <= ym.1 <= 12
  {
    if d.month == 1 then (d.year - 1, 12) else (d.year, d.month - 1)
  }

  /** The reporting window of the monthly job: `first_day_this_month =
      today.replace(day=1)`, `last_day_last_month = first_day_this_month -
      timedelta(days=1)`, `first_day_last_month = last_day_last_month.replace(day=1)`.
      None in January of year 1, where the subtraction overflows. */
  function ReportRange(today: Date): (r: Option<Range>)
    requires ValidDate(today)
    ensures r.None? <==> (today.year == MinYear && today.month == 1)
    ensures r.Some? ==>
              var (py, pm) := PrevMonthOf(today);
              && r.value.first == Date(py, pm, 1)
              && r.value.last == Date(py, pm, DaysInMonth(py, pm))
              && ValidDate(r.value.first) && ValidDate(r.value.last)
  {
    match PrevDay(FirstOfMonth(today))
    case None => None
    case Some(last) => Some(Range(FirstOfMonth(last), last))
  }

  /** The window holds exactly the valid dates of the previous calendar month,
      so the January report covers December of the year before. */
  lemma ReportRangeIsPreviousMonth(today: Date, d: Date)
    requires ValidDate(today) && ValidDate(d)
    requires ReportRange(today).Some?
    ensures var w := ReportRange(today).value;
            DateLeq(w.first, d) && DateLeq(d, w.last)
            <==> (d.year, d.month) == PrevMonthOf(today)
  {
  }
}
