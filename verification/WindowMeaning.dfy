/** What each period means (`nlu/time.py`), said without bounds: dates are numbered by week, month, quarter or year. */
module WindowMeaning {
  import opened Wrappers
  import opened Calendar
  import opened TimeWindows

  /** How many whole weeks, Mondays first, lie between the first Monday of year 1 and the date. */
  function WeekNumber(d: Date): int
    requires OnCalendar(d)
  {
    (Ordinal(d) - 1) / 7
  }

  /** Quarters from the start of year 0. */
  function QuarterNumber(d: Date): int {
    4 * d.year + (d.month - 1) / 3
  }

  /** The number of the day, week, month, quarter or year a period counts in. */
  function Number(period: Period, d: Date): int
    requires OnCalendar(d)
  {
    match period
    case Today => Ordinal(d)
    case Yesterday => Ordinal(d)
    case ThisWeek => WeekNumber(d)
    case LastWeek => WeekNumber(d)
    case ThisMonth => 12 * d.year + d.month
    case LastMonth => 12 * d.year + d.month
    case ThisQuarter => QuarterNumber(d)
    case LastQuarter => QuarterNumber(d)
    case ThisYear => d.year
    case LastYear => d.year
  }

  /** How far back the period looks. */
  function Back(period: Period): int {
    if period in {Yesterday, LastWeek, LastMonth, LastQuarter, LastYear} then 1 else 0
  }

  /** The window holds exactly the dates of its own number: today's, or the one before it. */
  ghost predicate Means(period: Period, today: Date, w: Window)
    requires OnCalendar(today)
  {
    && WellFormed(w)
    && forall d :: Valid(d) ==> (Contains(w, d) <==> Number(period, d) == Number(period, today) - Back(period))
  }

  lemma WeekSpan(o: int, p: int)
    ensures o - (o + 6) % 7 <= p <= o - (o + 6) % 7 + 6 <==> (p - 1) / 7 == (o - 1) / 7
  {
    assert (o + 6) % 7 == (o - 1) - 7 * ((o - 1) / 7);
  }

  lemma SameWeekIff(a: Date, d: Date)
    requires OnCalendar(a) && OnCalendar(d)
    ensures Ordinal(a) - Weekday(a) <= Ordinal(d) <= Ordinal(a) - Weekday(a) + 6 <==> WeekNumber(d) == WeekNumber(a)
  {
    hide Ordinal;
    WeekSpan(Ordinal(a), Ordinal(d));
  }

  lemma WeekMeans(today: Date)
    requires Valid(today) && WeekBounds(today).Some?
    ensures Means(ThisWeek, today, WeekBounds(today).value)
  {
    WeekIs(today);
    hide Ordinal, WeekBounds, Weekday, WeekNumber;
    var w := WeekBounds(today).value;
    forall d | Valid(d)
      ensures Contains(w, d) <==> WeekNumber(d) == WeekNumber(today)
    {
      SameWeekIff(today, d);
    }
  }

  lemma LastWeekMeans(today: Date)
    requires Valid(today) && BoundsFor(LastWeek, today).Some?
    ensures Means(LastWeek, today, BoundsFor(LastWeek, today).value)
  {
    AddDaysIs(today, -7);
    var d := AddDays(today, -7).value;
    WeekMeans(d);
    hide Ordinal, WeekBounds, FromOrdinal;
    WeekBefore(Ordinal(d));
  }

  lemma WeekBefore(o: int)
    ensures (o + 7 - 1) / 7 == (o - 1) / 7 + 1
  {
  }

  lemma MonthMeans(year: int, month: int, today: Date, period: Period)
    requires 1 <= month <= 12 && MIN_YEAR <= year <= MAX_YEAR && OnCalendar(today)
    requires period == ThisMonth || period == LastMonth
    requires 12 * year + month == 12 * today.year + today.month - Back(period)
    ensures MonthBounds(year, month).Some? && Means(period, today, MonthBounds(year, month).value)
  {
    MonthIs(year, month);
    hide Ordinal, MonthBounds;
  }

  lemma QuarterNumberIff(d: Date, year: int, quarter: int)
    requires OnCalendar(d) && 1 <= quarter <= 4
    ensures d.year == year && QuarterOf(d.month) == quarter <==> QuarterNumber(d) == 4 * year + quarter - 1
  {
    QuarterRange(d.month);
  }

  lemma QuarterMeans(year: int, quarter: int, today: Date, period: Period)
    requires 1 <= quarter <= 4 && MIN_YEAR <= year <= MAX_YEAR && OnCalendar(today)
    requires period == ThisQuarter || period == LastQuarter
    requires 4 * year + quarter - 1 == QuarterNumber(today) - Back(period)
    ensures QuarterBounds(year, quarter).Some? && Means(period, today, QuarterBounds(year, quarter).value)
  {
    QuarterIs(year, quarter);
    hide Ordinal, QuarterBounds, QuarterOf, QuarterNumber, Back, WeekNumber, Contains, WellFormed;
    var w := QuarterBounds(year, quarter).value;
    forall d | Valid(d)
      ensures Contains(w, d) <==> Number(period, d) == Number(period, today) - Back(period)
    {
      QuarterNumberIff(d, year, quarter);
    }
  }

  lemma DayMeans(period: Period, today: Date)
    requires Valid(today) && (period == Today || period == Yesterday) && BoundsFor(period, today).Some?
    ensures Means(period, today, BoundsFor(period, today).value)
  {
    if period == Yesterday {
      AddDaysIs(today, -1);
    }
    hide Ordinal, FromOrdinal, AddDays;
  }

  lemma ThisMonthMeans(today: Date)
    requires Valid(today)
    ensures BoundsFor(ThisMonth, today).Some? && Means(ThisMonth, today, BoundsFor(ThisMonth, today).value)
  {
    hide Means, MonthBounds;
    MonthMeans(today.year, today.month, today, ThisMonth);
  }

  lemma LastMonthMeans(today: Date)
    requires Valid(today) && BoundsFor(LastMonth, today).Some?
    ensures Means(LastMonth, today, BoundsFor(LastMonth, today).value)
  {
    MonthDefined(today);
    var year := if today.month == 1 then today.year - 1 else today.year;
    var month := if today.month == 1 then 12 else today.month - 1;
    assert BoundsFor(LastMonth, today) == MonthBounds(year, month);
    hide Means, MonthBounds, BoundsFor;
    MonthMeans(year, month, today, LastMonth);
  }

  lemma ThisQuarterMeans(today: Date)
    requires Valid(today)
    ensures BoundsFor(ThisQuarter, today).Some? && Means(ThisQuarter, today, BoundsFor(ThisQuarter, today).value)
  {
    hide Means, QuarterBounds;
    QuarterRange(today.month);
    QuarterMeans(today.year, QuarterOf(today.month), today, ThisQuarter);
  }

  lemma LastQuarterMeans(today: Date)
    requires Valid(today) && BoundsFor(LastQuarter, today).Some?
    ensures Means(LastQuarter, today, BoundsFor(LastQuarter, today).value)
  {
    QuarterDefined(today);
    QuarterRange(today.month);
    var first := QuarterOf(today.month) == 1;
    var year := if first then today.year - 1 else today.year;
    var quarter := if first then 4 else QuarterOf(today.month) - 1;
    assert BoundsFor(LastQuarter, today) == QuarterBounds(year, quarter);
    hide Means, QuarterBounds, BoundsFor;
    QuarterMeans(year, quarter, today, LastQuarter);
  }

  lemma YearsMean(period: Period, today: Date)
    requires Valid(today) && (period == ThisYear || period == LastYear) && BoundsFor(period, today).Some?
    ensures Means(period, today, BoundsFor(period, today).value)
  {
    YearDefined(today);
    hide Ordinal;
    YearIs(if period == ThisYear then today.year else today.year - 1);
  }

  /** Every window that exists means what its period says. */
  lemma WindowMeansItsPeriod(period: Period, today: Date)
    requires Valid(today) && BoundsFor(period, today).Some?
    ensures Means(period, today, BoundsFor(period, today).value)
  {
    var w := BoundsFor(period, today).value;
    assert period == ThisWeek ==> BoundsFor(period, today) == WeekBounds(today);
    hide BoundsFor, Means, Valid, WeekBounds;
    match period
    case Today => DayMeans(period, today);
    case Yesterday => DayMeans(period, today);
    case ThisWeek => WeekMeans(today);
    case LastWeek => LastWeekMeans(today);
    case ThisMonth => ThisMonthMeans(today);
    case LastMonth => LastMonthMeans(today);
    case ThisQuarter => ThisQuarterMeans(today);
    case LastQuarter => LastQuarterMeans(today);
    case ThisYear => YearsMean(period, today);
    case LastYear => YearsMean(period, today);
  }

  /** Hence a window is the one that every date in it would be given for the current period of its kind. */
  lemma LastIsThisOfItsDates(period: Period, today: Date, d: Date)
    requires Valid(today) && Valid(d) && Current(period)
    requires BoundsFor(Previous(period), today).Some? && BoundsFor(period, d).Some?
    requires WellFormed(BoundsFor(Previous(period), today).value)
    requires Contains(BoundsFor(Previous(period), today).value, d)
    ensures BoundsFor(Previous(period), today) == BoundsFor(period, d)
  {
    WindowMeansItsPeriod(Previous(period), today);
    WindowMeansItsPeriod(period, d);
    hide BoundsFor;
    SameNumberSameWindow(period, today, d, BoundsFor(Previous(period), today).value, BoundsFor(period, d).value);
  }

  lemma SameNumberSameWindow(period: Period, today: Date, d: Date, w: Window, v: Window)
    requires Valid(today) && Valid(d) && Current(period)
    requires Means(Previous(period), today, w) && Means(period, d, v) && Contains(w, d)
    ensures w == v
  {
    hide Ordinal, Contains, WellFormed;
    assert forall e :: Valid(e) ==> Number(Previous(period), e) == Number(period, e);
    hide Number;
    SameDatesSameWindow(w, v);
  }

  lemma SameDatesSameWindow(w: Window, v: Window)
    requires WellFormed(w) && WellFormed(v)
    requires forall e :: Valid(e) ==> (Contains(w, e) <==> Contains(v, e))
    ensures w == v
  {
    hide Ordinal;
    assert Contains(w, w.start) && Contains(w, w.end) && Contains(v, v.start) && Contains(v, v.end);
    OrdinalIsMonotone(w.start, v.start);
    OrdinalIsMonotone(w.end, v.end);
  }

  /** The lengths of the months, February taking what the year leaves it. */
  lemma MonthLengths(year: int, month: int)
    requires 1 <= month <= 12
    ensures DaysInMonth(year, month) ==
            if month == 2 then DaysInYear(year) - 337
            else [31, 28, 31, 30, 31, 30, 31, 31, 30, 31, 30, 31][month - 1]
    ensures DaysInYear(year) in {365, 366}
  {
  }

  lemma KnownLeapYears()
    ensures DaysInYear(1900) == 365 && DaysInYear(2000) == 366 && DaysInYear(2023) == 365 && DaysInYear(2024) == 366
  {
  }
}
