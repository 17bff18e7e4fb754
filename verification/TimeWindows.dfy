/** Calendar-relative time windows (`nlu/time.py`): their bounds, what they cover, and when they are not dates. */
module TimeWindows {
  import opened Wrappers
  import opened Calendar

  datatype Period =
    | Today
    | Yesterday
    | ThisWeek
    | LastWeek
    | ThisMonth
    | LastMonth
    | ThisQuarter
    | LastQuarter
    | ThisYear
    | LastYear

  datatype Window = Window(start: Date, end: Date)

  /** `date(year, month, day)`; None is Python's ValueError. */
  function MakeDate(year: int, month: int, day: int): Option<Date> {
    if Valid(Date(year, month, day)) then Some(Date(year, month, day)) else None
  }

  function MakeWindow(start: Option<Date>, end: Option<Date>): Option<Window> {
    if start.Some? && end.Some? then Some(Window(start.value, end.value)) else None
  }

  function WeekBounds(reference: Date): Option<Window>
    requires OnCalendar(reference)
  {
    match AddDays(reference, -Weekday(reference))
    case None => None
    case Some(start) => MakeWindow(Some(start), AddDays(start, 6))
  }

  function MonthBounds(year: int, month: int): Option<Window> {
    MakeWindow(MakeDate(year, month, 1), MakeDate(year, month, DaysInMonth(year, month)))
  }

  function QuarterOf(month: int): int {
    (month - 1) / 3 + 1
  }

  function QuarterBounds(year: int, quarter: int): Option<Window> {
    var startMonth := (quarter - 1) * 3 + 1;
    match MonthBounds(year, startMonth + 2)
    case None => None
    case Some(lastMonth) => MakeWindow(MakeDate(year, startMonth, 1), Some(lastMonth.end))
  }

  function BoundsFor(period: Period, today: Date): Option<Window>
    requires Valid(today)
  {
    match period
    case Today => Some(Window(today, today))
    case Yesterday => MakeWindow(AddDays(today, -1), AddDays(today, -1))
    case ThisWeek => WeekBounds(today)
    case LastWeek =>
      (match AddDays(today, -7)
       case None => None
       case Some(d) => WeekBounds(d))
    case ThisMonth => MonthBounds(today.year, today.month)
    case LastMonth =>
      if today.month == 1 then MonthBounds(today.year - 1, 12) else MonthBounds(today.year, today.month - 1)
    case ThisQuarter => QuarterBounds(today.year, QuarterOf(today.month))
    case LastQuarter =>
      var quarter := QuarterOf(today.month) - 1;
      if quarter == 0 then QuarterBounds(today.year - 1, 4) else QuarterBounds(today.year, quarter)
    case ThisYear => MakeWindow(MakeDate(today.year, 1, 1), MakeDate(today.year, 12, 31))
    case LastYear => MakeWindow(MakeDate(today.year - 1, 1, 1), MakeDate(today.year - 1, 12, 31))
  }

  // ----- what the windows cover

  predicate WellFormed(w: Window) {
    Valid(w.start) && Valid(w.end) && Ordinal(w.start) <= Ordinal(w.end)
  }

  predicate Contains(w: Window, d: Date)
    requires WellFormed(w) && Valid(d)
  {
    Ordinal(w.start) <= Ordinal(d) <= Ordinal(w.end)
  }

  /** `a` ends exactly the day before `b` starts. */
  predicate Adjacent(a: Window, b: Window)
    requires WellFormed(a) && WellFormed(b)
  {
    Ordinal(a.end) + 1 == Ordinal(b.start)
  }

  /** Counting back to Monday, in ordinals. */
  lemma BackToMonday(o: int)
    requires o >= 1
    ensures o - (o + 6) % 7 >= 1
    ensures (o - (o + 6) % 7 + 6) % 7 == 0
  {
  }

  lemma WeekdayRange(d: Date)
    requires OnCalendar(d)
    ensures 0 <= Weekday(d) <= 6
    ensures Ordinal(d) >= 1 ==> Ordinal(d) - Weekday(d) >= 1
  {
    hide Ordinal;
  }

  lemma MondayOf(d: Date, monday: Date)
    requires OnCalendar(d) && OnCalendar(monday) && Ordinal(d) >= 1
    requires Ordinal(monday) == Ordinal(d) - Weekday(d)
    ensures Weekday(monday) == 0
  {
    hide Ordinal;
    BackToMonday(Ordinal(d));
  }

  /** The week of a date, given where its Monday and Sunday lie. */
  lemma WeekFrom(reference: Date, start: Date, end: Option<Date>)
    requires Valid(reference) && Valid(start)
    requires Ordinal(start) == Ordinal(reference) - Weekday(reference)
    requires end.Some? ==> Valid(end.value) && Ordinal(end.value) == Ordinal(start) + 6
    ensures Weekday(start) == 0
    ensures end.Some? ==> WellFormed(Window(start, end.value)) && Contains(Window(start, end.value), reference)
  {
    hide Ordinal, Weekday;
    ValidIffInRange(reference);
    WeekdayRange(reference);
    MondayOf(reference, start);
  }

  lemma WeekStarts(reference: Date)
    requires Valid(reference)
    ensures Ordinal(reference) - Weekday(reference) >= 1
    ensures AddDays(reference, -Weekday(reference)).Some?
  {
    hide Ordinal, Weekday, AddDays;
    ValidIffInRange(reference);
    WeekdayRange(reference);
    AddDaysIs(reference, -Weekday(reference));
  }

  lemma WeekIs(reference: Date)
    requires Valid(reference)
    ensures var monday := Ordinal(reference) - Weekday(reference);
            && (WeekBounds(reference).Some? <==> monday + 6 <= MAX_ORDINAL)
            && (WeekBounds(reference).Some? ==>
                  var w := WeekBounds(reference).value;
                  && WellFormed(w) && Contains(w, reference)
                  && Weekday(w.start) == 0
                  && Ordinal(w.start) == monday && Ordinal(w.end) == monday + 6)
  {
    hide Ordinal, FromOrdinal, Weekday;
    WeekStarts(reference);
    AddDaysIs(reference, -Weekday(reference));
    var start := AddDays(reference, -Weekday(reference)).value;
    AddDaysIs(start, 6);
    WeekFrom(reference, start, AddDays(start, 6));
  }

  lemma MonthIs(year: int, month: int)
    requires 1 <= month <= 12 && MIN_YEAR <= year <= MAX_YEAR
    ensures MonthBounds(year, month).Some?
    ensures var w := MonthBounds(year, month).value;
            && WellFormed(w)
            && forall d :: Valid(d) ==> (Contains(w, d) <==> d.year == year && d.month == month)
  {
    var w := MonthBounds(year, month).value;
    forall d | Valid(d)
      ensures Ordinal(w.start) <= Ordinal(d) <= Ordinal(w.end) <==> d.year == year && d.month == month
    {
      OrdinalIsMonotone(d, w.start);
      OrdinalIsMonotone(w.start, d);
      OrdinalIsMonotone(d, w.end);
      OrdinalIsMonotone(w.end, d);
    }
  }

  lemma QuarterIs(year: int, quarter: int)
    requires 1 <= quarter <= 4 && MIN_YEAR <= year <= MAX_YEAR
    ensures QuarterBounds(year, quarter).Some?
    ensures var w := QuarterBounds(year, quarter).value;
            && WellFormed(w)
            && w.start == Date(year, 3 * quarter - 2, 1)
            && w.end == Date(year, 3 * quarter, DaysInMonth(year, 3 * quarter))
            && forall d :: Valid(d) ==> (Contains(w, d) <==> d.year == year && QuarterOf(d.month) == quarter)
  {
    var w := QuarterBounds(year, quarter).value;
    OrdinalIsMonotone(w.start, w.end);
    forall d | Valid(d)
      ensures Ordinal(w.start) <= Ordinal(d) <= Ordinal(w.end) <==> d.year == year && QuarterOf(d.month) == quarter
    {
      OrdinalIsMonotone(d, w.start);
      OrdinalIsMonotone(w.start, d);
      OrdinalIsMonotone(d, w.end);
      OrdinalIsMonotone(w.end, d);
    }
  }

  lemma YearIs(year: int)
    requires MIN_YEAR <= year <= MAX_YEAR
    ensures var w := Window(Date(year, 1, 1), Date(year, 12, 31));
            && WellFormed(w) && MakeWindow(MakeDate(year, 1, 1), MakeDate(year, 12, 31)) == Some(w)
            && forall d :: Valid(d) ==> (Contains(w, d) <==> d.year == year)
  {
    var w := Window(Date(year, 1, 1), Date(year, 12, 31));
    OrdinalIsMonotone(w.start, w.end);
    forall d | Valid(d)
      ensures Ordinal(w.start) <= Ordinal(d) <= Ordinal(w.end) <==> d.year == year
    {
      OrdinalIsMonotone(d, w.start);
      OrdinalIsMonotone(w.start, d);
      OrdinalIsMonotone(d, w.end);
      OrdinalIsMonotone(w.end, d);
    }
  }

  /** Each period that runs, paired with the one before it. */
  function Previous(period: Period): Period {
    match period
    case Today => Yesterday
    case ThisWeek => LastWeek
    case ThisMonth => LastMonth
    case ThisQuarter => LastQuarter
    case ThisYear => LastYear
    case other => other
  }

  predicate Current(period: Period) {
    period in {Today, ThisWeek, ThisMonth, ThisQuarter, ThisYear}
  }

  /** The current window contains the reference date. */
  lemma CurrentWindowContainsToday(period: Period, today: Date)
    requires Valid(today) && Current(period) && BoundsFor(period, today).Some?
    ensures WellFormed(BoundsFor(period, today).value) && Contains(BoundsFor(period, today).value, today)
  {
    match period
    case Today =>
    case ThisWeek => WeekIs(today);
    case ThisMonth => MonthIs(today.year, today.month);
    case ThisQuarter => QuarterIs(today.year, QuarterOf(today.month));
    case ThisYear => YearIs(today.year);
  }

  lemma LastWeekIsAdjacent(today: Date)
    requires Valid(today) && BoundsFor(ThisWeek, today).Some? && BoundsFor(LastWeek, today).Some?
    ensures WellFormed(BoundsFor(ThisWeek, today).value) && WellFormed(BoundsFor(LastWeek, today).value)
    ensures Adjacent(BoundsFor(LastWeek, today).value, BoundsFor(ThisWeek, today).value)
  {
    hide Ordinal;
    AddDaysIs(today, -7);
    var d := AddDays(today, -7).value;
    WeekIs(today);
    WeekIs(d);
    SameWeekday(Ordinal(d));
  }

  lemma SameWeekday(o: int)
    ensures (o + 7 + 6) % 7 == (o + 6) % 7
  {
  }

  /** The last day of a month is followed by the first day of the next one. */
  lemma MonthEnds(year: int, month: int)
    requires 1 <= month <= 12
    ensures Ordinal(Date(year, month, DaysInMonth(year, month))) + 1 ==
            if month == 12 then Ordinal(Date(year + 1, 1, 1)) else Ordinal(Date(year, month + 1, 1))
  {
    if month == 12 {
      YearStep(year);
    } else {
      MonthStep(year, month);
    }
  }

  lemma LastMonthIsAdjacent(today: Date)
    requires Valid(today) && BoundsFor(LastMonth, today).Some?
    ensures WellFormed(BoundsFor(ThisMonth, today).value) && WellFormed(BoundsFor(LastMonth, today).value)
    ensures Adjacent(BoundsFor(LastMonth, today).value, BoundsFor(ThisMonth, today).value)
  {
    hide Ordinal;
    MonthIs(today.year, today.month);
    if today.month == 1 {
      MonthIs(today.year - 1, 12);
      MonthEnds(today.year - 1, 12);
    } else {
      MonthIs(today.year, today.month - 1);
      MonthEnds(today.year, today.month - 1);
    }
  }

  lemma LastQuarterIsAdjacent(today: Date)
    requires Valid(today) && BoundsFor(LastQuarter, today).Some?
    ensures WellFormed(BoundsFor(ThisQuarter, today).value) && WellFormed(BoundsFor(LastQuarter, today).value)
    ensures Adjacent(BoundsFor(LastQuarter, today).value, BoundsFor(ThisQuarter, today).value)
  {
    hide Ordinal;
    var quarter := QuarterOf(today.month) - 1;
    QuarterIs(today.year, quarter + 1);
    if quarter == 0 {
      QuarterIs(today.year - 1, 4);
      MonthEnds(today.year - 1, 12);
    } else {
      QuarterIs(today.year, quarter);
      MonthEnds(today.year, 3 * quarter);
    }
  }

  lemma LastYearIsAdjacent(today: Date)
    requires Valid(today) && BoundsFor(LastYear, today).Some?
    ensures WellFormed(BoundsFor(ThisYear, today).value) && WellFormed(BoundsFor(LastYear, today).value)
    ensures Adjacent(BoundsFor(LastYear, today).value, BoundsFor(ThisYear, today).value)
  {
    YearIs(today.year);
    YearIs(today.year - 1);
    YearStep(today.year - 1);
  }

  /** The previous window ends exactly the day before the current one starts, year boundaries included. */
  lemma PreviousWindowIsAdjacent(period: Period, today: Date)
    requires Valid(today) && Current(period)
    requires BoundsFor(period, today).Some? && BoundsFor(Previous(period), today).Some?
    ensures WellFormed(BoundsFor(period, today).value) && WellFormed(BoundsFor(Previous(period), today).value)
    ensures Adjacent(BoundsFor(Previous(period), today).value, BoundsFor(period, today).value)
  {
    match period
    case Today => AddDaysIs(today, -1);
    case ThisWeek => LastWeekIsAdjacent(today);
    case ThisMonth => LastMonthIsAdjacent(today);
    case ThisQuarter => LastQuarterIsAdjacent(today);
    case ThisYear => LastYearIsAdjacent(today);
  }

  /** The four quarters of a year are adjacent, start with its first day, end with its last, and miss no date of it. */
  lemma QuartersPartitionTheYear(year: int, d: Date)
    requires MIN_YEAR <= year <= MAX_YEAR && Valid(d)
    ensures forall q :: 1 <= q <= 4 ==> QuarterBounds(year, q).Some? && WellFormed(QuarterBounds(year, q).value)
    ensures QuarterBounds(year, 1).value.start == Date(year, 1, 1)
    ensures QuarterBounds(year, 4).value.end == Date(year, 12, 31)
    ensures forall q :: 1 <= q <= 3 ==> Adjacent(QuarterBounds(year, q).value, QuarterBounds(year, q + 1).value)
    ensures forall q :: 1 <= q <= 4 ==>
              (Contains(QuarterBounds(year, q).value, d) <==> d.year == year && q == QuarterOf(d.month))
    ensures 1 <= QuarterOf(d.month) <= 4
  {
    forall q | 1 <= q <= 4
      ensures QuarterBounds(year, q).Some? && WellFormed(QuarterBounds(year, q).value)
      ensures Contains(QuarterBounds(year, q).value, d) <==> d.year == year && QuarterOf(d.month) == q
      ensures QuarterBounds(year, q).value.start == Date(year, 3 * q - 2, 1)
      ensures QuarterBounds(year, q).value.end == Date(year, 3 * q, DaysInMonth(year, 3 * q))
    {
      QuarterIs(year, q);
    }
    forall q | 1 <= q <= 3
      ensures Adjacent(QuarterBounds(year, q).value, QuarterBounds(year, q + 1).value)
    {
      MonthStep(year, 3 * q);
    }
  }

  /** Exactly the dates whose window would leave years 1 to 9999 get no window: Python raises for them. */
  lemma DefinedIff(period: Period, today: Date)
    requires Valid(today)
    ensures BoundsFor(period, today).None? <==>
              match period
              case Yesterday => today == Date(1, 1, 1)
              case ThisWeek => today.year == 9999 && today.month == 12 && today.day >= 27
              case LastWeek => today.year == 1 && today.month == 1 && today.day <= 7
              case LastMonth => today.year == 1 && today.month == 1
              case LastQuarter => today.year == 1 && today.month <= 3
              case LastYear => today.year == 1
              case _ => false
  {
    hide Ordinal, FromOrdinal, Valid, WeekBounds, MonthBounds, QuarterBounds, AddDays, Weekday;
    match period
    case Today =>
    case Yesterday => YesterdayDefined(today);
    case ThisWeek => ThisWeekDefined(today);
    case LastWeek => LastWeekDefined(today);
    case ThisMonth => MonthDefined(today);
    case LastMonth => MonthDefined(today);
    case ThisQuarter => QuarterDefined(today);
    case LastQuarter => QuarterDefined(today);
    case ThisYear => YearDefined(today);
    case LastYear => YearDefined(today);
  }

  lemma ThisWeekDefined(today: Date)
    requires Valid(today)
    ensures BoundsFor(ThisWeek, today).None? <==> today.year == 9999 && today.month == 12 && today.day >= 27
  {
    hide Ordinal, FromOrdinal, Weekday, AddDays, Valid;
    WeekIs(today);
    LastWeekOfAll(today);
  }

  lemma MonthDefined(today: Date)
    requires Valid(today)
    ensures BoundsFor(ThisMonth, today).Some?
    ensures BoundsFor(LastMonth, today).None? <==> today.year == 1 && today.month == 1
  {
    hide Ordinal, FromOrdinal, AddDays, Contains, WellFormed;
    MonthIs(today.year, today.month);
    if today.month > 1 {
      MonthIs(today.year, today.month - 1);
    } else if today.year > 1 {
      MonthIs(today.year - 1, 12);
    }
  }

  lemma QuarterRange(month: int)
    requires 1 <= month <= 12
    ensures 1 <= QuarterOf(month) <= 4 && (QuarterOf(month) == 1 <==> month <= 3)
  {
  }

  lemma QuarterExists(year: int, quarter: int)
    requires 1 <= quarter <= 4
    ensures QuarterBounds(year, quarter).Some? <==> MIN_YEAR <= year <= MAX_YEAR
  {
  }

  lemma QuarterDefined(today: Date)
    requires Valid(today)
    ensures BoundsFor(ThisQuarter, today).Some?
    ensures BoundsFor(LastQuarter, today).None? <==> today.year == 1 && today.month <= 3
  {
    hide Ordinal, QuarterOf, QuarterBounds;
    QuarterRange(today.month);
    var quarter := QuarterOf(today.month);
    QuarterExists(today.year, quarter);
    if quarter > 1 {
      QuarterExists(today.year, quarter - 1);
    } else {
      QuarterExists(today.year - 1, 4);
    }
  }

  lemma YearDefined(today: Date)
    requires Valid(today)
    ensures BoundsFor(ThisYear, today).Some?
    ensures BoundsFor(LastYear, today).None? <==> today.year == 1
  {
    hide Ordinal, FromOrdinal, AddDays;
  }

  lemma FirstDay()
    ensures Ordinal(Date(1, 1, 1)) == 1
  {
  }

  lemma YesterdayDefined(today: Date)
    requires Valid(today)
    ensures BoundsFor(Yesterday, today).None? <==> today == Date(1, 1, 1)
  {
    hide Ordinal, FromOrdinal, IsLeap;
    FirstDay();
    FromOrdinalInverse(today);
    ValidIffInRange(today);
    AddDaysIs(today, -1);
    OrdinalIsMonotone(Date(1, 1, 1), today);
  }

  lemma LastWeekDefined(today: Date)
    requires Valid(today)
    ensures BoundsFor(LastWeek, today).None? <==> today.year == 1 && today.month == 1 && today.day <= 7
  {
    var eighth := Date(1, 1, 8);
    assert Ordinal(eighth) == 8;
    FromOrdinalInverse(today);
    ValidIffInRange(today);
    AddDaysIs(today, -7);
    OrdinalIsMonotone(today, eighth);
    if AddDays(today, -7).Some? {
      var d := AddDays(today, -7).value;
      WeekIs(d);
      BackToMonday(Ordinal(d));
      assert BoundsFor(LastWeek, today) == WeekBounds(d);
    }
  }

  lemma LastMonday()
    ensures Ordinal(Date(9999, 12, 27)) == MAX_ORDINAL - 4
  {
  }

  /** The last representable day is a Friday, so the days from its Monday on have no Sunday. */
  lemma CompletesWeek(o: int)
    requires o <= MAX_ORDINAL
    ensures o - (o + 6) % 7 + 6 > MAX_ORDINAL <==> o >= MAX_ORDINAL - 4
  {
  }

  lemma LastWeekOfAll(d: Date)
    requires Valid(d)
    ensures Ordinal(d) - Weekday(d) + 6 > MAX_ORDINAL <==> d.year == 9999 && d.month == 12 && d.day >= 27
  {
    var monday := Date(9999, 12, 27);
    LastMonday();
    hide Ordinal;
    ValidIffInRange(d);
    CompletesWeek(Ordinal(d));
    hide Weekday;
    OrdinalIsMonotone(d, monday);
    OrdinalIsMonotone(monday, d);
  }
}
