/** Dates as Python's `datetime.date` has them: the proleptic Gregorian calendar of years 1 to 9999, by ordinal day. */
module Calendar {
  import opened Wrappers

  datatype Date = Date(year: int, month: int, day: int)

  const MIN_YEAR := 1

  const MAX_YEAR := 9999

  const MAX_ORDINAL := 3652059

  predicate IsLeap(year: int) {
    year % 4 == 0 && (year % 100 != 0 || year % 400 == 0)
  }

  function DaysInYear(year: int): int {
    if IsLeap(year) then 366 else 365
  }

  function DaysInMonth(year: int, month: int): int {
    if month == 2 then (if IsLeap(year) then 29 else 28)
    else if month in {4, 6, 9, 11} then 30
    else 31
  }

  const CUMULATIVE: seq<int> := [0, 31, 59, 90, 120, 151, 181, 212, 243, 273, 304, 334]

  function DaysBeforeMonth(year: int, month: int): int
    requires 1 <= month <= 12
  {
    CUMULATIVE[month - 1] + if month > 2 && IsLeap(year) then 1 else 0
  }

  function DaysBeforeYear(year: int): int {
    (year - 1) * 365 + (year - 1) / 4 - (year - 1) / 100 + (year - 1) / 400
  }

  /** A date of the calendar, before asking whether its year is one Python can represent. */
  predicate OnCalendar(d: Date) {
    1 <= d.month <= 12 && 1 <= d.day <= DaysInMonth(d.year, d.month)
  }

  predicate Valid(d: Date) {
    OnCalendar(d) && MIN_YEAR <= d.year <= MAX_YEAR
  }

  function Ordinal(d: Date): int
    requires OnCalendar(d)
  {
    DaysBeforeYear(d.year) + DaysBeforeMonth(d.year, d.month) + d.day
  }

  /** Monday is 0. */
  function Weekday(d: Date): int
    requires OnCalendar(d)
  {
    (Ordinal(d) + 6) % 7
  }

  // ----- from an ordinal back to a date

  /** The year, starting at `year`, in which the `rest`-th day counted from its first of January falls. */
  function YearOf(year: int, rest: int): (r: (int, int))
    requires rest >= 1
    ensures r.0 >= year && 1 <= r.1 <= DaysInYear(r.0)
    decreases rest
  {
    if rest <= DaysInYear(year) then (year, rest) else YearOf(year + 1, rest - DaysInYear(year))
  }

  function MonthOf(year: int, rest: int, month: int): (m: int)
    requires rest >= 1 && 1 <= month <= 12
    ensures 1 <= m <= month && DaysBeforeMonth(year, m) < rest
    ensures m < month ==> rest <= DaysBeforeMonth(year, m + 1)
    decreases month
  {
    if rest > DaysBeforeMonth(year, month) then month else MonthOf(year, rest, month - 1)
  }

  function FromOrdinal(o: int): Date
    requires o >= 1
  {
    var (year, rest) := YearOf(MIN_YEAR, o);
    var month := MonthOf(year, rest, 12);
    Date(year, month, rest - DaysBeforeMonth(year, month))
  }

  lemma LeapDays(year: int)
    ensures year / 4 == (year - 1) / 4 + if year % 4 == 0 then 1 else 0
    ensures year / 100 == (year - 1) / 100 + if year % 100 == 0 then 1 else 0
    ensures year / 400 == (year - 1) / 400 + if year % 400 == 0 then 1 else 0
  {
  }

  lemma CenturyIsMultipleOfFour(year: int)
    ensures year % 100 == 0 ==> year % 4 == 0
    ensures year % 400 == 0 ==> year % 100 == 0
  {
  }

  /** The next year starts after all days of this one. */
  lemma YearStep(year: int)
    ensures DaysBeforeYear(year + 1) == DaysBeforeYear(year) + DaysInYear(year)
  {
    LeapDays(year);
    CenturyIsMultipleOfFour(year);
  }

  lemma MonthStep(year: int, month: int)
    requires 1 <= month < 12
    ensures DaysBeforeMonth(year, month + 1) == DaysBeforeMonth(year, month) + DaysInMonth(year, month)
  {
  }

  lemma LastMonth(year: int)
    ensures DaysBeforeMonth(year, 12) + DaysInMonth(year, 12) == DaysInYear(year)
  {
  }

  lemma {:induction false} YearOfOrdinal(year: int, rest: int)
    requires rest >= 1
    ensures DaysBeforeYear(YearOf(year, rest).0) + YearOf(year, rest).1 == DaysBeforeYear(year) + rest
    decreases rest
  {
    if rest > DaysInYear(year) {
      YearStep(year);
      YearOfOrdinal(year + 1, rest - DaysInYear(year));
    }
  }

  lemma FromOrdinalIs(o: int)
    requires o >= 1
    ensures OnCalendar(FromOrdinal(o)) && FromOrdinal(o).year >= MIN_YEAR
    ensures Ordinal(FromOrdinal(o)) == o
  {
    var (year, rest) := YearOf(MIN_YEAR, o);
    YearOfOrdinal(MIN_YEAR, o);
    var month := MonthOf(year, rest, 12);
    if month < 12 {
      MonthStep(year, month);
    } else {
      LastMonth(year);
    }
  }

  /** Later in the calendar means a larger ordinal. */
  predicate Before(a: Date, b: Date) {
    || a.year < b.year
    || (a.year == b.year && a.month < b.month)
    || (a.year == b.year && a.month == b.month && a.day < b.day)
  }

  lemma {:induction false} YearsGrow(y: int, z: int)
    requires y < z
    ensures DaysBeforeYear(y) + DaysInYear(y) <= DaysBeforeYear(z)
    decreases z - y
  {
    YearStep(y);
    if y + 1 < z {
      YearsGrow(y + 1, z);
    }
  }

  lemma MonthsGrow(year: int, m: int, n: int)
    requires 1 <= m < n <= 12
    ensures DaysBeforeMonth(year, m) + DaysInMonth(year, m) <= DaysBeforeMonth(year, n)
  {
  }

  lemma DayOfYearBound(d: Date)
    requires OnCalendar(d)
    ensures DaysBeforeMonth(d.year, d.month) + d.day <= DaysInYear(d.year)
  {
    LastMonth(d.year);
    if d.month < 12 {
      MonthsGrow(d.year, d.month, 12);
    }
  }

  lemma OrdinalIsMonotone(a: Date, b: Date)
    requires OnCalendar(a) && OnCalendar(b)
    ensures Ordinal(a) < Ordinal(b) <==> Before(a, b)
    ensures Ordinal(a) == Ordinal(b) <==> a == b
  {
    OrdinalOfEarlier(a, b);
    OrdinalOfEarlier(b, a);
  }

  lemma OrdinalOfEarlier(a: Date, b: Date)
    requires OnCalendar(a) && OnCalendar(b)
    ensures Before(a, b) ==> Ordinal(a) < Ordinal(b)
  {
    DayOfYearBound(a);
    if a.year < b.year {
      YearsGrow(a.year, b.year);
    } else if a.year == b.year && a.month < b.month {
      MonthsGrow(a.year, a.month, b.month);
    }
  }

  /** Ordinals name the dates of the calendar one to one. */
  lemma FromOrdinalInverse(d: Date)
    requires OnCalendar(d) && d.year >= MIN_YEAR
    ensures Ordinal(d) >= 1 && FromOrdinal(Ordinal(d)) == d
  {
    if d.year > MIN_YEAR {
      YearsGrow(MIN_YEAR, d.year);
    }
    FromOrdinalIs(Ordinal(d));
    OrdinalIsMonotone(FromOrdinal(Ordinal(d)), d);
  }

  lemma ValidIffInRange(d: Date)
    requires OnCalendar(d) && d.year >= MIN_YEAR
    ensures Valid(d) <==> 1 <= Ordinal(d) <= MAX_ORDINAL
  {
    var last := Date(MAX_YEAR, 12, 31);
    FromOrdinalInverse(d);
    assert Ordinal(last) == MAX_ORDINAL;
    OrdinalIsMonotone(d, last);
    OrdinalIsMonotone(last, d);
  }

  /** `date + timedelta(days=n)`; None is Python's OverflowError. */
  function AddDays(d: Date, n: int): (r: Option<Date>)
    requires OnCalendar(d)
    ensures r.Some? ==> OnCalendar(r.value) && Ordinal(r.value) == Ordinal(d) + n
  {
    var o := Ordinal(d) + n;
    if 1 <= o <= MAX_ORDINAL then
      FromOrdinalIs(o);
      Some(FromOrdinal(o))
    else None
  }

  lemma AddDaysIs(d: Date, n: int)
    requires OnCalendar(d)
    ensures AddDays(d, n).Some? <==> 1 <= Ordinal(d) + n <= MAX_ORDINAL
    ensures AddDays(d, n).Some? ==> Valid(AddDays(d, n).value) && Ordinal(AddDays(d, n).value) == Ordinal(d) + n
  {
    var o := Ordinal(d) + n;
    if 1 <= o <= MAX_ORDINAL {
      FromOrdinalIs(o);
      ValidIffInRange(FromOrdinal(o));
    }
  }

  // ----- anchors

  /** The numbering of days: Python's ordinal of the first of January 1970. */
  lemma EpochOrdinal()
    ensures Ordinal(Date(1970, 1, 1)) == 719163
  {
  }

  /** The numbering of weekdays: that day was a Thursday. */
  lemma EpochWeekday()
    ensures Weekday(Date(1970, 1, 1)) == 3
  {
  }
}
