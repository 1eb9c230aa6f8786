/** The UTC calendar that quest periods follow: day, month and year of an instant as
    ECMAScript's Date computes them, and the next daily, weekly or monthly reset.
    Instants are milliseconds since 1970-01-01T00:00Z. */
module Calendar {
  import opened Prelude

  const MS_PER_DAY := 86_400_000

  datatype Period = NONE | DAILY | WEEKLY | MONTHLY

  function Day(t: int): int { t / MS_PER_DAY }

  function TimeWithinDay(t: int): int { t % MS_PER_DAY }

  /** 0 is Sunday; 1970-01-01 was a Thursday. */
  function WeekDay(t: int): int { (Day(t) + 4) % 7 }

  predicate IsLeap(y: int) {
    y % 4 == 0 && (y % 100 != 0 || y % 400 == 0)
  }

  /** Length of the `m`-th month of a year. */
  function LengthInYear(m: int, leap: bool): (r: int)
    ensures 28 <= r <= 31
  {
    if m == 1 then (if leap then 29 else 28)
    else if m == 3 || m == 5 || m == 8 || m == 10 then 30
    else 31
  }

  const EPOCH_MONTH := 12 * 1970

  /** Months are numbered through the years: month `m` of year `y` (0 is January) is `12 * y + m`. */
  function MonthLength(month: int): (r: int)
    ensures 28 <= r <= 31
  {
    LengthInYear(month % 12, IsLeap(month / 12))
  }

  /** Day number of the first day of a month, counted from 1970-01-01. */
  function MonthStart(month: int): int
    decreases if month < EPOCH_MONTH then EPOCH_MONTH - month else month - EPOCH_MONTH
  {
    if month == EPOCH_MONTH then 0
    else if month > EPOCH_MONTH then MonthStart(month - 1) + MonthLength(month - 1)
    else MonthStart(month + 1) - MonthLength(month)
  }

  lemma {:induction false} NextMonthStart(month: int)
    ensures MonthStart(month + 1) == MonthStart(month) + MonthLength(month)
  {
  }

  /** The month that contains a day, searched from `m`. */
  function MonthFrom(day: int, m: int): (r: int)
    ensures MonthStart(r) <= day < MonthStart(r + 1)
    decreases day < MonthStart(m), if day < MonthStart(m) then MonthStart(m) - day else day - MonthStart(m)
  {
    NextMonthStart(m);
    NextMonthStart(m - 1);
    if day < MonthStart(m) then MonthFrom(day, m - 1)
    else if MonthStart(m + 1) <= day then MonthFrom(day, m + 1)
    else m
  }

  function MonthOf(day: int): (r: int)
    ensures MonthStart(r) <= day < MonthStart(r + 1)
  {
    MonthFrom(day, EPOCH_MONTH)
  }

  lemma {:induction false} MonthStartMonotone(a: int, b: int)
    requires a <= b
    ensures MonthStart(a) + 28 * (b - a) <= MonthStart(b)
    decreases b - a
  {
    if a < b {
      MonthStartMonotone(a, b - 1);
      NextMonthStart(b - 1);
    }
  }

  /** Only one month contains a given day. */
  lemma {:induction false} MonthUnique(day: int, m: int)
    requires MonthStart(m) <= day < MonthStart(m + 1)
    ensures MonthOf(day) == m
  {
    var r := MonthOf(day);
    if r < m {
      MonthStartMonotone(r + 1, m);
    } else if m < r {
      MonthStartMonotone(m + 1, r);
    }
  }

  /** January 1st as the closed form of ECMAScript's DayFromYear gives it. */
  function DayFromYear(y: int): int {
    365 * (y - 1970) + (y - 1969) / 4 - (y - 1901) / 100 + (y - 1601) / 400
  }

  lemma {:induction false} FourthYears(y: int)
    ensures (y - 1968) / 4 - (y - 1969) / 4 == if y % 4 == 0 then 1 else 0
  {
    var q, r := y / 4, y % 4;
    assert (y - 1968) / 4 == q - 492 && (y - 1969) / 4 == if r == 0 then q - 493 else q - 492;
  }

  lemma {:induction false} Centuries(y: int)
    ensures (y - 1900) / 100 - (y - 1901) / 100 == if y % 100 == 0 then 1 else 0
  {
    var q, r := y / 100, y % 100;
    assert (y - 1900) / 100 == q - 19 && (y - 1901) / 100 == if r == 0 then q - 20 else q - 19;
  }

  lemma {:induction false} FourthCenturies(y: int)
    ensures (y - 1600) / 400 - (y - 1601) / 400 == if y % 400 == 0 then 1 else 0
    ensures y % 100 == 0 ==> y % 4 == 0
    ensures y % 400 == 0 ==> y % 100 == 0
  {
    var q, r := y / 400, y % 400;
    assert (y - 1600) / 400 == q - 4 && (y - 1601) / 400 == if r == 0 then q - 5 else q - 4;
  }

  lemma {:induction false} YearLength(y: int)
    ensures DayFromYear(y + 1) - DayFromYear(y) == if IsLeap(y) then 366 else 365
  {
    FourthYears(y);
    Centuries(y);
    FourthCenturies(y);
  }

  /** Days of a year before its month `k`. */
  function DaysBefore(k: nat, leap: bool): int {
    if k == 0 then 0 else DaysBefore(k - 1, leap) + LengthInYear(k - 1, leap)
  }

  lemma {:induction false} DaysOfYear(leap: bool)
    ensures DaysBefore(12, leap) == if leap then 366 else 365
  {
    assert DaysBefore(1, leap) == 31;
    var d2 := DaysBefore(2, leap);
    assert d2 == if leap then 60 else 59;
    assert DaysBefore(4, leap) == d2 + 61;
    assert DaysBefore(6, leap) == DaysBefore(4, leap) + 61;
    assert DaysBefore(8, leap) == DaysBefore(6, leap) + 62;
    assert DaysBefore(10, leap) == DaysBefore(8, leap) + 61;
  }

  lemma {:induction false} MonthStartInYear(y: int, k: nat)
    requires k <= 12
    ensures MonthStart(12 * y + k) == MonthStart(12 * y) + DaysBefore(k, IsLeap(y))
  {
    if k > 0 {
      MonthStartInYear(y, k - 1);
      NextMonthStart(12 * y + k - 1);
      assert (12 * y + k - 1) / 12 == y && (12 * y + k - 1) % 12 == k - 1;
    }
  }

  lemma {:induction false} TwelveMonths(y: int)
    ensures MonthStart(12 * (y + 1)) - MonthStart(12 * y) == if IsLeap(y) then 366 else 365
  {
    MonthStartInYear(y, 12);
    DaysOfYear(IsLeap(y));
    assert 12 * (y + 1) == 12 * y + 12;
  }

  /** The month table and the closed form agree on every year, before 1970 too. */
  lemma {:induction false} YearStart(y: int)
    ensures MonthStart(12 * y) == DayFromYear(y)
    decreases if y < 1970 then 1970 - y else y - 1970
  {
    if y > 1970 {
      YearStart(y - 1);
      TwelveMonths(y - 1);
      YearLength(y - 1);
    } else if y < 1970 {
      YearStart(y + 1);
      TwelveMonths(y);
      YearLength(y);
    }
  }

  function FullYear(t: int): int { MonthOf(Day(t)) / 12 }

  function Month(t: int): int { MonthOf(Day(t)) % 12 }

  /** Day of the month, counted from 1. */
  function DateOfMonth(t: int): int { Day(t) - MonthStart(MonthOf(Day(t))) + 1 }

  /** MakeDay of ECMAScript: out-of-range months and dates carry over. */
  function MakeDay(year: int, month: int, date: int): int {
    MonthStart(12 * year + month) + date - 1
  }

  /** The part of JavaScript's Date that `nextResetAt` updates in place. */
  class UtcDate {
    var time: int

    constructor (t: int)
      ensures time == t
    {
      time := t;
    }

    /** `setUTCHours(0, 0, 0, 0)` */
    method ClearTimeOfDay()
      modifies this
      ensures time == Day(old(time)) * MS_PER_DAY
    {
      time := Day(time) * MS_PER_DAY;
    }

    method SetUtcDate(date: int)
      modifies this
      ensures time == MakeDay(FullYear(old(time)), Month(old(time)), date) * MS_PER_DAY + TimeWithinDay(old(time))
    {
      time := MakeDay(FullYear(time), Month(time), date) * MS_PER_DAY + TimeWithinDay(time);
    }

    method SetUtcMonth(month: int, date: int)
      modifies this
      ensures time == MakeDay(FullYear(old(time)), month, date) * MS_PER_DAY + TimeWithinDay(old(time))
    {
      time := MakeDay(FullYear(time), month, date) * MS_PER_DAY + TimeWithinDay(time);
    }
  }

  /** Moving the date of the month by `k` moves the day by `k`, across month ends too. */
  lemma {:induction false} DateArithmetic(t: int, k: int)
    ensures MakeDay(FullYear(t), Month(t), DateOfMonth(t) + k) == Day(t) + k
    ensures MakeDay(FullYear(t), Month(t) + k, 1) == MonthStart(MonthOf(Day(t)) + k)
  {
    var m := MonthOf(Day(t));
    assert 12 * (m / 12) + m % 12 == m;
  }

  // ---- Period boundaries ----

  /** The instants at which a period of the given kind begins. */
  ghost predicate IsBoundary(p: Period, t: int) {
    TimeWithinDay(t) == 0 &&
    match p
    case NONE => false
    case DAILY => true
    case WEEKLY => WeekDay(t) == 0
    case MONTHLY => DateOfMonth(t) == 1
  }

  ghost predicate IsLeastBoundaryAfter(p: Period, from: int, b: int) {
    from < b && IsBoundary(p, b) && forall u :: from < u < b ==> !IsBoundary(p, u)
  }

  /** What a reset time must be: nothing for quests without a period, else the least boundary. */
  ghost predicate IsReset(p: Period, from: int, r: Option<int>) {
    if p == NONE then r == None else r.Some? && IsLeastBoundaryAfter(p, from, r.value)
  }

  /** Two instants belong to the same UTC day, Sunday-to-Saturday week or month. */
  predicate SamePeriod(p: Period, a: int, b: int) {
    match p
    case NONE => true
    case DAILY => Day(a) == Day(b)
    case WEEKLY => (Day(a) + 4) / 7 == (Day(b) + 4) / 7
    case MONTHLY => MonthOf(Day(a)) == MonthOf(Day(b))
  }

  /** The first day of the period after the one that contains `day`. */
  function NextDay(day: int, p: Period): int
    requires p != NONE
  {
    match p
    case DAILY => day + 1
    case WEEKLY => 7 * ((day + 4) / 7) + 3
    case MONTHLY => MonthStart(MonthOf(day) + 1)
  }

  /** First instant of the period after the one that contains `from`. */
  function NextReset(from: int, p: Period): Option<int> {
    if p == NONE then None else Some(NextDay(Day(from), p) * MS_PER_DAY)
  }

  lemma {:induction false} DayOfMultiple(d: int)
    ensures Day(d * MS_PER_DAY) == d && TimeWithinDay(d * MS_PER_DAY) == 0
  {
  }

  lemma {:induction false} DayBelow(t: int, d: int)
    ensures t < d * MS_PER_DAY <==> Day(t) < d
  {
  }

  /** A date of month 1 is the first day of its month. */
  lemma {:induction false} FirstOfMonth(m: int)
    ensures MonthOf(MonthStart(m)) == m && DateOfMonth(MonthStart(m) * MS_PER_DAY) == 1
  {
    NextMonthStart(m);
    MonthUnique(MonthStart(m), m);
    DayOfMultiple(MonthStart(m));
  }

  /** An instant before day d, and one from it on. */
  lemma {:induction false} StartOfDay(from: int, d: int)
    ensures from < d * MS_PER_DAY <==> Day(from) < d
    ensures Day(d * MS_PER_DAY) == d && TimeWithinDay(d * MS_PER_DAY) == 0
  {
    DayOfMultiple(d);
    DayBelow(from, d);
  }

  lemma {:induction false} NoSundayBetween(day: int, d: int)
    requires day < d < 7 * ((day + 4) / 7) + 3
    ensures (d + 4) % 7 != 0
  {
    var q := (day + 4) / 7;
    assert 7 * q <= day + 4 < d + 4 < 7 * q + 7;
  }

  /** A midnight between an instant and the day d is the midnight of a day between. */
  lemma {:induction false} MidnightBetween(from: int, u: int, d: int)
    requires from < u < d * MS_PER_DAY && TimeWithinDay(u) == 0
    ensures Day(from) < Day(u) < d
  {
    DayBelow(u, d);
    assert u == Day(u) * MS_PER_DAY;
    DayBelow(from, Day(u));
  }

  lemma {:induction false} NextDayBegins(day: int, p: Period)
    requires p != NONE
    ensures day < NextDay(day, p) && IsBoundary(p, NextDay(day, p) * MS_PER_DAY)
  {
    DayOfMultiple(NextDay(day, p));
    if p == MONTHLY {
      FirstOfMonth(MonthOf(day) + 1);
    }
  }

  lemma {:induction false} NoneBetween(from: int, p: Period, u: int)
    requires p != NONE && from < u < NextDay(Day(from), p) * MS_PER_DAY
    ensures !IsBoundary(p, u)
  {
    if TimeWithinDay(u) == 0 {
      MidnightBetween(from, u, NextDay(Day(from), p));
      hide Day, TimeWithinDay;
      match p {
        case DAILY =>
        case WEEKLY => NoSundayBetween(Day(from), Day(u));
        case MONTHLY => MonthUnique(Day(u), MonthOf(Day(from)));
      }
    }
  }

  /** `nextResetAt` yields the least boundary strictly after its argument. */
  lemma {:induction false} NextResetIsLeast(from: int, p: Period)
    ensures IsReset(p, from, NextReset(from, p))
  {
    if p != NONE {
      var d := NextDay(Day(from), p);
      assert NextReset(from, p).value == d * MS_PER_DAY;
      NextDayBegins(Day(from), p);
      StartOfDay(from, d);
      hide IsBoundary, NextReset, NextDay, Day;
      forall u | from < u < d * MS_PER_DAY
        ensures !IsBoundary(p, u)
      {
        NoneBetween(from, p, u);
      }
    }
  }

  /** From `a` on, an instant is in `a`'s period exactly until the next reset. */
  lemma {:induction false} SamePeriodUntilReset(p: Period, a: int, b: int)
    requires p != NONE && a <= b
    ensures SamePeriod(p, a, b) <==> b < NextReset(a, p).value
  {
    assert Day(a) <= Day(b);
    match p {
      case DAILY => DayBelow(b, Day(a) + 1);
      case WEEKLY => DayBelow(b, 7 * ((Day(a) + 4) / 7) + 3);
      case MONTHLY =>
        var m := MonthOf(Day(a));
        DayBelow(b, MonthStart(m + 1));
        if Day(b) < MonthStart(m + 1) {
          MonthUnique(Day(b), m);
        }
    }
  }

  lemma {:induction false} SamePeriodReflexive(p: Period, t: int)
    ensures SamePeriod(p, t, t)
  {
  }

  lemma {:induction false} SamePeriodSameReset(p: Period, a: int, b: int)
    requires SamePeriod(p, a, b)
    ensures NextReset(a, p) == NextReset(b, p)
  {
  }

  lemma {:induction false} DaysToSunday(d: int)
    ensures var w := (d + 4) % 7;
      d + (if (7 - w) % 7 != 0 then (7 - w) % 7 else 7) == 7 * ((d + 4) / 7) + 3
  {
  }

  /** Midnight of `from`'s day with its date moved on by `k` is midnight `k` days later. */
  lemma {:induction false} MidnightLater(from: int, k: int)
    ensures var c := Day(from) * MS_PER_DAY;
      MakeDay(FullYear(c), Month(c), DateOfMonth(c) + k) * MS_PER_DAY + TimeWithinDay(c) == (Day(from) + k) * MS_PER_DAY
  {
    DayOfMultiple(Day(from));
    DateArithmetic(Day(from) * MS_PER_DAY, k);
  }

  lemma {:induction false} FirstOfNextMonth(from: int)
    ensures var t := MakeDay(FullYear(from), Month(from) + 1, 1) * MS_PER_DAY + TimeWithinDay(from);
      Day(t) == MonthStart(MonthOf(Day(from)) + 1)
  {
    DateArithmetic(from, 1);
    var d, ms := MonthStart(MonthOf(Day(from)) + 1), TimeWithinDay(from);
    assert (d * MS_PER_DAY + ms) / MS_PER_DAY == d;
  }

  /** The `DAILY` and `WEEKLY` branches: midnight, then the date moved on by `days`. */
  method MidnightAfter(d: UtcDate, days: int)
    modifies d
    ensures d.time == (Day(old(d.time)) + days) * MS_PER_DAY
  {
    MidnightLater(d.time, days);
    d.ClearTimeOfDay();
    d.SetUtcDate(DateOfMonth(d.time) + days);
  }

  /** The `MONTHLY` branch: the month is moved first, the time of day cleared after. */
  method FirstOfMonthAfter(d: UtcDate)
    modifies d
    ensures d.time == MonthStart(MonthOf(Day(old(d.time))) + 1) * MS_PER_DAY
  {
    FirstOfNextMonth(d.time);
    d.SetUtcMonth(Month(d.time) + 1, 1);
    d.ClearTimeOfDay();
  }

  method NextResetAt(from: int, period: Period) returns (r: Option<int>)
    ensures r == NextReset(from, period)
    ensures IsReset(period, from, r)
  {
    NextResetIsLeast(from, period);
    var d := new UtcDate(from);
    match period {
      case DAILY =>
        MidnightAfter(d, 1);
        r := Some(d.time);
      case WEEKLY =>
        var day := WeekDay(d.time);
        var diff := if (7 - day) % 7 != 0 then (7 - day) % 7 else 7;
        DaysToSunday(Day(from));
        MidnightAfter(d, diff);
        r := Some(d.time);
      case MONTHLY =>
        FirstOfMonthAfter(d);
        r := Some(d.time);
      case NONE =>
        r := None;
    }
  }
}
