/** Report periods and the slot of the breakdown that a day is counted in. */
module ReportPeriods {
  import opened Calendar
  import opened Numbers

  /** The reporting periods. All but the month carry the date they start at. */
  datatype Period = Month | HalfYear(start: nat) | Quarter(start: nat) | Year(start: nat)

  /** Number of the week, Monday to Sunday, that a day lies in. 1 January of the year 0 is a Saturday
      and lies in week 0. */
  function WeekIndex(n: nat): nat {
    (n + 5) / 7
  }

  lemma NextWeek(n: nat)
    ensures WeekIndex(n + 1) == WeekIndex(n) + if (n + 1) % 7 == 2 then 1 else 0
  {
  }

  lemma AMonday()
    ensures DayNumber(Date(1970, 1, 5)) == 719532
  {
    DayNumberIs(Date(1970, 1, 5));
  }

  /** A new week starts every Monday, and 5 January 1970 was one. */
  lemma WeeksStartOnMonday(n: nat)
    ensures WeekIndex(n + 1) == WeekIndex(n) + if (n + 1) % 7 == DayNumber(Date(1970, 1, 5)) % 7 then 1 else 0
  {
    AMonday();
    NextWeek(n);
  }

  /** The ISO 8601 number of a week: it belongs to the year of its Thursday. The Thursday of week 0
      is 30 December. */
  function WeekNumber(i: nat): (w: nat)
    ensures 1 <= w <= 53
  {
    if i == 0 then 52
    else
      var thursday := 7 * i - 2;
      (thursday - DaysBeforeYear(YearOf(thursday, 0))) / 7 + 1
  }

  function WeekOf(t: nat): nat {
    WeekIndex(t / DAY_SECONDS)
  }

  function IsoWeek(t: nat): (w: nat)
    ensures 1 <= w <= 53
  {
    WeekNumber(WeekOf(t))
  }

  /** Go's (a%b + b) % b for the distance of two counters. */
  function Wrapped(a: int, b: int): int
    requires b > 0
  {
    TruncMod(TruncMod(a, b) + b, b)
  }

  function AtLeastOne(n: int): nat {
    if n < 1 then 1 else n
  }

  function WeekSlot(week: nat, startWeek: nat, weeks: nat): (slot: nat)
    requires weeks > 0
    ensures slot >= 1
  {
    AtLeastOne(Wrapped(week - startWeek, weeks))
  }

  function MonthSlot(month: nat, startMonth: nat): (slot: nat)
    ensures slot >= 1
  {
    AtLeastOne(Wrapped(month - startMonth, 12) + 1)
  }

  /** Slots are counted from 1. */
  type SlotNumber = n: nat | n >= 1 witness 1

  /** The rule that a report is broken down by: the slot of each day. */
  type SlotRule = nat -> SlotNumber

  function SlotOf(p: Period, day: nat): SlotNumber {
    match p
    case Month => ToCivil(day).date.day
    case HalfYear(start) => WeekSlot(IsoWeek(day), IsoWeek(start), 53)
    case Quarter(start) => WeekSlot(IsoWeek(day), IsoWeek(start), 52)
    case Year(start) => MonthSlot(ToCivil(day).date.month, ToCivil(start).date.month)
  }

  /** The rule of a period. */
  function RuleOf(p: Period): SlotRule {
    day => SlotOf(p, day)
  }

  /** Wrapping adds the modulus to a negative remainder and takes it off again otherwise. */
  lemma WrappedFrom(m: int, b: int)
    requires -b < m < b
    ensures TruncMod(m + b, b) == if m < 0 then m + b else m
  {
    QuotientOf(m + b, if m < 0 then 0 else 1, if m < 0 then m + b else m, b);
  }

  /** Truncating twice wraps a distance as the mathematical remainder does, also backwards. */
  lemma WrappedIsModulo(a: int, b: int)
    requires b > 0
    ensures Wrapped(a, b) == a % b
  {
    var q, m := TruncDiv(a, b), TruncMod(a, b);
    WrappedFrom(m, b);
    var p := if m < 0 then q - 1 else q;
    assert p * b == q * b - (if m < 0 then b else 0);
    QuotientOf(a, p, if m < 0 then m + b else m, b);
  }

  lemma WrappedBound(a: int, b: int)
    requires b > 0
    ensures 0 <= Wrapped(a, b) < b
  {
    WrappedIsModulo(a, b);
  }

  lemma WeekSlotBound(w: nat, start: nat, weeks: nat)
    requires weeks >= 2
    ensures WeekSlot(w, start, weeks) <= weeks - 1
  {
    WrappedBound(w - start, weeks);
  }

  lemma MonthSlotBound(m: nat, start: nat)
    ensures MonthSlot(m, start) <= 12
  {
    WrappedBound(m - start, 12);
  }

  /** Slots stay inside the breakdown a period is shown with: 31 days, 52 or 51 weeks, 12 months. */
  lemma SlotsInRange(p: Period, day: nat)
    ensures SlotOf(p, day) <=
            match p { case Month => 31 case HalfYear(_) => 52 case Quarter(_) => 51 case Year(_) => 12 }
  {
    match p
    case Month =>
      var d := ToCivil(day).date;
      assert d.day <= DaysInMonth(d.year, d.month) <= 31;
    case HalfYear(start) => WeekSlotBound(IsoWeek(day), IsoWeek(start), 53);
    case Quarter(start) => WeekSlotBound(IsoWeek(day), IsoWeek(start), 52);
    case Year(start) => MonthSlotBound(ToCivil(day).date.month, ToCivil(start).date.month);
  }

  /** Two weeks share a slot exactly when their distances from the start week are the same around the
      breakdown, or both are at most one. */
  lemma WeeksShareSlot(start: nat, w0: nat, w1: nat, weeks: nat)
    requires weeks > 0
    ensures WeekSlot(w0, start, weeks) == WeekSlot(w1, start, weeks) <==>
            (w0 - start) % weeks == (w1 - start) % weeks || ((w0 - start) % weeks <= 1 && (w1 - start) % weeks <= 1)
  {
    WrappedIsModulo(w0 - start, weeks);
    WrappedIsModulo(w1 - start, weeks);
  }

  // ---- The weeks of a period ------------------------------------------------------------------

  /** The year of a day is determined. */
  lemma YearIs(n: nat, y: nat)
    requires DaysBeforeYear(y) <= n < DaysBeforeYear(y) + DaysInYear(y)
    ensures YearOf(n, 0) == y
  {
    var r := YearOf(n, 0);
    if r < y {
      YearsAddUp(r, y);
    } else if y < r {
      YearsAddUp(y, r);
    }
  }

  /** The Thursday of a week, counted from 1 January of a year. */
  function ThursdayIn(y: nat, i: nat): int {
    7 * i - 2 - DaysBeforeYear(y)
  }

  /** A week of a year by its Thursday: weeks whose Thursday lies before the year have the last number
      of the year before, weeks whose Thursday lies behind it have number 1. */
  lemma WeekOfYear(y: nat, i: nat)
    requires -3 <= ThursdayIn(y, i) < DaysInYear(y) + 3
    ensures var d := ThursdayIn(y, i);
      && (0 <= d < DaysInYear(y) ==> WeekNumber(i) == d / 7 + 1)
      && (d >= DaysInYear(y) ==> WeekNumber(i) == 1)
      && (d < 0 ==> WeekNumber(i) == if d == -1 || (d == -2 && y > 0 && IsLeap(y - 1)) then 53 else 52)
  {
    var thursday := 7 * i - 2;
    if 0 <= ThursdayIn(y, i) < DaysInYear(y) {
      YearIs(thursday, y);
    } else if ThursdayIn(y, i) >= DaysInYear(y) {
      YearIs(thursday, y + 1);
    } else if y > 0 {
      YearIs(thursday, y - 1);
    }
  }

  /** The number of the week a year starts in, by the weekday (0 for Monday) of its 1 January. */
  lemma WeekOfNewYear(y: nat)
    ensures var weekday := (DaysBeforeYear(y) + 5) % 7;
      WeekNumber(WeekIndex(DaysBeforeYear(y))) ==
        if weekday <= 3 then 1
        else if weekday == 4 || (weekday == 5 && y > 0 && IsLeap(y - 1)) then 53
        else 52
  {
    WeekOfYear(y, WeekIndex(DaysBeforeYear(y)));
  }

  /** Weeks whose Thursdays lie d and d + 7k days behind the same 1 January. */
  lemma NumberAhead(d: nat, k: nat)
    ensures (d + 7 * k) / 7 == d / 7 + k
  {
  }

  lemma LastWeekBehind(d: nat, k: nat, length: nat)
    requires length in {365, 366} && length <= d + 7 * k < length + 3
    ensures d / 7 + k == 52
  {
    NumberAhead(d, k);
  }

  /** Midnight of the first of a month. */
  function FirstOfMonth(y: nat, month: nat): nat
    requires 1 <= month <= 12
  {
    FromCivil(Civil(Date(y, month, 1), 0, 0, 0))
  }

  /** The time lies in the months of the period that starts with the given month. */
  predicate InMonths(y: nat, month: nat, months: nat, t: nat) {
    var d := ToCivil(t).date;
    d.year == y && month <= d.month < month + months
  }

  /** Weeks between the start of a period and a time of it. */
  function WeeksSince(start: nat, t: nat): int {
    WeekOf(t) - WeekOf(start)
  }

  lemma MonthStarts(y: nat)
    ensures DaysBeforeMonth(y, 4) in {90, 91} && DaysBeforeMonth(y, 7) in {181, 182} &&
      DaysBeforeMonth(y, 10) in {273, 274}
  {
    assert DaysBeforeMonth(y, 2) == 31;
    assert DaysBeforeMonth(y, 3) == 31 + DaysInMonth(y, 2);
    assert DaysBeforeMonth(y, 5) == DaysBeforeMonth(y, 3) + 61;
    assert DaysBeforeMonth(y, 7) == DaysBeforeMonth(y, 5) + 61;
    assert DaysBeforeMonth(y, 9) == DaysBeforeMonth(y, 7) + 62;
  }

  /** The days of a date's year before its month and before a later month. */
  lemma DayInMonth(d: Date, month: nat, end: nat)
    requires ValidDate(d) && 1 <= month <= d.month < end <= 13
    ensures var n := DayNumber(d) - DaysBeforeYear(d.year);
      DaysBeforeMonth(d.year, month) <= n < DaysBeforeMonth(d.year, end)
  {
    if month < d.month {
      MonthsAddUp(d.year, month, d.month);
    }
    MonthsAddUp(d.year, d.month, end);
  }

  lemma FirstDayOfMonth(y: nat, month: nat)
    requires 1 <= month <= 12
    ensures FirstOfMonth(y, month) / DAY_SECONDS == DaysBeforeYear(y) + DaysBeforeMonth(y, month)
  {
  }

  /** The periods that start with a quarter, and the days they reach from its first day. */
  lemma DaysOfPeriod(y: nat, month: nat, months: nat, t: nat)
    requires month in {1, 4, 7, 10} && months in {3, 6} && month + months <= 13 && InMonths(y, month, months, t)
    ensures var n, n0 := t / DAY_SECONDS - DaysBeforeYear(y), FirstOfMonth(y, month) / DAY_SECONDS - DaysBeforeYear(y);
      && 0 <= n0 <= n < DaysInYear(y) && n0 <= 274
      && (if month == 1 then n0 == 0 && n <= 181 else n0 >= 90)
  {
    var d := ToCivil(t).date;
    assert DayNumber(d) == t / DAY_SECONDS;
    MonthStarts(y);
    MonthsFillYear(y);
    FirstDayOfMonth(y, month);
    DayInMonth(d, month, 13);
    if month == 1 {
      DayInMonth(d, 1, 7);
    }
  }

  /** A week's Thursday is at most three days away. */
  lemma ThursdayNear(n: nat, y: nat)
    ensures n - DaysBeforeYear(y) - 3 <= ThursdayIn(y, WeekIndex(n)) <= n - DaysBeforeYear(y) + 3
  {
  }

  /** The day counts for week 1 of the next year. */
  predicate InNextYear(y: nat, t: nat) {
    ThursdayIn(y, WeekOf(t)) >= DaysInYear(y)
  }

  /** The number w of the week k weeks behind week w0: it counts on from w0, or from the New Year in
      the old week 52 or 53, or is 1 for the last days of December. */
  predicate CountsOn(w0: nat, w: nat, k: int, nextYear: bool) {
    && 1 <= w0 <= 53 && k >= 0
    && if nextYear then w == 1 && w0 + k == 53 && 13 <= k <= 41
       else if w0 >= 52 && k > 0 then w == k <= 27
       else w == w0 + k <= 53 && k <= 41
  }

  lemma AfterOldWeek(y: nat, i0: nat, i: nat)
    requires -3 <= ThursdayIn(y, i0) < 0 && i0 <= i <= i0 + 27
    ensures CountsOn(WeekNumber(i0), WeekNumber(i), i - i0, false) && ThursdayIn(y, i) < DaysInYear(y)
  {
    WeekOfYear(y, i0);
    WeekOfYear(y, i);
    if i > i0 {
      NumberAhead(ThursdayIn(y, i0) + 7, i - i0 - 1);
    }
  }

  lemma AfterOwnWeek(y: nat, i0: nat, i: nat)
    requires i0 <= i && 0 <= ThursdayIn(y, i0) <= 280 && ThursdayIn(y, i) < DaysInYear(y) + 3
    requires ThursdayIn(y, i0) < 80 ==> i <= i0 + 27
    ensures CountsOn(WeekNumber(i0), WeekNumber(i), i - i0, ThursdayIn(y, i) >= DaysInYear(y))
  {
    var d, k := ThursdayIn(y, i0), i - i0;
    assert ThursdayIn(y, i) == d + 7 * k;
    WeekOfYear(y, i0);
    WeekOfYear(y, i);
    if d + 7 * k < DaysInYear(y) {
      NumberAhead(d, k);
    } else {
      LastWeekBehind(d, k, DaysInYear(y));
    }
  }

  /** The weeks of the days n0 and n of one year, n0 in its first, second, third or fourth quarter. */
  lemma WeeksCountOn(y: nat, n0: nat, n: nat)
    requires DaysBeforeYear(y) <= n0 <= n < DaysBeforeYear(y) + DaysInYear(y) && n0 <= DaysBeforeYear(y) + 274
    requires n0 < DaysBeforeYear(y) + 90 ==> n0 == DaysBeforeYear(y) && n <= n0 + 181
    ensures var i0, i := WeekIndex(n0), WeekIndex(n);
      CountsOn(WeekNumber(i0), WeekNumber(i), i - i0, ThursdayIn(y, i) >= DaysInYear(y))
  {
    ThursdayNear(n0, y);
    ThursdayNear(n, y);
    if ThursdayIn(y, WeekIndex(n0)) < 0 {
      AfterOldWeek(y, WeekIndex(n0), WeekIndex(n));
    } else {
      AfterOwnWeek(y, WeekIndex(n0), WeekIndex(n));
    }
  }

  lemma PeriodCountsOn(y: nat, month: nat, months: nat, start: nat, t: nat)
    requires month in {1, 4, 7, 10} && months in {3, 6} && month + months <= 13 && InMonths(y, month, months, t)
    requires start == FirstOfMonth(y, month)
    ensures CountsOn(IsoWeek(start), IsoWeek(t), WeeksSince(start, t), InNextYear(y, t))
  {
    DaysOfPeriod(y, month, months, t);
    WeeksCountOn(y, start / DAY_SECONDS, t / DAY_SECONDS);
  }

  // ---- The slots of the weeks -----------------------------------------------------------------

  /** How far the slots of the weeks behind the first run ahead of their distance from the first: in a
      breakdown of 53 weeks that starts in week 52 the slot of the next week is 2, in one of 52 weeks
      that starts in week 53 it is 0. */
  function Shift(startWeek: nat, weeks: nat): int {
    if startWeek == 52 && weeks == 53 then 1 else if startWeek == 53 && weeks == 52 then -1 else 0
  }

  /** The last week, counted from the start, that is counted in the first slot. */
  function LastOfFirstSlot(startWeek: nat, weeks: nat): int {
    1 - Shift(startWeek, weeks)
  }

  function SlotAt(k: int, startWeek: nat, weeks: nat, nextYear: bool): int {
    if k == 0 then 1 else if nextYear then k + weeks - 52 else AtLeastOne(k + Shift(startWeek, weeks))
  }

  lemma SlotAhead(w: nat, w0: nat, weeks: nat)
    requires 0 <= w - w0 < weeks
    ensures WeekSlot(w, w0, weeks) == AtLeastOne(w - w0)
  {
    WrappedIsModulo(w - w0, weeks);
    QuotientOf(w - w0, 0, w - w0, weeks);
  }

  lemma SlotBehind(w: nat, w0: nat, weeks: nat)
    requires 0 < w0 - w <= weeks
    ensures WeekSlot(w, w0, weeks) == AtLeastOne(w - w0 + weeks)
  {
    WrappedIsModulo(w - w0, weeks);
    QuotientOf(w - w0, -1, w - w0 + weeks, weeks);
  }

  /** The distance of two weeks around the breakdown. */
  function Turned(w: nat, w0: nat, weeks: nat): int {
    if w >= w0 then w - w0 else w - w0 + weeks
  }

  lemma SlotTurned(w: nat, w0: nat, weeks: nat)
    requires w0 - w <= weeks && w - w0 < weeks
    ensures WeekSlot(w, w0, weeks) == AtLeastOne(Turned(w, w0, weeks))
  {
    if w >= w0 {
      SlotAhead(w, w0, weeks);
    } else {
      SlotBehind(w, w0, weeks);
    }
  }

  lemma DistanceTurned(w0: nat, w: nat, k: int, nextYear: bool, weeks: nat)
    requires weeks in {52, 53} && CountsOn(w0, w, k, nextYear)
    ensures w0 - w <= weeks && w - w0 < weeks && AtLeastOne(Turned(w, w0, weeks)) == SlotAt(k, w0, weeks, nextYear)
  {
  }

  /** The slot of a week by its distance from the start week. */
  lemma SlotByDistance(w0: nat, w: nat, k: int, nextYear: bool, weeks: nat)
    requires weeks in {52, 53} && CountsOn(w0, w, k, nextYear)
    ensures WeekSlot(w, w0, weeks) == SlotAt(k, w0, weeks, nextYear)
  {
    DistanceTurned(w0, w, k, nextYear, weeks);
    SlotTurned(w, w0, weeks);
  }

  lemma SlotsAtApart(w0: nat, k: nat, k': nat, next: bool, next': bool, weeks: nat)
    requires weeks in {52, 53} && (next ==> k >= 13 && w0 < 52) && (next' ==> k' >= 13 && w0 < 52)
    requires (next && k <= k' ==> next') && (next' && k' <= k ==> next)
    ensures var last := LastOfFirstSlot(w0, weeks);
      && (SlotAt(k, w0, weeks, next) == 1 <==> k <= last)
      && (SlotAt(k, w0, weeks, next) == SlotAt(k', w0, weeks, next') <==> k == k' || (k <= last && k' <= last))
  {
  }

  /** Two weeks of a period have the same slot exactly when they are the same or both among the weeks
      of the first slot. */
  lemma SlotsApart(w0: nat, w: nat, w': nat, k: int, k': int, next: bool, next': bool, weeks: nat)
    requires weeks in {52, 53} && CountsOn(w0, w, k, next) && CountsOn(w0, w', k', next')
    requires (next && k <= k' ==> next') && (next' && k' <= k ==> next)
    ensures var last := LastOfFirstSlot(w0, weeks);
      && (WeekSlot(w, w0, weeks) == 1 <==> k <= last)
      && (WeekSlot(w, w0, weeks) == WeekSlot(w', w0, weeks) <==> k == k' || (k <= last && k' <= last))
  {
    SlotByDistance(w0, w, k, next, weeks);
    SlotByDistance(w0, w', k', next', weeks);
    SlotsAtApart(w0, k, k', next, next', weeks);
  }

  /** Two days are counted in the same slot exactly when they lie in the same week or both in the
      weeks of the first slot. */
  ghost predicate SlotsByWeek(p: Period, start: nat, last: int, a: nat, b: nat) {
    && (SlotOf(p, a) == 1 <==> WeeksSince(start, a) <= last)
    && (SlotOf(p, a) == SlotOf(p, b) <==>
        WeeksSince(start, a) == WeeksSince(start, b) || (WeeksSince(start, a) <= last && WeeksSince(start, b) <= last))
  }

  lemma DaysApart(y: nat, start: nat, a: nat, b: nat, weeks: nat, p: Period)
    requires weeks in {52, 53} && p == if weeks == 53 then HalfYear(start) else Quarter(start)
    requires CountsOn(IsoWeek(start), IsoWeek(a), WeeksSince(start, a), InNextYear(y, a))
    requires CountsOn(IsoWeek(start), IsoWeek(b), WeeksSince(start, b), InNextYear(y, b))
    ensures SlotsByWeek(p, start, LastOfFirstSlot(IsoWeek(start), weeks), a, b)
  {
    SlotsApart(IsoWeek(start), IsoWeek(a), IsoWeek(b), WeeksSince(start, a), WeeksSince(start, b),
      InNextYear(y, a), InNextYear(y, b), weeks);
  }

  lemma PeriodSlots(y: nat, month: nat, months: nat, start: nat, a: nat, b: nat, weeks: nat, p: Period)
    requires weeks in {52, 53} && month in {1, 4, 7, 10} && months in {3, 6} && month + months <= 13
    requires start == FirstOfMonth(y, month) && p == if weeks == 53 then HalfYear(start) else Quarter(start)
    requires InMonths(y, month, months, a) && InMonths(y, month, months, b)
    ensures SlotsByWeek(p, start, LastOfFirstSlot(IsoWeek(start), weeks), a, b)
  {
    PeriodCountsOn(y, month, months, start, a);
    PeriodCountsOn(y, month, months, start, b);
    DaysApart(y, start, a, b, weeks, p);
  }

  /** A half-year counts its first two weeks in the first slot, and its first week alone when it
      starts in week 52; every later week has a slot of its own. */
  lemma HalfYearSlots(y: nat, segment: nat, a: nat, b: nat)
    requires 1 <= segment <= 2
    requires InMonths(y, 6 * segment - 5, 6, a) && InMonths(y, 6 * segment - 5, 6, b)
    ensures var start := FirstOfMonth(y, 6 * segment - 5);
      SlotsByWeek(HalfYear(start), start, if IsoWeek(start) == 52 then 0 else 1, a, b)
  {
    var start := FirstOfMonth(y, 6 * segment - 5);
    PeriodSlots(y, 6 * segment - 5, 6, start, a, b, 53, HalfYear(start));
  }

  /** A quarter counts its first two weeks in the first slot, and its first three when it starts in
      week 53; every later week has a slot of its own. */
  lemma QuarterSlots(y: nat, segment: nat, a: nat, b: nat)
    requires 1 <= segment <= 4
    requires InMonths(y, 3 * segment - 2, 3, a) && InMonths(y, 3 * segment - 2, 3, b)
    ensures var start := FirstOfMonth(y, 3 * segment - 2);
      SlotsByWeek(Quarter(start), start, if IsoWeek(start) == 53 then 2 else 1, a, b)
  {
    var start := FirstOfMonth(y, 3 * segment - 2);
    PeriodSlots(y, 3 * segment - 2, 3, start, a, b, 52, Quarter(start));
  }

  /** The slot of a day k weeks behind the first week of its half-year. */
  lemma HalfYearSlotIs(y: nat, segment: nat, t: nat)
    requires 1 <= segment <= 2 && InMonths(y, 6 * segment - 5, 6, t)
    ensures var start := FirstOfMonth(y, 6 * segment - 5); var k := WeeksSince(start, t);
      SlotOf(HalfYear(start), t) ==
        if k == 0 then 1 else if InNextYear(y, t) || IsoWeek(start) == 52 then k + 1 else k
  {
    var start := FirstOfMonth(y, 6 * segment - 5);
    PeriodCountsOn(y, 6 * segment - 5, 6, start, t);
    SlotByDistance(IsoWeek(start), IsoWeek(t), WeeksSince(start, t), InNextYear(y, t), 53);
  }

  lemma QuarterSlotIs(y: nat, segment: nat, t: nat)
    requires 1 <= segment <= 4 && InMonths(y, 3 * segment - 2, 3, t)
    ensures var start := FirstOfMonth(y, 3 * segment - 2); var k := WeeksSince(start, t);
      SlotOf(Quarter(start), t) == if k == 0 then 1 else if IsoWeek(start) == 53 && k > 1 then k - 1 else k
  {
    var start := FirstOfMonth(y, 3 * segment - 2);
    PeriodCountsOn(y, 3 * segment - 2, 3, start, t);
    SlotByDistance(IsoWeek(start), IsoWeek(t), WeeksSince(start, t), InNextYear(y, t), 52);
  }

  /** A day of a month has the slot of its number. */
  lemma MonthSlotIsDay(c: Civil)
    requires ValidCivil(c)
    ensures SlotOf(Month, FromCivil(c)) == c.date.day
  {
    CivilRoundTrip(c);
  }

  /** A month's slot counts from the start month and wraps at the end of the year. */
  lemma MonthSlotIs(m: nat, start: nat)
    requires 1 <= start <= 12 && 1 <= m <= 12
    ensures MonthSlot(m, start) == if m >= start then m - start + 1 else m - start + 13
  {
    var back := if m >= start then 0 else 1;
    QuotientOf(m - start, -back, m - start + 12 * back, 12);
    WrappedIsModulo(m - start, 12);
  }

  /** A day of a year has the slot of its month. */
  lemma YearSlotIsMonth(y: nat, c: Civil)
    requires ValidCivil(c)
    ensures SlotOf(Year(FirstOfMonth(y, 1)), FromCivil(c)) == c.date.month
  {
    CivilRoundTrip(c);
    CivilRoundTrip(Civil(Date(y, 1, 1), 0, 0, 0));
    MonthSlotIs(c.date.month, 1);
  }

  /** The months of a yearly report each have their own slot. */
  lemma MonthsKeepApart(start: nat, m0: nat, m1: nat)
    requires 1 <= start <= 12 && 1 <= m0 <= 12 && 1 <= m1 <= 12
    ensures MonthSlot(m0, start) == MonthSlot(m1, start) <==> m0 == m1
  {
    MonthSlotIs(m0, start);
    MonthSlotIs(m1, start);
  }
}
