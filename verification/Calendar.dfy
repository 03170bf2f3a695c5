/** The civil (Gregorian) calendar behind the row ids: days and seconds are counted from
    midnight of 1 January of the year 0, in local time. */
module Calendar {

  const DAY_SECONDS: int := 86400

  datatype Date = Date(year: nat, month: nat, day: nat)

  datatype Civil = Civil(date: Date, hour: nat, minute: nat, second: nat)

  predicate IsLeap(y: nat) {
    y % 4 == 0 && (y % 100 != 0 || y % 400 == 0)
  }

  function DaysInMonth(y: nat, m: nat): nat {
    if m == 2 then (if IsLeap(y) then 29 else 28)
    else if m == 4 || m == 6 || m == 9 || m == 11 then 30
    else 31
  }

  /** Days of year y that precede month m. Month 13 stands for the end of the year. */
  function DaysBeforeMonth(y: nat, m: nat): nat
    requires 1 <= m <= 13
  {
    if m == 1 then 0 else DaysBeforeMonth(y, m - 1) + DaysInMonth(y, m - 1)
  }

  function DaysInYear(y: nat): nat {
    if IsLeap(y) then 366 else 365
  }

  function DaysBeforeYear(y: nat): nat {
    if y == 0 then 0 else DaysBeforeYear(y - 1) + DaysInYear(y - 1)
  }

  predicate ValidDate(d: Date) {
    1 <= d.month <= 12 && 1 <= d.day <= DaysInMonth(d.year, d.month)
  }

  predicate ValidCivil(c: Civil) {
    ValidDate(c.date) && c.hour < 24 && c.minute < 60 && c.second < 60
  }

  function DayNumber(d: Date): nat
    requires ValidDate(d)
  {
    DaysBeforeYear(d.year) + DaysBeforeMonth(d.year, d.month) + d.day - 1
  }

  /** Chronological order as the printed fields show it: year first, then month, then day. */
  predicate DateBefore(a: Date, b: Date) {
    || a.year < b.year
    || (a.year == b.year && a.month < b.month)
    || (a.year == b.year && a.month == b.month && a.day < b.day)
  }

  lemma MonthsFillYear(y: nat)
    ensures DaysBeforeMonth(y, 13) == DaysInYear(y)
  {
    assert DaysBeforeMonth(y, 2) == 31;
    assert DaysBeforeMonth(y, 3) == 31 + DaysInMonth(y, 2);
    assert DaysBeforeMonth(y, 5) == DaysBeforeMonth(y, 3) + 61;
    assert DaysBeforeMonth(y, 7) == DaysBeforeMonth(y, 5) + 61;
    assert DaysBeforeMonth(y, 9) == DaysBeforeMonth(y, 7) + 62;
    assert DaysBeforeMonth(y, 11) == DaysBeforeMonth(y, 9) + 61;
    assert DaysBeforeMonth(y, 13) == DaysBeforeMonth(y, 11) + 61;
  }

  lemma {:induction false} MonthsAddUp(y: nat, m: nat, n: nat)
    requires 1 <= m < n <= 13
    ensures DaysBeforeMonth(y, m) + DaysInMonth(y, m) <= DaysBeforeMonth(y, n)
    decreases n
  {
    if m + 1 < n {
      MonthsAddUp(y, m, n - 1);
    }
  }

  lemma {:induction false} YearsAddUp(y: nat, z: nat)
    requires y < z
    ensures DaysBeforeYear(y) + DaysInYear(y) <= DaysBeforeYear(z)
    decreases z
  {
    if y + 1 < z {
      YearsAddUp(y, z - 1);
    }
  }

  /** A date lies inside its own year. */
  lemma DateInYear(d: Date)
    requires ValidDate(d)
    ensures DaysBeforeYear(d.year) <= DayNumber(d) < DaysBeforeYear(d.year) + DaysInYear(d.year)
  {
    MonthsAddUp(d.year, d.month, 13);
    MonthsFillYear(d.year);
  }

  lemma DateBeforeIncreases(a: Date, b: Date)
    requires ValidDate(a) && ValidDate(b) && DateBefore(a, b)
    ensures DayNumber(a) < DayNumber(b)
  {
    if a.year < b.year {
      DateInYear(a);
      DateInYear(b);
      YearsAddUp(a.year, b.year);
    } else if a.month < b.month {
      MonthsAddUp(a.year, a.month, b.month);
    }
  }

  /** Counting days turns the field order of dates into the order of numbers. */
  lemma DayNumberOrder(a: Date, b: Date)
    requires ValidDate(a) && ValidDate(b)
    ensures DateBefore(a, b) <==> DayNumber(a) < DayNumber(b)
    ensures a == b <==> DayNumber(a) == DayNumber(b)
  {
    if DateBefore(a, b) {
      DateBeforeIncreases(a, b);
    } else if DateBefore(b, a) {
      DateBeforeIncreases(b, a);
    }
  }

  /** How many multiples of b lie below y. */
  function Multiples(y: nat, b: nat): int
    requires b > 0
  {
    (y + b - 1) / b
  }

  lemma NextMultiple(y: nat, b: nat)
    requires b in {4, 100, 400}
    ensures Multiples(y + 1, b) == Multiples(y, b) + if y % b == 0 then 1 else 0
  {
  }

  lemma MultipleOf(y: nat, k: nat, a: nat, b: nat)
    requires y == k * (a * b) && b in {4, 100}
    ensures y % b == 0
  {
    var d := k * a - y / b;
    assert y == k * a * b;
    assert y % b == d * b;
  }

  lemma LeapDays(y: nat)
    ensures DaysInYear(y) ==
      365 + (if y % 4 == 0 then 1 else 0) - (if y % 100 == 0 then 1 else 0) + if y % 400 == 0 then 1 else 0
  {
    if y % 400 == 0 {
      MultipleOf(y, y / 400, 4, 100);
    }
    if y % 100 == 0 {
      MultipleOf(y, y / 100, 25, 4);
    }
  }

  lemma {:induction false} DaysByMultiples(y: nat)
    ensures DaysBeforeYear(y) == 365 * y + Multiples(y, 4) - Multiples(y, 100) + Multiples(y, 400)
  {
    if y > 0 {
      DaysByMultiples(y - 1);
      LeapDays(y - 1);
      NextMultiple(y - 1, 4);
      NextMultiple(y - 1, 100);
      NextMultiple(y - 1, 400);
    }
  }

  lemma {:induction false} DaysBeforeMonthIs(y: nat, m: nat)
    requires 1 <= m <= 12
    ensures DaysBeforeMonth(y, m) == (367 * m - 362) / 12 - if m <= 2 then 0 else if IsLeap(y) then 1 else 2
  {
    if m > 1 {
      DaysBeforeMonthIs(y, m - 1);
    }
  }

  /** The number of a date in closed form, from its fields: every fourth year is a leap year, but of the
      full centuries only every fourth. */
  lemma DayNumberIs(d: Date)
    requires ValidDate(d)
    ensures var y, m := d.year, d.month;
      DayNumber(d) == 365 * y + (y + 3) / 4 - (y + 99) / 100 + (y + 399) / 400
        + (367 * m - 362) / 12 - (if m <= 2 then 0 else if IsLeap(y) then 1 else 2) + d.day - 1
  {
    DaysByMultiples(d.year);
    DaysBeforeMonthIs(d.year, d.month);
  }

  /** The year of day n, searched upwards from y. */
  function YearOf(n: nat, y: nat): (r: nat)
    requires DaysBeforeYear(y) <= n
    ensures DaysBeforeYear(r) <= n < DaysBeforeYear(r) + DaysInYear(r)
    decreases n - DaysBeforeYear(y)
  {
    if n < DaysBeforeYear(y) + DaysInYear(y) then y else YearOf(n, y + 1)
  }

  /** The month of day k of year y, searched upwards from m. */
  function MonthOf(y: nat, k: nat, m: nat): (r: nat)
    requires 1 <= m <= 12 && DaysBeforeMonth(y, m) <= k < DaysBeforeMonth(y, 13)
    ensures 1 <= r <= 12 && DaysBeforeMonth(y, r) <= k < DaysBeforeMonth(y, r) + DaysInMonth(y, r)
    decreases 12 - m
  {
    if k < DaysBeforeMonth(y, m + 1) then m else MonthOf(y, k, m + 1)
  }

  function DateOf(n: nat): (d: Date)
    ensures ValidDate(d) && DayNumber(d) == n
  {
    var y := YearOf(n, 0);
    MonthsFillYear(y);
    var k := n - DaysBeforeYear(y);
    var m := MonthOf(y, k, 1);
    Date(y, m, k - DaysBeforeMonth(y, m) + 1)
  }

  function FromCivil(c: Civil): nat
    requires ValidCivil(c)
  {
    DayNumber(c.date) * DAY_SECONDS + c.hour * 3600 + c.minute * 60 + c.second
  }

  function ToCivil(t: nat): (c: Civil)
    ensures ValidCivil(c) && FromCivil(c) == t
  {
    var r := t % DAY_SECONDS;
    assert r / 3600 < 24 && r == r / 3600 * 3600 + r % 3600 / 60 * 60 + r % 60;
    Civil(DateOf(t / DAY_SECONDS), r / 3600, r % 3600 / 60, r % 60)
  }

  /** The calendar fields of a time determine it: reading the fields of the printed time is the
      identity on valid fields. */
  lemma CivilRoundTrip(c: Civil)
    requires ValidCivil(c)
    ensures ToCivil(FromCivil(c)) == c
  {
    var t := FromCivil(c);
    var r := c.hour * 3600 + c.minute * 60 + c.second;
    assert t / DAY_SECONDS == DayNumber(c.date) && t % DAY_SECONDS == r;
    DayNumberOrder(DateOf(t / DAY_SECONDS), c.date);
  }
}
