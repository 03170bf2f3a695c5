/** Participant reports told from the stored rows and the calendar alone: the groups are the calendar days,
    and a report adds up its days. */
module CalendarReports {
  import opened Calendar
  import opened SourceLines
  import opened MeterRegistry
  import opened Decimals
  import opened DailyGroups
  import opened ReportPeriods
  import opened ParticipantReports
  import opened ReportBreakdown

  /** Rows of the calendar year of the report, as its range delivers them. */
  predicate InYearOf(rows: seq<Line>, start: nat) {
    InYears(rows) &&
    forall i | 0 <= i < |rows| && rows[i].id.Row? :: ToCivil(rows[i].id.time).date.year == ToCivil(start).date.year
  }

  /** The day that a time lies on. */
  type DayOf = int -> int

  const CALENDAR_DAY: DayOf := t => t / 86400

  // ---- The groups are calendar days -----------------------------------------------------------

  /** All rows of a group lie on one day of the year, that of the group. */
  ghost predicate OneCalendarDay(g: DayGroup, year: nat, dayOf: DayOf) {
    && ToCivil(g.day).date.year == year
    && forall i | 0 <= i < |g.lines| ::
      g.lines[i].id.Row? && g.lines[i].id.time >= 0 && dayOf(g.lines[i].id.time) == dayOf(g.day)
  }

  ghost predicate NeighboursApart(gs: seq<DayGroup>, dayOf: DayOf) {
    forall i: nat | 0 < i < |gs| :: dayOf(gs[i - 1].day) != dayOf(gs[i].day)
  }

  /** The groups with one more row in the last of them. */
  function Joined(gs: seq<DayGroup>, l: Line): seq<DayGroup>
    requires |gs| > 0
  {
    gs[..|gs| - 1] + [DayGroup(gs[|gs| - 1].day, gs[|gs| - 1].lines + [l])]
  }

  /** A readable row joins the last group or opens the next one, as its day says. */
  ghost predicate GoesByDay(gs: seq<DayGroup>, l: Line, after: seq<DayGroup>, dayOf: DayOf) {
    && |gs| > 0 && l.id.Row? && l.id.time >= 0
    && after == if dayOf(l.id.time) == dayOf(gs[|gs| - 1].day) then Joined(gs, l) else gs + [DayGroup(l.id.time, [l])]
  }

  lemma ExtendGoesByDay(gs: seq<DayGroup>, l: Line)
    requires |gs| > 0 && l.id.Row? && l.id.time >= 0
    requires ToCivil(l.id.time).date.year == ToCivil(gs[|gs| - 1].day).date.year
    ensures GoesByDay(gs, l, Extend(gs, l), CALENDAR_DAY)
  {
    YearDaysApart(l.id.time, gs[|gs| - 1].day);
  }

  lemma StaysCalendarDay(gs: seq<DayGroup>, l: Line, after: seq<DayGroup>, year: nat, dayOf: DayOf)
    requires GoesByDay(gs, l, after, dayOf) && ToCivil(l.id.time).date.year == year
    requires (forall i | 0 <= i < |gs| :: OneCalendarDay(gs[i], year, dayOf)) && NeighboursApart(gs, dayOf)
    ensures (forall i | 0 <= i < |after| :: OneCalendarDay(after[i], year, dayOf)) && NeighboursApart(after, dayOf)
  {
    var n := |gs| - 1;
    assert OneCalendarDay(gs[n], year, dayOf);
    assert forall i | 0 <= i < n :: after[i] == gs[i];
    assert forall i | 0 <= i <= n :: after[i].day == gs[i].day;
    assert OneCalendarDay(after[|after| - 1], year, dayOf);
  }

  /** For rows of one calendar year, in any order: the rows of a group lie on one day, and neighbouring
      groups on different days. */
  lemma {:induction false} GroupsAreCalendarDays(rows: seq<Line>, start: nat)
    requires InYearOf(rows, start)
    ensures var gs := Groups(rows, start);
      && (forall i | 0 <= i < |gs| :: OneCalendarDay(gs[i], ToCivil(start).date.year, CALENDAR_DAY))
      && NeighboursApart(gs, CALENDAR_DAY)
  {
    if rows != [] {
      var gs, l := Groups(rows[..|rows| - 1], start), rows[|rows| - 1];
      GroupsAreCalendarDays(rows[..|rows| - 1], start);
      if l.id.Row? {
        assert OneCalendarDay(gs[|gs| - 1], ToCivil(start).date.year, CALENDAR_DAY);
        ExtendGoesByDay(gs, l);
        StaysCalendarDay(gs, l, Extend(gs, l), ToCivil(start).date.year, CALENDAR_DAY);
      }
    }
  }

  // ---- Rows in order --------------------------------------------------------------------------

  /** The readable rows come in ascending order, from the start of the report on. */
  predicate InOrder(rows: seq<Line>, start: nat) {
    && (forall i | 0 <= i < |rows| && rows[i].id.Row? :: start <= rows[i].id.time)
    && forall i, j | 0 <= i < j < |rows| && rows[i].id.Row? && rows[j].id.Row? :: rows[i].id.time < rows[j].id.time
  }

  /** What the rows of a day hold in one cell. */
  function DayTotal(rows: seq<Line>, dayOf: DayOf, day: int, dir: Direction, cell: nat): real {
    if rows == [] then 0.0
    else
      var last := rows[|rows| - 1];
      DayTotal(rows[..|rows| - 1], dayOf, day, dir, cell) +
        if last.id.Row? && dayOf(last.id.time) == day then At(Values(last, dir), cell, 0.0) else 0.0
  }

  /** The groups are dated in ascending order, and each but the first by a stored row. */
  ghost predicate Dated(gs: seq<DayGroup>, rows: seq<Line>, start: nat, dayOf: DayOf) {
    && |gs| > 0 && gs[0].day == start
    && (forall i, j | 0 <= i < j < |gs| :: dayOf(gs[i].day) < dayOf(gs[j].day))
    && forall i: nat | 0 < i < |gs| :: IsStored(rows, gs[i].day)
  }

  /** Some readable row has this time. */
  ghost predicate IsStored(rows: seq<Line>, t: int) {
    exists i :: 0 <= i < |rows| && rows[i].id == Row(t)
  }

  /** Every readable row lies in a group of its day that is not dated later. */
  ghost predicate Placed(gs: seq<DayGroup>, rows: seq<Line>, dayOf: DayOf) {
    forall i | 0 <= i < |rows| && rows[i].id.Row? :: HasPlace(gs, rows[i].id.time, dayOf)
  }

  ghost predicate HasPlace(gs: seq<DayGroup>, t: int, dayOf: DayOf) {
    exists j :: 0 <= j < |gs| && dayOf(gs[j].day) == dayOf(t) && gs[j].day <= t
  }

  /** The groups hold what the rows of their days hold, and other days have no rows. */
  ghost predicate ByDay(gs: seq<DayGroup>, rows: seq<Line>, dayOf: DayOf, dir: Direction, cell: nat) {
    && (forall i | 0 <= i < |gs| :: Total(gs[i].lines, dir, cell) == DayTotal(rows, dayOf, dayOf(gs[i].day), dir, cell))
    && forall d: int | !HasDay(gs, dayOf, d) :: DayTotal(rows, dayOf, d, dir, cell) == 0.0
  }

  ghost predicate HasDay(gs: seq<DayGroup>, dayOf: DayOf, d: int) {
    exists i :: 0 <= i < |gs| && dayOf(gs[i].day) == d
  }

  /** The row lies behind the date of the last group. */
  ghost predicate StepsByDay(gs: seq<DayGroup>, l: Line, after: seq<DayGroup>, dayOf: DayOf) {
    && GoesByDay(gs, l, after, dayOf)
    && gs[|gs| - 1].day <= l.id.time && dayOf(gs[|gs| - 1].day) <= dayOf(l.id.time)
  }

  lemma StoredStays(rows: seq<Line>, l: Line, t: int)
    ensures IsStored(rows + [l], t) <==> IsStored(rows, t) || l.id == Row(t)
  {
    var all := rows + [l];
    assert all[|rows|] == l;
    if i :| 0 <= i < |rows| && rows[i].id == Row(t) {
      assert all[i].id == Row(t);
    }
    if i :| 0 <= i < |all| && all[i].id == Row(t) {
      assert i < |rows| ==> rows[i].id == Row(t);
    }
  }

  lemma NextDated(gs: seq<DayGroup>, rows: seq<Line>, start: nat, l: Line, after: seq<DayGroup>, dayOf: DayOf)
    requires Dated(gs, rows, start, dayOf) && StepsByDay(gs, l, after, dayOf)
    ensures Dated(after, rows + [l], start, dayOf)
  {
    assert forall i | 0 <= i < |gs| :: after[i].day == gs[i].day;
    forall i: nat | 0 < i < |after| ensures IsStored(rows + [l], after[i].day) {
      StoredStays(rows, l, after[i].day);
    }
  }

  lemma PlaceStays(gs: seq<DayGroup>, l: Line, after: seq<DayGroup>, dayOf: DayOf, t: int)
    requires StepsByDay(gs, l, after, dayOf)
    ensures HasPlace(gs, t, dayOf) ==> HasPlace(after, t, dayOf)
    ensures HasPlace(after, l.id.time, dayOf)
  {
    assert forall i | 0 <= i < |gs| :: after[i].day == gs[i].day;
    if j :| 0 <= j < |gs| && dayOf(gs[j].day) == dayOf(t) && gs[j].day <= t {
      assert dayOf(after[j].day) == dayOf(t);
    }
    assert dayOf(after[|after| - 1].day) == dayOf(l.id.time) && after[|after| - 1].day <= l.id.time;
  }

  lemma NextPlaced(gs: seq<DayGroup>, rows: seq<Line>, l: Line, after: seq<DayGroup>, dayOf: DayOf)
    requires Placed(gs, rows, dayOf) && StepsByDay(gs, l, after, dayOf)
    ensures Placed(after, rows + [l], dayOf)
  {
    var all := rows + [l];
    forall i | 0 <= i < |all| && all[i].id.Row? ensures HasPlace(after, all[i].id.time, dayOf) {
      PlaceStays(gs, l, after, dayOf, all[i].id.time);
      assert i < |rows| ==> HasPlace(gs, rows[i].id.time, dayOf);
    }
  }

  lemma NextDayTotal(rows: seq<Line>, l: Line, dayOf: DayOf, d: int, dir: Direction, cell: nat)
    ensures DayTotal(rows + [l], dayOf, d, dir, cell) == DayTotal(rows, dayOf, d, dir, cell) +
      if l.id.Row? && dayOf(l.id.time) == d then At(Values(l, dir), cell, 0.0) else 0.0
  {
    assert (rows + [l])[..|rows|] == rows;
  }

  /** The last group after a row. */
  lemma LastByDay(gs: seq<DayGroup>, rows: seq<Line>, start: nat, l: Line, after: seq<DayGroup>, dayOf: DayOf,
                  dir: Direction, cell: nat)
    requires Dated(gs, rows, start, dayOf) && ByDay(gs, rows, dayOf, dir, cell) && StepsByDay(gs, l, after, dayOf)
    ensures var last := after[|after| - 1];
      && dayOf(last.day) == dayOf(l.id.time)
      && Total(last.lines, dir, cell) == DayTotal(rows + [l], dayOf, dayOf(l.id.time), dir, cell)
  {
    var n, today := |gs| - 1, dayOf(l.id.time);
    NextDayTotal(rows, l, dayOf, today, dir, cell);
    if today == dayOf(gs[n].day) {
      TotalAppends(gs[n].lines, l, dir, cell);
    } else {
      assert !HasDay(gs, dayOf, today);
      TotalAppends([], l, dir, cell);
      assert [] + [l] == [l];
    }
  }

  /** The groups before stay what they were. */
  lemma EarlierByDay(gs: seq<DayGroup>, rows: seq<Line>, start: nat, l: Line, after: seq<DayGroup>, dayOf: DayOf,
                     dir: Direction, cell: nat, i: nat)
    requires Dated(gs, rows, start, dayOf) && ByDay(gs, rows, dayOf, dir, cell) && StepsByDay(gs, l, after, dayOf)
    requires i < |after| - 1
    ensures Total(after[i].lines, dir, cell) == DayTotal(rows + [l], dayOf, dayOf(after[i].day), dir, cell)
  {
    assert after[i] == gs[i];
    assert i < |gs| - 1 ==> dayOf(gs[i].day) < dayOf(gs[|gs| - 1].day);
    NextDayTotal(rows, l, dayOf, dayOf(gs[i].day), dir, cell);
  }

  lemma OtherDay(gs: seq<DayGroup>, rows: seq<Line>, l: Line, after: seq<DayGroup>, dayOf: DayOf, dir: Direction,
                 cell: nat, d: int)
    requires ByDay(gs, rows, dayOf, dir, cell) && StepsByDay(gs, l, after, dayOf) && !HasDay(after, dayOf, d)
    ensures DayTotal(rows + [l], dayOf, d, dir, cell) == 0.0
  {
    assert forall i | 0 <= i < |gs| :: after[i].day == gs[i].day;
    NextDayTotal(rows, l, dayOf, d, dir, cell);
    assert dayOf(after[|after| - 1].day) == dayOf(l.id.time);
    assert forall i | 0 <= i < |after| :: dayOf(after[i].day) != d;
  }

  lemma NextByDay(gs: seq<DayGroup>, rows: seq<Line>, start: nat, l: Line, after: seq<DayGroup>, dayOf: DayOf,
                  dir: Direction, cell: nat)
    requires Dated(gs, rows, start, dayOf) && ByDay(gs, rows, dayOf, dir, cell) && StepsByDay(gs, l, after, dayOf)
    ensures ByDay(after, rows + [l], dayOf, dir, cell)
  {
    forall i | 0 <= i < |after|
      ensures Total(after[i].lines, dir, cell) == DayTotal(rows + [l], dayOf, dayOf(after[i].day), dir, cell)
    {
      if i < |after| - 1 {
        EarlierByDay(gs, rows, start, l, after, dayOf, dir, cell, i);
      } else {
        LastByDay(gs, rows, start, l, after, dayOf, dir, cell);
      }
    }
    forall d: int | !HasDay(after, dayOf, d) ensures DayTotal(rows + [l], dayOf, d, dir, cell) == 0.0 {
      OtherDay(gs, rows, l, after, dayOf, dir, cell, d);
    }
  }

  lemma UnreadableRow(gs: seq<DayGroup>, rows: seq<Line>, start: nat, l: Line, dayOf: DayOf, dir: Direction, cell: nat)
    requires l.id.NoRow? && Dated(gs, rows, start, dayOf) && Placed(gs, rows, dayOf) &&
      ByDay(gs, rows, dayOf, dir, cell)
    ensures Dated(gs, rows + [l], start, dayOf) && Placed(gs, rows + [l], dayOf)
    ensures ByDay(gs, rows + [l], dayOf, dir, cell)
  {
    forall t: int ensures IsStored(rows + [l], t) <==> IsStored(rows, t) {
      StoredStays(rows, l, t);
    }
    forall d: int ensures DayTotal(rows + [l], dayOf, d, dir, cell) == DayTotal(rows, dayOf, d, dir, cell) {
      NextDayTotal(rows, l, dayOf, d, dir, cell);
    }
  }

  /** Every readable row takes its step. */
  ghost predicate AllStepByDay(rows: seq<Line>, start: nat, dayOf: DayOf)
    requires InYears(rows)
  {
    forall n: nat | n < |rows| && rows[n].id.Row? ::
      StepsByDay(Groups(rows[..n], start), rows[n], Groups(rows[..n + 1], start), dayOf)
  }

  lemma {:induction false} GroupsFollowDays(rows: seq<Line>, n: nat, start: nat, dayOf: DayOf, dir: Direction,
                                            cell: nat)
    requires InYears(rows) && AllStepByDay(rows, start, dayOf) && n <= |rows|
    ensures Dated(Groups(rows[..n], start), rows[..n], start, dayOf) &&
      Placed(Groups(rows[..n], start), rows[..n], dayOf)
    ensures ByDay(Groups(rows[..n], start), rows[..n], dayOf, dir, cell)
  {
    if n > 0 {
      var rest, l := rows[..n - 1], rows[n - 1];
      var gs, after := Groups(rest, start), Groups(rows[..n], start);
      assert rest + [l] == rows[..n] && rows[..n][..n - 1] == rest;
      GroupsFollowDays(rows, n - 1, start, dayOf, dir, cell);
      if l.id.Row? {
        assert StepsByDay(gs, l, after, dayOf);
        NextDated(gs, rest, start, l, after, dayOf);
        NextPlaced(gs, rest, l, after, dayOf);
        NextByDay(gs, rest, start, l, after, dayOf, dir, cell);
      } else {
        UnreadableRow(gs, rest, start, l, dayOf, dir, cell);
      }
    }
  }

  lemma {:induction false} LastGroupIsEarly(rows: seq<Line>, start: nat, bound: int)
    requires InYears(rows) && start <= bound
    requires forall i | 0 <= i < |rows| && rows[i].id.Row? :: rows[i].id.time <= bound
    ensures var gs := Groups(rows, start); gs[|gs| - 1].day <= bound
  {
    if rows != [] {
      LastGroupIsEarly(rows[..|rows| - 1], start, bound);
    }
  }

  lemma RowsStepByDay(rows: seq<Line>, start: nat)
    requires InYearOf(rows, start) && InOrder(rows, start)
    ensures AllStepByDay(rows, start, CALENDAR_DAY)
  {
    forall n: nat | n < |rows| && rows[n].id.Row?
      ensures StepsByDay(Groups(rows[..n], start), rows[n], Groups(rows[..n + 1], start), CALENDAR_DAY)
    {
      var gs := Groups(rows[..n], start);
      assert rows[..n + 1][..n] == rows[..n];
      LastGroupIsEarly(rows[..n], start, rows[n].id.time);
      GroupsAreCalendarDays(rows[..n], start);
      assert OneCalendarDay(gs[|gs| - 1], ToCivil(start).date.year, CALENDAR_DAY);
      ExtendGoesByDay(gs, rows[n]);
    }
  }

  /** For rows of one calendar year in ascending order: there is one group for each day with readable rows
      (and one for the start), and it holds what the rows of this day hold. */
  lemma GroupsByDay(rows: seq<Line>, start: nat, dir: Direction, cell: nat)
    requires InYearOf(rows, start) && InOrder(rows, start)
    ensures var gs := Groups(rows, start);
      && Dated(gs, rows, start, CALENDAR_DAY) && Placed(gs, rows, CALENDAR_DAY)
      && ByDay(gs, rows, CALENDAR_DAY, dir, cell)
  {
    RowsStepByDay(rows, start);
    GroupsFollowDays(rows, |rows|, start, CALENDAR_DAY, dir, cell);
    assert rows[..|rows|] == rows;
  }

  // ---- From groups to days --------------------------------------------------------------------

  /** Reported values of consumers are rounded. */
  function Shown(q: Quantity, total: real): real {
    if q.Reported? && q.m.dir.Consumer? then Round6(total) else total
  }

  function CellIn(q: Quantity): nat {
    (if q.m.dir.Consumer? then 3 else 2) * q.m.sourceIdx + q.k
  }

  /** The reported value of a day: cell k of the meter, summed over the rows of the day. */
  function ValueOn(rows: seq<Line>, dayOf: DayOf, q: Quantity, day: int): real {
    Shown(q, DayTotal(rows, dayOf, day, q.m.dir, CellIn(q)))
  }

  lemma ValueIsShown(q: Quantity, lines: seq<Line>)
    ensures Value(q, lines) == Shown(q, Total(lines, q.m.dir, CellIn(q)))
  {
  }

  lemma NothingShown(q: Quantity)
    ensures Shown(q, 0.0) == 0.0
  {
    RoundWhole(0);
  }

  /** The values of the selected days from day a on, before day b. */
  function SumOfDays(rows: seq<Line>, dayOf: DayOf, q: Quantity, sel: int -> bool, a: int, b: int): real
    decreases b - a
  {
    if b <= a then 0.0
    else SumOfDays(rows, dayOf, q, sel, a, b - 1) + if sel(b - 1) then ValueOn(rows, dayOf, q, b - 1) else 0.0
  }

  /** The values of the groups with these dates. */
  function Selected(gs: seq<DayGroup>, q: Quantity, p: nat -> bool): real {
    if gs == [] then 0.0
    else
      var last := gs[|gs| - 1];
      Selected(gs[..|gs| - 1], q, p) + if p(last.day) then Value(q, last.lines) else 0.0
  }

  ghost predicate HoldsDays(gs: seq<DayGroup>, rows: seq<Line>, dayOf: DayOf, q: Quantity) {
    && (forall i, j | 0 <= i < j < |gs| :: dayOf(gs[i].day) < dayOf(gs[j].day))
    && (forall i | 0 <= i < |gs| :: Value(q, gs[i].lines) == ValueOn(rows, dayOf, q, dayOf(gs[i].day)))
    && forall d: int | !HasDay(gs, dayOf, d) :: ValueOn(rows, dayOf, q, d) == 0.0
  }

  lemma GroupsHoldDays(gs: seq<DayGroup>, rows: seq<Line>, start: nat, dayOf: DayOf, q: Quantity)
    requires Dated(gs, rows, start, dayOf)
    requires ByDay(gs, rows, dayOf, q.m.dir, CellIn(q))
    ensures HoldsDays(gs, rows, dayOf, q)
  {
    NothingShown(q);
    forall i | 0 <= i < |gs| ensures Value(q, gs[i].lines) == ValueOn(rows, dayOf, q, dayOf(gs[i].day)) {
      ValueIsShown(q, gs[i].lines);
    }
  }

  lemma {:induction false} SelectedNone(gs: seq<DayGroup>, q: Quantity, p: nat -> bool)
    requires forall i | 0 <= i < |gs| :: !p(gs[i].day)
    ensures Selected(gs, q, p) == 0.0
  {
    if gs != [] {
      SelectedNone(gs[..|gs| - 1], q, p);
    }
  }

  lemma {:induction false} SelectedOne(gs: seq<DayGroup>, q: Quantity, p: nat -> bool, i: nat)
    requires i < |gs| && p(gs[i].day) && forall j | 0 <= j < |gs| && j != i :: !p(gs[j].day)
    ensures Selected(gs, q, p) == Value(q, gs[i].lines)
  {
    var n := |gs| - 1;
    if i == n {
      SelectedNone(gs[..n], q, p);
    } else {
      SelectedOne(gs[..n], q, p, i);
    }
  }

  lemma {:induction false} SelectedApart(gs: seq<DayGroup>, q: Quantity, p: nat -> bool, p0: nat -> bool,
                                         p1: nat -> bool)
    requires forall i | 0 <= i < |gs| ::
      (p(gs[i].day) <==> p0(gs[i].day) || p1(gs[i].day)) && !(p0(gs[i].day) && p1(gs[i].day))
    ensures Selected(gs, q, p) == Selected(gs, q, p0) + Selected(gs, q, p1)
  {
    if gs != [] {
      SelectedApart(gs[..|gs| - 1], q, p, p0, p1);
    }
  }

  /** The dates on the selected days from day a on, before day b. */
  function OnDays(dayOf: DayOf, sel: int -> bool, a: int, b: int): nat -> bool {
    t => a <= dayOf(t) < b && sel(dayOf(t))
  }

  lemma OneDaySelected(gs: seq<DayGroup>, rows: seq<Line>, dayOf: DayOf, q: Quantity, sel: int -> bool, d: int)
    requires HoldsDays(gs, rows, dayOf, q)
    ensures Selected(gs, q, OnDays(dayOf, sel, d, d + 1)) == if sel(d) then ValueOn(rows, dayOf, q, d) else 0.0
  {
    if sel(d) && HasDay(gs, dayOf, d) {
      var i: nat :| i < |gs| && dayOf(gs[i].day) == d;
      SelectedOne(gs, q, OnDays(dayOf, sel, d, d + 1), i);
    } else {
      forall i | 0 <= i < |gs| ensures !OnDays(dayOf, sel, d, d + 1)(gs[i].day) {
        assert dayOf(gs[i].day) == d ==> HasDay(gs, dayOf, d);
      }
      SelectedNone(gs, q, OnDays(dayOf, sel, d, d + 1));
    }
  }

  lemma {:induction false} SelectedDays(gs: seq<DayGroup>, rows: seq<Line>, dayOf: DayOf, q: Quantity,
                                        sel: int -> bool, a: int, b: int)
    requires HoldsDays(gs, rows, dayOf, q)
    ensures Selected(gs, q, OnDays(dayOf, sel, a, b)) == SumOfDays(rows, dayOf, q, sel, a, b)
    decreases b - a
  {
    if b <= a {
      SelectedNone(gs, q, OnDays(dayOf, sel, a, b));
    } else {
      SelectedDays(gs, rows, dayOf, q, sel, a, b - 1);
      OneDaySelected(gs, rows, dayOf, q, sel, b - 1);
      SelectedApart(gs, q, OnDays(dayOf, sel, a, b), OnDays(dayOf, sel, a, b - 1), OnDays(dayOf, sel, b - 1, b));
    }
  }

  // ---- The counted days -----------------------------------------------------------------------

  /** A group is dated at midnight of this day: the report starts then, or a row is stored for then. */
  ghost predicate OpensAt(rows: seq<Line>, start: nat, day: int) {
    start == day * 86400 || IsStored(rows, day * 86400)
  }

  lemma OpensAtExactly(gs: seq<DayGroup>, rows: seq<Line>, start: nat, day: int)
    requires Dated(gs, rows, start, CALENDAR_DAY) && Placed(gs, rows, CALENDAR_DAY)
    ensures OpensAt(rows, start, day) <==> exists i :: 0 <= i < |gs| && gs[i].day == day * 86400
  {
    if IsStored(rows, day * 86400) {
      var i :| 0 <= i < |rows| && rows[i].id == Row(day * 86400);
      assert HasPlace(gs, day * 86400, CALENDAR_DAY);
      var j :| 0 <= j < |gs| && CALENDAR_DAY(gs[j].day) == CALENDAR_DAY(day * 86400) && gs[j].day <= day * 86400;
      assert gs[j].day == day * 86400;
    }
    if start == day * 86400 {
      assert gs[0].day == day * 86400;
    }
  }

  /** The energy of the selected days of a participation: every day before the last one, and the last one
      when a group is dated at its midnight. */
  ghost function CountedEnergy(rows: seq<Line>, start: nat, q: Quantity, sel: int -> bool, a: int, b: int): real {
    SumOfDays(rows, CALENDAR_DAY, q, sel, a, b) +
      if a <= b && sel(b) && OpensAt(rows, start, b) then ValueOn(rows, CALENDAR_DAY, q, b) else 0.0
  }

  /** The counted dates of a participation from day a through day b. */
  function CountedDates(sel: int -> bool, a: int, b: int): nat -> bool {
    t => a * 86400 <= t <= b * 86400 && sel(t / 86400)
  }

  function LastMidnight(sel: int -> bool, a: int, b: int): nat -> bool {
    t => a <= b && t == b * 86400 && sel(b)
  }

  lemma DatesApart(sel: int -> bool, a: int, b: int, t: nat)
    ensures CountedDates(sel, a, b)(t) <==>
      OnDays(CALENDAR_DAY, sel, a, b)(t) || LastMidnight(sel, a, b)(t)
    ensures !(OnDays(CALENDAR_DAY, sel, a, b)(t) && LastMidnight(sel, a, b)(t))
  {
    var d := t / 86400;
    assert d * 86400 <= t < (d + 1) * 86400;
    assert t == b * 86400 ==> d == b;
  }

  lemma LastDaySelected(gs: seq<DayGroup>, rows: seq<Line>, start: nat, q: Quantity, sel: int -> bool, a: int, b: int)
    requires Dated(gs, rows, start, CALENDAR_DAY) && Placed(gs, rows, CALENDAR_DAY)
    requires HoldsDays(gs, rows, CALENDAR_DAY, q)
    ensures Selected(gs, q, LastMidnight(sel, a, b)) ==
      if a <= b && sel(b) && OpensAt(rows, start, b) then ValueOn(rows, CALENDAR_DAY, q, b) else 0.0
  {
    OpensAtExactly(gs, rows, start, b);
    if a <= b && sel(b) && OpensAt(rows, start, b) {
      var i: nat :| i < |gs| && gs[i].day == b * 86400;
      assert CALENDAR_DAY(gs[i].day) == b;
      forall j | 0 <= j < |gs| && j != i ensures gs[j].day != b * 86400 {
        assert CALENDAR_DAY(gs[j].day) != CALENDAR_DAY(gs[i].day);
      }
      SelectedOne(gs, q, LastMidnight(sel, a, b), i);
    } else {
      SelectedNone(gs, q, LastMidnight(sel, a, b));
    }
  }

  /** The groups with counted dates hold the energy of the counted days. */
  lemma CountedGroups(rows: seq<Line>, start: nat, q: Quantity, sel: int -> bool, a: int, b: int)
    requires InYearOf(rows, start) && InOrder(rows, start)
    ensures Selected(Groups(rows, start), q, CountedDates(sel, a, b)) == CountedEnergy(rows, start, q, sel, a, b)
  {
    var gs := Groups(rows, start);
    GroupsByDay(rows, start, q.m.dir, CellIn(q));
    GroupsHoldDays(gs, rows, start, CALENDAR_DAY, q);
    SelectedDays(gs, rows, CALENDAR_DAY, q, sel, a, b);
    LastDaySelected(gs, rows, start, q, sel, a, b);
    forall i | 0 <= i < |gs|
      ensures CountedDates(sel, a, b)(gs[i].day) <==>
        OnDays(CALENDAR_DAY, sel, a, b)(gs[i].day) || LastMidnight(sel, a, b)(gs[i].day)
      ensures !(OnDays(CALENDAR_DAY, sel, a, b)(gs[i].day) && LastMidnight(sel, a, b)(gs[i].day))
    {
      DatesApart(sel, a, b, gs[i].day);
    }
    SelectedApart(gs, q, CountedDates(sel, a, b), OnDays(CALENDAR_DAY, sel, a, b), LastMidnight(sel, a, b));
  }

  // ---- The reports ----------------------------------------------------------------------------

  const EVERY_DAY: int -> bool := d => true

  /** The days that fall into a slot. */
  function DaysInSlot(p: Period, slot: int): int -> bool {
    d => d >= 0 && SlotOf(p, d * 86400) == slot
  }

  /** A slot depends on the calendar day only. */
  lemma SlotOfDay(p: Period, t: nat)
    ensures SlotOf(p, t) == SlotOf(p, t / 86400 * 86400)
  {
    var midnight := t / 86400 * 86400;
    assert midnight / 86400 == t / 86400;
    assert ToCivil(t).date == ToCivil(midnight).date;
  }

  lemma {:induction false} EnergyIsSelected(gs: seq<DayGroup>, q: Quantity, a: nat, b: nat)
    ensures Energy(gs, Days(a * 86400, b * 86400), q) == Selected(gs, q, CountedDates(EVERY_DAY, a, b))
  {
    if gs != [] {
      EnergyIsSelected(gs[..|gs| - 1], q, a, b);
    }
  }

  lemma {:induction false} SlotEnergyIsSelected(gs: seq<DayGroup>, q: Quantity, p: Period, slot: nat, a: nat, b: nat)
    ensures SlotEnergy(gs, Days(a * 86400, b * 86400), q, RuleOf(p), slot) ==
            Selected(gs, q, CountedDates(DaysInSlot(p, slot), a, b))
  {
    if gs != [] {
      SlotEnergyIsSelected(gs[..|gs| - 1], q, p, slot, a, b);
      SlotOfDay(p, gs[|gs| - 1].day);
    }
  }

  lemma DaysOfParticipation(meterId: string, from: nat, until: nat, meta: Registry, rule: SlotRule,
                            groups: seq<DayGroup>)
    ensures DaysOf(Finished(Empty(meterId, from, until), meta, rule, groups)) ==
            Days(from / 86400 * 86400, until / 86400 * 86400)
  {
    DatesStay(Empty(meterId, from, until), meta, rule, groups);
  }

  lemma {:induction false} DatesStay(r: MeterReport, meta: Registry, rule: SlotRule, groups: seq<DayGroup>)
    ensures var after := AfterDays(r, meta, rule, groups); after.from == r.from && after.until == r.until
  {
    if groups != [] {
      DatesStay(r, meta, rule, groups[..|groups| - 1]);
    }
  }

  /** What a report shows of cell k of a consumer, in its summary and in each slot. */
  lemma ConsumerCell(meterId: string, from: nat, until: nat, meta: Registry, p: Period, rows: seq<Line>, start: nat,
                     k: nat, slot: nat)
    requires InYearOf(rows, start) && InOrder(rows, start)
    requires meterId in meta && meta[meterId].dir.Consumer? && k < 3 && slot >= 1
    ensures var r := Finished(Empty(meterId, from, until), meta, RuleOf(p), Groups(rows, start));
      var q, a, b := Reported(meta[meterId], k), from / 86400, until / 86400;
      && Field(r.summary, Consumer, k) == CountedEnergy(rows, start, q, EVERY_DAY, a, b)
      && At(SlotField(r.slots, Consumer, k), slot - 1, 0.0) ==
           CountedEnergy(rows, start, q, DaysInSlot(p, slot), a, b)
  {
    var gs, q, a, b := Groups(rows, start), Reported(meta[meterId], k), from / 86400, until / 86400;
    ConsumerReportAgrees(meterId, from, until, meta, RuleOf(p), gs, k);
    DaysOfParticipation(meterId, from, until, meta, RuleOf(p), gs);
    EnergyIsSelected(gs, q, a, b);
    SlotEnergyIsSelected(gs, q, p, slot, a, b);
    CountedGroups(rows, start, q, EVERY_DAY, a, b);
    CountedGroups(rows, start, q, DaysInSlot(p, slot), a, b);
  }

  /** The same for a producer: the breakdown is exact, the summary rounded. */
  lemma ProducerCell(meterId: string, from: nat, until: nat, meta: Registry, p: Period, rows: seq<Line>, start: nat,
                     k: nat, slot: nat)
    requires InYearOf(rows, start) && InOrder(rows, start)
    requires meterId in meta && meta[meterId].dir.Producer? && k < 2 && slot >= 1
    ensures var r := Finished(Empty(meterId, from, until), meta, RuleOf(p), Groups(rows, start));
      var q, a, b := Stored(meta[meterId], k), from / 86400, until / 86400;
      && Field(r.summary, Producer, k) == Round6(CountedEnergy(rows, start, q, EVERY_DAY, a, b))
      && At(SlotField(r.slots, Producer, k), slot - 1, 0.0) ==
           CountedEnergy(rows, start, q, DaysInSlot(p, slot), a, b)
  {
    var gs, q, a, b := Groups(rows, start), Stored(meta[meterId], k), from / 86400, until / 86400;
    ProducerReportAgrees(meterId, from, until, meta, RuleOf(p), gs, k, slot);
    DaysOfParticipation(meterId, from, until, meta, RuleOf(p), gs);
    EnergyIsSelected(gs, q, a, b);
    SlotEnergyIsSelected(gs, q, p, slot, a, b);
    CountedGroups(rows, start, q, EVERY_DAY, a, b);
    CountedGroups(rows, start, q, DaysInSlot(p, slot), a, b);
  }

  /** A consumer's report, from the rows of its calendar year in order: consumption, allocation and
      utilization are the first, second and third cell of the meter, summed and rounded day by day over the
      days of the participation, its last day included only when a group is dated at its midnight; and each
      slot of the breakdown holds the days that fall into it. */
  lemma ConsumerReportShows(meterId: string, from: nat, until: nat, meta: Registry, p: Period, rows: seq<Line>,
                            start: nat, slot: nat)
    requires InYearOf(rows, start) && InOrder(rows, start)
    requires meterId in meta && meta[meterId].dir.Consumer? && slot >= 1
    ensures var r := Finished(Empty(meterId, from, until), meta, RuleOf(p), Groups(rows, start));
      var m, a, b := meta[meterId], from / 86400, until / 86400;
      && r.summary.consumption == CountedEnergy(rows, start, Reported(m, 0), EVERY_DAY, a, b)
      && r.summary.allocation == CountedEnergy(rows, start, Reported(m, 1), EVERY_DAY, a, b)
      && r.summary.utilization == CountedEnergy(rows, start, Reported(m, 2), EVERY_DAY, a, b)
      && At(r.slots.consumption, slot - 1, 0.0) ==
           CountedEnergy(rows, start, Reported(m, 0), DaysInSlot(p, slot), a, b)
      && At(r.slots.allocation, slot - 1, 0.0) ==
           CountedEnergy(rows, start, Reported(m, 1), DaysInSlot(p, slot), a, b)
      && At(r.slots.utilization, slot - 1, 0.0) ==
           CountedEnergy(rows, start, Reported(m, 2), DaysInSlot(p, slot), a, b)
  {
    ConsumerCell(meterId, from, until, meta, p, rows, start, 0, slot);
    ConsumerCell(meterId, from, until, meta, p, rows, start, 1, slot);
    ConsumerCell(meterId, from, until, meta, p, rows, start, 2, slot);
  }

  /** A producer's report: production and allocation are its first and its second cell, exact in the
      breakdown and rounded once in the summary. */
  lemma ProducerReportShows(meterId: string, from: nat, until: nat, meta: Registry, p: Period, rows: seq<Line>,
                            start: nat, slot: nat)
    requires InYearOf(rows, start) && InOrder(rows, start)
    requires meterId in meta && meta[meterId].dir.Producer? && slot >= 1
    ensures var r := Finished(Empty(meterId, from, until), meta, RuleOf(p), Groups(rows, start));
      var m, a, b := meta[meterId], from / 86400, until / 86400;
      && r.summary.production == Round6(CountedEnergy(rows, start, Stored(m, 0), EVERY_DAY, a, b))
      && r.summary.allocation == Round6(CountedEnergy(rows, start, Stored(m, 1), EVERY_DAY, a, b))
      && At(r.slots.production, slot - 1, 0.0) ==
           CountedEnergy(rows, start, Stored(m, 0), DaysInSlot(p, slot), a, b)
      && At(r.slots.allocation, slot - 1, 0.0) ==
           CountedEnergy(rows, start, Stored(m, 1), DaysInSlot(p, slot), a, b)
  {
    ProducerCell(meterId, from, until, meta, p, rows, start, 0, slot);
    ProducerCell(meterId, from, until, meta, p, rows, start, 1, slot);
  }
}
