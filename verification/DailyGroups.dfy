/** The day groups of a stream of rows, and their totals per meter cell. */
module DailyGroups {
  import opened Calendar
  import opened SourceLines

  /** Rows summed under one date: the first date is the start of the report, every other one the
      time of the first row of that day. */
  datatype DayGroup = DayGroup(day: nat, lines: seq<Line>)

  /** The day of the year, from 1. */
  function YearDay(t: nat): (d: nat)
    ensures 1 <= d <= 366
  {
    var n := t / DAY_SECONDS;
    n - DaysBeforeYear(YearOf(n, 0)) + 1
  }

  /** Days of the year are counted from its 1 January, so two times of one calendar year have the same
      number exactly when they lie on the same day. */
  lemma YearDaysApart(s: nat, t: nat)
    requires ToCivil(s).date.year == ToCivil(t).date.year
    ensures YearDay(s) - YearDay(t) == s / DAY_SECONDS - t / DAY_SECONDS
  {
    YearOfDay(s);
    YearOfDay(t);
  }

  lemma YearOfDay(t: nat)
    ensures YearOf(t / DAY_SECONDS, 0) == ToCivil(t).date.year
  {
  }

  /** Rows with a readable id have a time from the year 0 on. */
  predicate InYears(rows: seq<Line>) {
    forall i | 0 <= i < |rows| :: rows[i].id.Row? ==> rows[i].id.time >= 0
  }

  /** A row is summed into the current group, or opens the next one when the day of the year
      changes. Rows without a readable id are skipped. */
  function Extend(groups: seq<DayGroup>, l: Line): (r: seq<DayGroup>)
    requires |groups| > 0 && (l.id.Row? ==> l.id.time >= 0)
    ensures |r| >= |groups|
  {
    var last := groups[|groups| - 1];
    if l.id.NoRow? then groups
    else if YearDay(l.id.time) != YearDay(last.day) then groups + [DayGroup(l.id.time, [l])]
    else groups[..|groups| - 1] + [DayGroup(last.day, last.lines + [l])]
  }

  function Groups(rows: seq<Line>, start: nat): (r: seq<DayGroup>)
    requires InYears(rows)
    ensures |r| > 0
  {
    if rows == [] then [DayGroup(start, [])]
    else Extend(Groups(rows[..|rows| - 1], start), rows[|rows| - 1])
  }

  /** What the rows hold in one cell, added up. */
  function Total(lines: seq<Line>, dir: Direction, cell: nat): real {
    if lines == [] then 0.0
    else Total(lines[..|lines| - 1], dir, cell) + At(Values(lines[|lines| - 1], dir), cell, 0.0)
  }

  function GroupTotals(groups: seq<DayGroup>, dir: Direction, cell: nat): real {
    if groups == [] then 0.0
    else GroupTotals(groups[..|groups| - 1], dir, cell) + Total(groups[|groups| - 1].lines, dir, cell)
  }

  function Readable(rows: seq<Line>): seq<Line> {
    if rows == [] then []
    else if rows[|rows| - 1].id.NoRow? then Readable(rows[..|rows| - 1])
    else Readable(rows[..|rows| - 1]) + [rows[|rows| - 1]]
  }

  lemma TotalAppends(lines: seq<Line>, l: Line, dir: Direction, cell: nat)
    ensures Total(lines + [l], dir, cell) == Total(lines, dir, cell) + At(Values(l, dir), cell, 0.0)
  {
    assert (lines + [l])[..|lines|] == lines;
  }

  lemma GroupTotalsAppend(groups: seq<DayGroup>, g: DayGroup, dir: Direction, cell: nat)
    ensures GroupTotals(groups + [g], dir, cell) == GroupTotals(groups, dir, cell) + Total(g.lines, dir, cell)
  {
    assert (groups + [g])[..|groups|] == groups;
  }

  /** A readable row enters exactly one group. */
  lemma ExtendConserves(groups: seq<DayGroup>, l: Line, dir: Direction, cell: nat)
    requires |groups| > 0 && l.id.Row? && l.id.time >= 0
    ensures GroupTotals(Extend(groups, l), dir, cell) ==
            GroupTotals(groups, dir, cell) + At(Values(l, dir), cell, 0.0)
  {
    var init, last := groups[..|groups| - 1], groups[|groups| - 1];
    if YearDay(l.id.time) != YearDay(last.day) {
      GroupTotalsAppend(groups, DayGroup(l.id.time, [l]), dir, cell);
      TotalAppends([], l, dir, cell);
      assert [] + [l] == [l];
    } else {
      assert groups == init + [last];
      GroupTotalsAppend(init, last, dir, cell);
      GroupTotalsAppend(init, DayGroup(last.day, last.lines + [l]), dir, cell);
      TotalAppends(last.lines, l, dir, cell);
    }
  }

  /** Each readable row falls into exactly one group: no energy is lost or counted twice. */
  lemma {:induction false} GroupsConserve(rows: seq<Line>, start: nat, dir: Direction, cell: nat)
    requires InYears(rows)
    ensures GroupTotals(Groups(rows, start), dir, cell) == Total(Readable(rows), dir, cell)
  {
    if rows == [] {
      GroupTotalsAppend([], DayGroup(start, []), dir, cell);
      assert [] + [DayGroup(start, [])] == [DayGroup(start, [])];
    } else {
      var before, l := rows[..|rows| - 1], rows[|rows| - 1];
      GroupsConserve(before, start, dir, cell);
      if l.id.Row? {
        ExtendConserves(Groups(before, start), l, dir, cell);
        TotalAppends(Readable(before), l, dir, cell);
      }
    }
  }

  /** All rows of a group belong to the group's day of the year. */
  ghost predicate OneDay(g: DayGroup) {
    forall i | 0 <= i < |g.lines| ::
      g.lines[i].id.Row? && g.lines[i].id.time >= 0 && YearDay(g.lines[i].id.time) == YearDay(g.day)
  }

  /** Each group but the first is dated by its first row, which lies on another day than the group
      before. */
  ghost predicate Separated(gs: seq<DayGroup>) {
    forall i: nat | 0 < i < |gs| ::
      YearDay(gs[i - 1].day) != YearDay(gs[i].day) && gs[i].lines != [] && gs[i].lines[0].id == Row(gs[i].day)
  }

  lemma ExtendKeepsDays(groups: seq<DayGroup>, l: Line)
    requires |groups| > 0 && (l.id.Row? ==> l.id.time >= 0)
    requires (forall g | g in groups :: OneDay(g)) && Separated(groups)
    ensures (forall g | g in Extend(groups, l) :: OneDay(g)) && Separated(Extend(groups, l))
    ensures Extend(groups, l)[0].day == groups[0].day
  {
    var last := groups[|groups| - 1];
    assert last in groups;
    if l.id.Row? {
      if YearDay(l.id.time) == YearDay(last.day) {
        assert OneDay(DayGroup(last.day, last.lines + [l]));
      } else {
        assert OneDay(DayGroup(l.id.time, [l]));
      }
    }
  }

  lemma {:induction false} GroupsAreDays(rows: seq<Line>, start: nat)
    requires InYears(rows)
    ensures (forall g | g in Groups(rows, start) :: OneDay(g)) && Separated(Groups(rows, start))
    ensures Groups(rows, start)[0].day == start
  {
    if rows != [] {
      GroupsAreDays(rows[..|rows| - 1], start);
      ExtendKeepsDays(Groups(rows[..|rows| - 1], start), rows[|rows| - 1]);
    }
  }

  predicate Midnight(t: nat) {
    t % DAY_SECONDS == 0
  }

  /** A row opens a day when the readable row before it, or else the start, lies on another day. */
  ghost predicate OpensAtMidnight(rows: seq<Line>, start: nat)
    requires InYears(rows)
  {
    forall i | 0 <= i < |rows| && rows[i].id.Row? ::
      var gs := Groups(rows[..i], start);
      YearDay(rows[i].id.time) == YearDay(gs[|gs| - 1].day) || Midnight(rows[i].id.time)
  }

  /** When every day's first stored row is at midnight, every group is dated at midnight. */
  lemma {:induction false} MidnightGroups(rows: seq<Line>, start: nat)
    requires InYears(rows) && Midnight(start) && OpensAtMidnight(rows, start)
    ensures forall g | g in Groups(rows, start) :: Midnight(g.day)
  {
    if rows != [] {
      var n := |rows| - 1;
      assert forall i | 0 <= i < n :: rows[..n][..i] == rows[..i];
      MidnightGroups(rows[..n], start);
      var gs := Groups(rows[..n], start);
      assert gs[|gs| - 1] in gs;
    }
  }
}
