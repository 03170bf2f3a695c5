/** Participant reports: the daily totals of a meter, rounded and added up over the days of its
    participation, in one summary and in the slots of a breakdown. */
module ParticipantReports {
  import opened Calendar
  import opened SourceLines
  import opened MeterRegistry
  import opened Decimals
  import opened Matrices
  import opened DailyResults
  import opened DailyGroups
  import opened ReportPeriods

  datatype Record = Record(consumption: real, utilization: real, allocation: real, production: real)

  datatype Slots =
    Slots(consumption: seq<real>, utilization: seq<real>, allocation: seq<real>, production: seq<real>)

  /** One participation of a meter. From and until are local seconds. */
  datatype MeterReport = MeterReport(meterId: string, from: nat, until: nat, summary: Record, slots: Slots)

  function Empty(meterId: string, from: nat, until: nat): MeterReport {
    MeterReport(meterId, from, until, Record(0.0, 0.0, 0.0, 0.0), Slots([], [], [], []))
  }

  function TruncateToDay(t: nat): nat {
    t - t % DAY_SECONDS
  }

  /** Days are counted from midnight of the first through midnight of the last day. */
  predicate Counted(r: MeterReport, day: nat) {
    TruncateToDay(r.from) <= day <= TruncateToDay(r.until)
  }

  /** What the daily results say about a meter: rounded for consumers, exact for producers. */
  function DayValue(m: Meter, lines: seq<Line>, k: nat): real {
    var total := Total(lines, m.dir, FirstOf(m.dir, m.sourceIdx) + k);
    if m.dir.Consumer? then Round6(total) else total
  }

  /** Cells of a consumer are its consumption, its share and its own use. */
  function AddToRecord(r: Record, m: Meter, lines: seq<Line>): Record {
    match m.dir
    case Consumer =>
      r.(consumption := r.consumption + DayValue(m, lines, 0),
         allocation := r.allocation + DayValue(m, lines, 1),
         utilization := r.utilization + DayValue(m, lines, 2))
    case Producer =>
      r.(production := r.production + DayValue(m, lines, 0), allocation := r.allocation + DayValue(m, lines, 1))
  }

  /** EnsureIntermediatValueSlice: at least so many slots. */
  function Ensured(s: seq<real>, size: nat): (r: seq<real>)
    ensures |r| == if size > |s| then size else |s|
    ensures forall i: nat :: At(r, i, 0.0) == At(s, i, 0.0)
  {
    if size > |s| then Resized(s, size, 0.0) else s
  }

  function AddToSlot(s: seq<real>, slot: nat, v: real): (r: seq<real>)
    requires slot >= 1
    ensures |r| >= slot && |r| >= |s|
    ensures forall i: nat :: At(r, i, 0.0) == if i == slot - 1 then At(s, i, 0.0) + v else At(s, i, 0.0)
  {
    var t := Ensured(s, slot);
    t[slot - 1 := t[slot - 1] + v]
  }

  function AddRounded(s: seq<real>, slot: nat, v: real): (r: seq<real>)
    requires slot >= 1
    ensures |r| >= slot && |r| >= |s|
    ensures forall i: nat :: At(r, i, 0.0) == if i == slot - 1 then Round6(At(s, i, 0.0) + v) else At(s, i, 0.0)
  {
    var t := Ensured(s, slot);
    t[slot - 1 := Round6(t[slot - 1] + v)]
  }

  function AddToSlots(s: Slots, m: Meter, lines: seq<Line>, slot: nat): Slots
    requires slot >= 1
  {
    match m.dir
    case Consumer =>
      s.(consumption := AddRounded(s.consumption, slot, DayValue(m, lines, 0)),
         allocation := AddRounded(s.allocation, slot, DayValue(m, lines, 1)),
         utilization := AddRounded(s.utilization, slot, DayValue(m, lines, 2)))
    case Producer =>
      s.(production := AddToSlot(s.production, slot, DayValue(m, lines, 0)),
         allocation := AddToSlot(s.allocation, slot, DayValue(m, lines, 1)))
  }

  function AfterDay(r: MeterReport, meta: Registry, rule: SlotRule, g: DayGroup): MeterReport {
    if r.meterId in meta && Counted(r, g.day) then
      var m := meta[r.meterId];
      r.(summary := AddToRecord(r.summary, m, g.lines),
         slots := AddToSlots(r.slots, m, g.lines, rule(g.day)))
    else r
  }

  function AfterDays(r: MeterReport, meta: Registry, rule: SlotRule, groups: seq<DayGroup>): MeterReport {
    if groups == [] then r
    else AfterDay(AfterDays(r, meta, rule, groups[..|groups| - 1]), meta, rule, groups[|groups| - 1])
  }

  function RoundRecord(r: Record): Record {
    Record(Round6(r.consumption), Round6(r.utilization), Round6(r.allocation), Round6(r.production))
  }

  /** The finished report. */
  function Finished(r: MeterReport, meta: Registry, rule: SlotRule, groups: seq<DayGroup>): MeterReport {
    var after := AfterDays(r, meta, rule, groups);
    after.(summary := RoundRecord(after.summary))
  }

  function Consumption(rs: seq<MeterReport>): real {
    if rs == [] then 0.0 else Consumption(rs[..|rs| - 1]) + rs[|rs| - 1].summary.consumption
  }

  function Production(rs: seq<MeterReport>): real {
    if rs == [] then 0.0 else Production(rs[..|rs| - 1]) + rs[|rs| - 1].summary.production
  }

  lemma {:induction false} TotalsUpdate(rs: seq<MeterReport>, i: nat, r: MeterReport)
    requires i < |rs|
    ensures Consumption(rs[i := r]) == Consumption(rs) - rs[i].summary.consumption + r.summary.consumption
    ensures Production(rs[i := r]) == Production(rs) - rs[i].summary.production + r.summary.production
  {
    var n := |rs| - 1;
    if i < n {
      assert rs[i := r][..n] == rs[..n][i := r];
      TotalsUpdate(rs[..n], i, r);
    } else {
      assert rs[i := r][..n] == rs[..n];
    }
  }

  /** The five results are the totals of these rows. */
  ghost predicate Sums(res: CalcResults, lines: seq<Line>)
    reads res, res.Repr()
  {
    && (forall s: nat :: Cell(res.rCons, s) == Total(lines, Consumer, s * 3))
    && (forall s: nat :: Cell(res.rShar, s) == Total(lines, Consumer, s * 3 + 1))
    && (forall s: nat :: Cell(res.rAlloc, s) == Total(lines, Consumer, s * 3 + 2))
    && (forall s: nat :: Cell(res.rProd, s) == Total(lines, Producer, s * 2))
    && (forall s: nat :: Cell(res.rDist, s) == Total(lines, Producer, s * 2 + 1))
  }

  /** Rounding a column in place and reading one cell of it. */
  method RoundedElm(m: Matrix, s: nat) returns (v: real)
    requires Column(m)
    modifies m
    ensures Column(m) && v == Cell(m, s)
    ensures forall i: nat :: Cell(m, i) == Round6(old(Cell(m, i)))
  {
    m.RoundToFixed();
    v := m.GetElm(s, 0);
    ColumnCell(m, s);
    forall i: nat ensures Cell(m, i) == Round6(old(Cell(m, i))) {
      ColumnCell(m, i);
      assert old(m.GetElm(i, 0)) == old(Cell(m, i));
      ZeroOnGrid();
      RoundsToGrid(0.0);
      if i < m.rows {
        assert m.GetElm(i, 0) == Round6(old(m.GetElm(i, 0)));
      }
    }
  }

  /** Columns that have been rounded any number of times. */
  ghost predicate RoundsTo(m: Matrix, lines: seq<Line>, k: nat)
    reads m
  {
    Column(m) && forall s: nat :: Round6(Cell(m, s)) == Round6(Total(lines, Consumer, s * 3 + k))
  }

  method ReadRounded(m: Matrix, s: nat, ghost lines: seq<Line>, ghost k: nat) returns (v: real)
    requires RoundsTo(m, lines, k)
    modifies m
    ensures RoundsTo(m, lines, k) && v == Round6(Total(lines, Consumer, s * 3 + k))
  {
    v := RoundedElm(m, s);
    forall i: nat ensures Round6(Cell(m, i)) == Round6(Total(lines, Consumer, i * 3 + k)) {
      RoundsToGrid(old(Cell(m, i)));
      RoundsToGrid(Cell(m, i));
    }
  }

  /** The results of a day while reports are read from them. */
  ghost predicate ReadyToRead(res: CalcResults, lines: seq<Line>)
    reads res, res.Repr()
  {
    && Distinct(res.rCons, res.rShar, res.rAlloc, res.rProd, res.rDist)
    && RoundsTo(res.rCons, lines, 0) && RoundsTo(res.rShar, lines, 1) && RoundsTo(res.rAlloc, lines, 2)
    && Column(res.rProd) && (forall s: nat :: Cell(res.rProd, s) == Total(lines, Producer, s * 2))
    && Column(res.rDist) && (forall s: nat :: Cell(res.rDist, s) == Total(lines, Producer, s * 2 + 1))
  }

  /** The three values of a consumer on a day. */
  method ReadConsumer(res: CalcResults, s: nat, ghost lines: seq<Line>) returns (v0: real, v1: real, v2: real)
    requires ReadyToRead(res, lines)
    modifies res.rCons, res.rShar, res.rAlloc
    ensures ReadyToRead(res, lines)
    ensures v0 == Round6(Total(lines, Consumer, s * 3 + 0))
    ensures v1 == Round6(Total(lines, Consumer, s * 3 + 1))
    ensures v2 == Round6(Total(lines, Consumer, s * 3 + 2))
  {
    v0 := ReadRounded(res.rCons, s, lines, 0);
    v1 := ReadRounded(res.rShar, s, lines, 1);
    v2 := ReadRounded(res.rAlloc, s, lines, 2);
  }

  function WithConsumer(r: MeterReport, slot: nat, v0: real, v1: real, v2: real): MeterReport
    requires slot >= 1
  {
    var s, t := r.summary, r.slots;
    r.(summary := s.(consumption := s.consumption + v0, allocation := s.allocation + v1,
                     utilization := s.utilization + v2),
       slots := t.(consumption := AddRounded(t.consumption, slot, v0), allocation := AddRounded(t.allocation, slot, v1),
                   utilization := AddRounded(t.utilization, slot, v2)))
  }

  lemma ConsumerAdds(r: MeterReport, m: Meter, slot: nat, lines: seq<Line>)
    requires slot >= 1 && m.dir.Consumer?
    ensures WithConsumer(r, slot, DayValue(m, lines, 0), DayValue(m, lines, 1), DayValue(m, lines, 2)) ==
            r.(summary := AddToRecord(r.summary, m, lines), slots := AddToSlots(r.slots, m, lines, slot))
  {
  }

  /** Adds the day's values of a consumer, rounded, to one of its reports. */
  method AppendConsumer(res: CalcResults, m: Meter, r: MeterReport, slot: nat, ghost lines: seq<Line>)
    returns (after: MeterReport, consumption: real)
    requires ReadyToRead(res, lines) && slot >= 1 && m.dir.Consumer?
    modifies res.rCons, res.rShar, res.rAlloc
    ensures ReadyToRead(res, lines)
    ensures after == r.(summary := AddToRecord(r.summary, m, lines), slots := AddToSlots(r.slots, m, lines, slot))
    ensures consumption == DayValue(m, lines, 0)
  {
    var v0, v1, v2 := ReadConsumer(res, m.sourceIdx, lines);
    after, consumption := WithConsumer(r, slot, v0, v1, v2), v0;
    ConsumerAdds(r, m, slot, lines);
  }

  /** Adds the day's values of a producer to one of its reports. */
  method AppendProducer(res: CalcResults, m: Meter, r: MeterReport, slot: nat, ghost lines: seq<Line>)
    returns (after: MeterReport, production: real)
    requires ReadyToRead(res, lines) && slot >= 1 && m.dir.Producer?
    ensures after == r.(summary := AddToRecord(r.summary, m, lines), slots := AddToSlots(r.slots, m, lines, slot))
    ensures production == DayValue(m, lines, 0)
  {
    ColumnCell(res.rProd, m.sourceIdx);
    ColumnCell(res.rDist, m.sourceIdx);
    var v0 := res.rProd.GetElm(m.sourceIdx, 0);
    var v1 := res.rDist.GetElm(m.sourceIdx, 0);
    var s, t := r.summary, r.slots;
    s := s.(production := s.production + v0, allocation := s.allocation + v1);
    t := t.(production := AddToSlot(t.production, slot, v0), allocation := AddToSlot(t.allocation, slot, v1));
    after, production := r.(summary := s, slots := t), v0;
  }

  /** Adds the day to a report that participates on it, and leaves any other report alone. */
  method AppendDay(res: CalcResults, meta: Registry, rule: SlotRule, r: MeterReport, day: nat, ghost lines: seq<Line>)
    returns (after: MeterReport, consumption: real, production: real)
    requires ReadyToRead(res, lines)
    modifies res.rCons, res.rShar, res.rAlloc
    ensures ReadyToRead(res, lines) && after == AfterDay(r, meta, rule, DayGroup(day, lines))
    ensures after.summary.consumption == r.summary.consumption + consumption
    ensures after.summary.production == r.summary.production + production
  {
    after, consumption, production := r, 0.0, 0.0;
    if r.meterId in meta && TruncateToDay(r.from) <= day && day <= TruncateToDay(r.until) {
      var m, slot := meta[r.meterId], rule(day);
      match m.dir {
        case Consumer => after, consumption := AppendConsumer(res, m, r, slot, lines);
        case Producer => after, production := AppendProducer(res, m, r, slot, lines);
      }
    }
  }

  /** Adds one row to the results of a day. */
  method AddRow(res: CalcResults, row: Line, ghost lines: seq<Line>)
    requires res.Valid() && Sums(res, lines)
    modifies res, res.Repr()
    ensures res.Valid() && Sums(res, lines + [row])
  {
    res.AppendResults(Copy(row));
    forall dir, cell
      ensures Total(lines + [row], dir, cell) == Total(lines, dir, cell) + At(Values(row, dir), cell, 0.0)
    {
      TotalAppends(lines, row, dir, cell);
    }
  }

  /** One day for all reports. */
  function AllDay(rs: seq<MeterReport>, meta: Registry, rule: SlotRule, g: DayGroup): (r: seq<MeterReport>)
    ensures |r| == |rs| && forall i | 0 <= i < |r| :: r[i] == AfterDay(rs[i], meta, rule, g)
  {
    seq(|rs|, i requires 0 <= i < |rs| => AfterDay(rs[i], meta, rule, g))
  }

  /** The given days for all reports, not yet rounded. */
  function AllAfter(rs: seq<MeterReport>, meta: Registry, rule: SlotRule, groups: seq<DayGroup>): (r: seq<MeterReport>)
    ensures |r| == |rs| && forall i | 0 <= i < |r| :: r[i] == AfterDays(rs[i], meta, rule, groups)
  {
    seq(|rs|, i requires 0 <= i < |rs| => AfterDays(rs[i], meta, rule, groups))
  }

  ghost predicate DayDone(was: seq<MeterReport>, now: seq<MeterReport>, i: nat, meta: Registry, rule: SlotRule,
                          g: DayGroup) {
    i < |was| && i < |now| && now[i] == AfterDay(was[i], meta, rule, g)
  }

  lemma AllDaysDone(was: seq<MeterReport>, now: seq<MeterReport>, meta: Registry, rule: SlotRule, g: DayGroup)
    requires |now| == |was| && forall i | 0 <= i < |was| :: DayDone(was, now, i, meta, rule, g)
    ensures now == AllDay(was, meta, rule, g)
  {
    forall i | 0 <= i < |was| ensures now[i] == AllDay(was, meta, rule, g)[i] {
      assert DayDone(was, now, i, meta, rule, g);
    }
  }

  lemma OneMoreDone(was: seq<MeterReport>, now: seq<MeterReport>, next: seq<MeterReport>, n: nat, meta: Registry,
      rule: SlotRule, g: DayGroup)
    requires n < |was| == |now| && next == now[n := AfterDay(was[n], meta, rule, g)]
    requires forall i | 0 <= i < n :: DayDone(was, now, i, meta, rule, g)
    ensures forall i | 0 <= i < n + 1 :: DayDone(was, next, i, meta, rule, g)
  {
    forall i | 0 <= i < n + 1 ensures DayDone(was, next, i, meta, rule, g) {
      assert i < n ==> DayDone(was, now, i, meta, rule, g);
    }
  }

  function AllRounded(rs: seq<MeterReport>): (r: seq<MeterReport>)
    ensures |r| == |rs| && forall i | 0 <= i < |r| :: r[i] == rs[i].(summary := RoundRecord(rs[i].summary))
  {
    seq(|rs|, i requires 0 <= i < |rs| => rs[i].(summary := RoundRecord(rs[i].summary)))
  }

  lemma NextDay(rs: seq<MeterReport>, meta: Registry, rule: SlotRule, groups: seq<DayGroup>, g: DayGroup)
    ensures AllDay(AllAfter(rs, meta, rule, groups), meta, rule, g) == AllAfter(rs, meta, rule, groups + [g])
  {
    assert (groups + [g])[..|groups|] == groups;
  }

  lemma GroupsNext(rows: seq<Line>, start: nat, i: nat)
    requires InYears(rows) && i < |rows|
    ensures Groups(rows[..i + 1], start) == Extend(Groups(rows[..i], start), rows[i])
  {
    assert rows[..i + 1][..i] == rows[..i];
  }

  /** How the next readable row changes the groups. */
  lemma NextRow(done: seq<DayGroup>, g: DayGroup, row: Line)
    requires row.id.Row? && row.id.time >= 0
    ensures Extend(done + [g], row) ==
            if YearDay(row.id.time) == YearDay(g.day) then done + [DayGroup(g.day, g.lines + [row])]
            else done + [g] + [DayGroup(row.id.time, [] + [row])]
  {
    assert (done + [g])[..|done|] == done;
    assert [] + [row] == [row];
  }

  class ReportValues {
    var reports: seq<MeterReport>
    var totalConsumption: real
    var totalProduction: real

    constructor (reports: seq<MeterReport>)
      ensures this.reports == reports && totalConsumption == 0.0 && totalProduction == 0.0
    {
      this.reports, totalConsumption, totalProduction := reports, 0.0, 0.0;
    }

    /** What the totals hold beyond the summaries; a run never changes it. */
    ghost function Extra(): (real, real)
      reads this
    {
      (totalConsumption - Consumption(reports), totalProduction - Production(reports))
    }

    /** Puts one report back and keeps the totals in step. */
    method Replace(n: nat, after: MeterReport, consumption: real, production: real)
      requires n < |reports|
      requires after.summary.consumption == reports[n].summary.consumption + consumption
      requires after.summary.production == reports[n].summary.production + production
      modifies this
      ensures reports == old(reports)[n := after] && Extra() == old(Extra())
    {
      TotalsUpdate(reports, n, after);
      totalConsumption := totalConsumption + consumption;
      totalProduction := totalProduction + production;
      reports := reports[n := after];
    }

    /** Adds one day to every report that participates on it. */
    method AppendEnergyToParticipantMeter(res: CalcResults, meta: Registry, rule: SlotRule, day: nat,
        ghost lines: seq<Line>)
      requires res.Valid() && Sums(res, lines)
      modifies this, res.rCons, res.rShar, res.rAlloc
      ensures reports == AllDay(old(reports), meta, rule, DayGroup(day, lines)) && Extra() == old(Extra())
    {
      ghost var was, g := reports, DayGroup(day, lines);
      for n := 0 to |reports|
        invariant |reports| == |was| && Extra() == old(Extra()) && ReadyToRead(res, lines)
        invariant forall i | 0 <= i < n :: DayDone(was, reports, i, meta, rule, g)
        invariant forall i | n <= i < |reports| :: reports[i] == was[i]
      {
        var after, consumption, production := AppendDay(res, meta, rule, reports[n], day, lines);
        OneMoreDone(was, reports, reports[n := after], n, meta, rule, g);
        Replace(n, after, consumption, production);
      }
      AllDaysDone(was, reports, meta, rule, g);
    }

    /** The callback of a finished day, and empty results for the next one. */
    method CloseDay(res: CalcResults, meta: Registry, info: Info, rule: SlotRule, day: nat, ghost lines: seq<Line>)
      returns (next: CalcResults)
      requires res.Valid() && Sums(res, lines)
      modifies this, res.rCons, res.rShar, res.rAlloc
      ensures fresh(next) && fresh(next.Repr()) && next.Valid() && Sums(next, [])
      ensures reports == AllDay(old(reports), meta, rule, DayGroup(day, lines)) && Extra() == old(Extra())
    {
      AppendEnergyToParticipantMeter(res, meta, rule, day, lines);
      next := new CalcResults(info.consumerCount, info.producerCount);
    }

    /** One readable row: closes the day when the row lies on another one, and adds the row. The
        ghost results are the finished groups and the rows of the current one. */
    method ReadRow(res: CalcResults, meta: Registry, info: Info, rule: SlotRule, day: nat, row: Line,
        ghost was: seq<MeterReport>, ghost done: seq<DayGroup>, ghost lines: seq<Line>)
      returns (next: CalcResults, nextDay: nat, ghost nowDone: seq<DayGroup>, ghost nowLines: seq<Line>)
      requires res.Valid() && Sums(res, lines) && row.id.Row? && row.id.time >= 0
      requires reports == AllAfter(was, meta, rule, done)
      modifies this, res, res.Repr()
      ensures next.Valid() && Sums(next, nowLines) && (next == res || (fresh(next) && fresh(next.Repr())))
      ensures reports == AllAfter(was, meta, rule, nowDone) && Extra() == old(Extra())
      ensures nowDone + [DayGroup(nextDay, nowLines)] == Extend(done + [DayGroup(day, lines)], row)
    {
      next, nextDay, nowDone, nowLines := res, day, done, lines;
      NextRow(done, DayGroup(day, lines), row);
      if YearDay(row.id.time) != YearDay(day) {
        NextDay(was, meta, rule, done, DayGroup(day, lines));
        next := CloseDay(res, meta, info, rule, day, lines);
        nextDay, nowDone, nowLines := row.id.time, done + [DayGroup(day, lines)], [];
      }
      AddRow(next, row, nowLines);
      nowLines := nowLines + [row];
    }

    /** Reads the rows once and closes a day whenever the day of the year changes. The last day is
        left open. */
    method ReadRows(rows: seq<Line>, meta: Registry, info: Info, rule: SlotRule, start: nat)
      returns (summary: CalcResults, day: nat, ghost done: seq<DayGroup>, ghost lines: seq<Line>)
      requires InYears(rows)
      modifies this
      ensures fresh(summary) && fresh(summary.Repr()) && summary.Valid() && Sums(summary, lines)
      ensures Groups(rows, start) == done + [DayGroup(day, lines)]
      ensures reports == AllAfter(old(reports), meta, rule, done) && Extra() == old(Extra())
    {
      summary := new CalcResults(info.consumerCount, info.producerCount);
      day, done, lines := start, [], [];
      for i := 0 to |rows|
        invariant Groups(rows[..i], start) == done + [DayGroup(day, lines)]
        invariant fresh(summary) && fresh(summary.Repr()) && summary.Valid() && Sums(summary, lines)
        invariant reports == AllAfter(old(reports), meta, rule, done) && Extra() == old(Extra())
      {
        GroupsNext(rows, start, i);
        if rows[i].id.Row? {
          summary, day, done, lines := ReadRow(summary, meta, info, rule, day, rows[i], old(reports), done, lines);
        }
      }
      assert rows[..|rows|] == rows;
    }

    /** Adds up all days and rounds all summaries in the end. */
    method CalcParticipantReport(rows: seq<Line>, meta: Registry, info: Info, rule: SlotRule, start: nat)
      requires InYears(rows)
      modifies this
      ensures reports == AllRounded(AllAfter(old(reports), meta, rule, Groups(rows, start)))
      ensures totalConsumption == old(Extra()).0 + Consumption(AllAfter(old(reports), meta, rule, Groups(rows, start)))
      ensures totalProduction == old(Extra()).1 + Production(AllAfter(old(reports), meta, rule, Groups(rows, start)))
    {
      var summary, day, done, lines := ReadRows(rows, meta, info, rule, start);
      AppendEnergyToParticipantMeter(summary, meta, rule, day, lines);
      NextDay(old(reports), meta, rule, done, DayGroup(day, lines));
      RoundAll();
    }

    /** The final rounding of every summary. */
    method RoundAll()
      modifies this`reports
      ensures reports == AllRounded(old(reports))
    {
      for n := 0 to |reports|
        invariant |reports| == |old(reports)|
        invariant forall i | 0 <= i < n ::
          reports[i] == old(reports)[i].(summary := RoundRecord(old(reports)[i].summary))
        invariant forall i | n <= i < |reports| :: reports[i] == old(reports)[i]
      {
        reports := reports[n := reports[n].(summary := RoundRecord(reports[n].summary))];
      }
    }
  }
}
