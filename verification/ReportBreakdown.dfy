/** What participant reports say: summaries are the counted days' energy, breakdowns add up to
    them, rounding stays small, and adjacent participations add up. */
module ReportBreakdown {
  import opened Calendar
  import opened SourceLines
  import opened MeterRegistry
  import opened Numbers
  import opened Decimals
  import opened DailyResults
  import opened DailyGroups
  import opened ReportPeriods
  import opened ParticipantReports

  /** The summary field that holds cell k of a meter. */
  function Field(r: Record, dir: Direction, k: nat): real {
    if dir.Consumer? then (if k == 0 then r.consumption else if k == 1 then r.allocation else r.utilization)
    else (if k == 0 then r.production else r.allocation)
  }

  function SlotField(s: Slots, dir: Direction, k: nat): seq<real> {
    if dir.Consumer? then (if k == 0 then s.consumption else if k == 1 then s.allocation else s.utilization)
    else (if k == 0 then s.production else s.allocation)
  }

  /** A stretch of days, ends included. */
  datatype Days = Days(first: nat, last: nat)

  function DaysOf(r: MeterReport): Days {
    Days(TruncateToDay(r.from), TruncateToDay(r.until))
  }

  predicate In(d: Days, day: nat) {
    d.first <= day <= d.last
  }

  /** One reported value of a meter: cell k as rounded per day, or as stored. */
  datatype Quantity = Reported(m: Meter, k: nat) | Stored(m: Meter, k: nat)

  function Value(q: Quantity, lines: seq<Line>): real {
    match q
    case Reported(m, k) => DayValue(m, lines, k)
    case Stored(m, k) => Total(lines, m.dir, FirstOf(m.dir, m.sourceIdx) + k)
  }

  /** The energy of the counted days. */
  function Energy(groups: seq<DayGroup>, d: Days, q: Quantity): real {
    if groups == [] then 0.0
    else
      var g := groups[|groups| - 1];
      Energy(groups[..|groups| - 1], d, q) + (if In(d, g.day) then Value(q, g.lines) else 0.0)
  }

  /** The energy of the counted days that fall into one slot. */
  function SlotEnergy(groups: seq<DayGroup>, d: Days, q: Quantity, rule: SlotRule, slot: nat): real {
    if groups == [] then 0.0
    else
      var g := groups[|groups| - 1];
      SlotEnergy(groups[..|groups| - 1], d, q, rule, slot) +
        (if In(d, g.day) && rule(g.day) == slot then Value(q, g.lines) else 0.0)
  }

  function CountedDays(groups: seq<DayGroup>, d: Days): nat {
    if groups == [] then 0
    else CountedDays(groups[..|groups| - 1], d) + (if In(d, groups[|groups| - 1].day) then 1 else 0)
  }

  /** Every value of a consumer breakdown has six digits. */
  ghost predicate SlotsOnGrid(s: seq<real>) {
    forall i: nat :: OnGrid(At(s, i, 0.0))
  }

  ghost predicate Gridded(r: MeterReport, dir: Direction, k: nat) {
    dir.Consumer? ==> OnGrid(Field(r.summary, dir, k)) && SlotsOnGrid(SlotField(r.slots, dir, k))
  }

  lemma DayValueOnGrid(m: Meter, lines: seq<Line>, k: nat)
    ensures m.dir.Consumer? ==> OnGrid(DayValue(m, lines, k))
  {
    RoundsToGrid(Total(lines, m.dir, FirstOf(m.dir, m.sourceIdx) + k));
  }

  /** On six-digit numbers the rounding of a slot changes nothing. */
  lemma RoundedSlot(s: seq<real>, slot: nat, v: real)
    requires slot >= 1 && SlotsOnGrid(s) && OnGrid(v)
    ensures AddRounded(s, slot, v) == AddToSlot(s, slot, v)
    ensures SlotsOnGrid(AddToSlot(s, slot, v))
  {
    GridAdds(At(s, slot - 1, 0.0), v);
    RoundsToGrid(At(s, slot - 1, 0.0) + v);
  }

  lemma {:induction false} SlotSum(s: seq<real>, slot: nat, v: real, n: nat)
    requires slot >= 1
    ensures SumAt(AddToSlot(s, slot, v), n) == SumAt(s, n) + if slot <= n then v else 0.0
  {
    if n > 0 {
      SlotSum(s, slot, v, n - 1);
    }
  }

  /** A slot that grows makes the whole breakdown grow by as much. */
  lemma SlotTotal(s: seq<real>, slot: nat, v: real)
    requires slot >= 1
    ensures var t := AddToSlot(s, slot, v); SumAt(t, |t|) == SumAt(s, |s|) + v
  {
    var t := AddToSlot(s, slot, v);
    SlotSum(s, slot, v, |t|);
    SumStops(s, |t|);
  }

  /** What a day adds to a report of the meter. */
  function DayAdds(r: MeterReport, m: Meter, g: DayGroup, k: nat): real {
    if Counted(r, g.day) then DayValue(m, g.lines, k) else 0.0
  }

  lemma RecordField(r: Record, m: Meter, lines: seq<Line>, k: nat)
    requires k < Width(m.dir)
    ensures Field(AddToRecord(r, m, lines), m.dir, k) == Field(r, m.dir, k) + DayValue(m, lines, k)
  {
  }

  lemma SlotsField(s: Slots, m: Meter, lines: seq<Line>, slot: nat, k: nat)
    requires k < Width(m.dir) && slot >= 1
    ensures SlotField(AddToSlots(s, m, lines, slot), m.dir, k) ==
            if m.dir.Consumer? then AddRounded(SlotField(s, m.dir, k), slot, DayValue(m, lines, k))
            else AddToSlot(SlotField(s, m.dir, k), slot, DayValue(m, lines, k))
  {
  }

  lemma DayFields(r: MeterReport, meta: Registry, rule: SlotRule, g: DayGroup, k: nat)
    requires r.meterId in meta && k < Width(meta[r.meterId].dir) && Counted(r, g.day)
    ensures var m := meta[r.meterId]; var after := AfterDay(r, meta, rule, g);
      var s := SlotField(r.slots, m.dir, k); var v := DayValue(m, g.lines, k);
      && Field(after.summary, m.dir, k) == Field(r.summary, m.dir, k) + v
      && SlotField(after.slots, m.dir, k) ==
           if m.dir.Consumer? then AddRounded(s, rule(g.day), v) else AddToSlot(s, rule(g.day), v)
  {
    var m := meta[r.meterId];
    RecordField(r.summary, m, g.lines, k);
    SlotsField(r.slots, m, g.lines, rule(g.day), k);
  }

  /** One day: the summary, the slot and the sum of all slots grow by the same value. */
  lemma DayStep(r: MeterReport, meta: Registry, rule: SlotRule, g: DayGroup, k: nat)
    requires r.meterId in meta && k < Width(meta[r.meterId].dir)
    requires Gridded(r, meta[r.meterId].dir, k)
    ensures var m := meta[r.meterId]; var after := AfterDay(r, meta, rule, g);
      var s := SlotField(after.slots, m.dir, k); var was := SlotField(r.slots, m.dir, k);
      var v := DayAdds(r, m, g, k);
      && Gridded(after, m.dir, k)
      && Field(after.summary, m.dir, k) == Field(r.summary, m.dir, k) + v
      && SumAt(s, |s|) == SumAt(was, |was|) + v
      && (forall i: nat :: At(s, i, 0.0) == At(was, i, 0.0) + if i == rule(g.day) - 1 then v else 0.0)
  {
    var m := meta[r.meterId];
    if Counted(r, g.day) {
      var s, v := SlotField(r.slots, m.dir, k), DayValue(m, g.lines, k);
      DayFields(r, meta, rule, g, k);
      SlotTotal(s, rule(g.day), v);
      if m.dir.Consumer? {
        DayValueOnGrid(m, g.lines, k);
        GridAdds(Field(r.summary, m.dir, k), v);
        RoundedSlot(s, rule(g.day), v);
      }
    }
  }

  /** After any days: summary, slots and the sum of the slots hold exactly the counted energy. */
  lemma {:induction false} ReportHoldsEnergy(r: MeterReport, meta: Registry, rule: SlotRule, groups: seq<DayGroup>,
                                             k: nat)
    requires r.meterId in meta && k < Width(meta[r.meterId].dir)
    requires Gridded(r, meta[r.meterId].dir, k)
    ensures var m := meta[r.meterId]; var after := AfterDays(r, meta, rule, groups);
      var s := SlotField(after.slots, m.dir, k); var was := SlotField(r.slots, m.dir, k);
      && after.meterId == r.meterId && after.from == r.from && after.until == r.until
      && Gridded(after, m.dir, k)
      && Field(after.summary, m.dir, k) == Field(r.summary, m.dir, k) + Energy(groups, DaysOf(r), Reported(m, k))
      && SumAt(s, |s|) == SumAt(was, |was|) + Energy(groups, DaysOf(r), Reported(m, k))
      && forall i: nat :: At(s, i, 0.0) == At(was, i, 0.0) + SlotEnergy(groups, DaysOf(r), Reported(m, k), rule, i + 1)
  {
    if groups != [] {
      var n := |groups| - 1;
      ReportHoldsEnergy(r, meta, rule, groups[..n], k);
      DayStep(AfterDays(r, meta, rule, groups[..n]), meta, rule, groups[n], k);
    }
  }

  lemma EmptyGridded(meterId: string, from: nat, until: nat, dir: Direction, k: nat)
    ensures Gridded(Empty(meterId, from, until), dir, k)
  {
    ZeroOnGrid();
  }

  /** A consumer's report: each summary value is exactly the sum of its breakdown and of the counted
      days, and every slot holds the days that fall into it. The rounding at the end and in the
      slots changes nothing. */
  lemma ConsumerReportAgrees(meterId: string, from: nat, until: nat, meta: Registry, rule: SlotRule,
      groups: seq<DayGroup>, k: nat)
    requires meterId in meta && meta[meterId].dir.Consumer? && k < 3
    ensures var r := Finished(Empty(meterId, from, until), meta, rule, groups);
      var s := SlotField(r.slots, Consumer, k); var q := Reported(meta[meterId], k);
      && Field(r.summary, Consumer, k) == SumAt(s, |s|) == Energy(groups, DaysOf(r), q)
      && forall i: nat :: At(s, i, 0.0) == SlotEnergy(groups, DaysOf(r), q, rule, i + 1)
  {
    var e := Empty(meterId, from, until);
    EmptyGridded(meterId, from, until, Consumer, k);
    ReportHoldsEnergy(e, meta, rule, groups, k);
    RoundsToGrid(Field(AfterDays(e, meta, rule, groups).summary, Consumer, k));
  }

  /** A producer's report: slots hold the exact energy, and the summary is their sum, rounded. */
  lemma ProducerReportAgrees(meterId: string, from: nat, until: nat, meta: Registry, rule: SlotRule,
      groups: seq<DayGroup>, k: nat, slot: nat)
    requires meterId in meta && meta[meterId].dir.Producer? && k < 2 && slot >= 1
    ensures var r := Finished(Empty(meterId, from, until), meta, rule, groups);
      var s := SlotField(r.slots, Producer, k); var q := Stored(meta[meterId], k);
      && Field(r.summary, Producer, k) == Round6(SumAt(s, |s|))
      && SumAt(s, |s|) == Energy(groups, DaysOf(r), q)
      && At(s, slot - 1, 0.0) == SlotEnergy(groups, DaysOf(r), q, rule, slot)
  {
    var e := Empty(meterId, from, until);
    ReportHoldsEnergy(e, meta, rule, groups, k);
    ProducerReports(groups, DaysOf(e), meta[meterId], k);
    ProducerSlots(groups, DaysOf(e), meta[meterId], k, rule, slot);
  }

  lemma {:induction false} ProducerReports(groups: seq<DayGroup>, d: Days, m: Meter, k: nat)
    requires m.dir.Producer?
    ensures Energy(groups, d, Reported(m, k)) == Energy(groups, d, Stored(m, k))
  {
    if groups != [] {
      ProducerReports(groups[..|groups| - 1], d, m, k);
    }
  }

  lemma {:induction false} ProducerSlots(groups: seq<DayGroup>, d: Days, m: Meter, k: nat, rule: SlotRule, slot: nat)
    requires m.dir.Producer?
    ensures SlotEnergy(groups, d, Reported(m, k), rule, slot) == SlotEnergy(groups, d, Stored(m, k), rule, slot)
  {
    if groups != [] {
      ProducerSlots(groups[..|groups| - 1], d, m, k, rule, slot);
    }
  }

  /** Rounding day by day moves the energy of the counted days by at most half a millionth for each. */
  lemma {:induction false} RoundingIsSmall(groups: seq<DayGroup>, d: Days, m: Meter, k: nat)
    ensures var error := Times(CountedDays(groups, d), 0.0000005);
      -error <= Energy(groups, d, Reported(m, k)) - Energy(groups, d, Stored(m, k)) <= error
  {
    if groups != [] {
      var g := groups[|groups| - 1];
      RoundingIsSmall(groups[..|groups| - 1], d, m, k);
      Round6Bound(Value(Stored(m, k), g.lines));
    }
  }

  /** The finished summary of a consumer differs from the stored energy of the counted days by at most
      half a millionth for each of them, and that of a producer by at most half a millionth. */
  lemma SummaryIsClose(meterId: string, from: nat, until: nat, meta: Registry, rule: SlotRule,
      groups: seq<DayGroup>, k: nat)
    requires meterId in meta && k < Width(meta[meterId].dir)
    ensures var r, m := Finished(Empty(meterId, from, until), meta, rule, groups), meta[meterId];
      var stored := Energy(groups, DaysOf(r), Stored(m, k));
      var error := if m.dir.Consumer? then Times(CountedDays(groups, DaysOf(r)), 0.0000005) else 0.0000005;
      -error <= Field(r.summary, m.dir, k) - stored <= error
  {
    var m := meta[meterId];
    if m.dir.Consumer? {
      ConsumerReportAgrees(meterId, from, until, meta, rule, groups, k);
      RoundingIsSmall(groups, DaysOf(Finished(Empty(meterId, from, until), meta, rule, groups)), m, k);
    } else {
      ProducerReportAgrees(meterId, from, until, meta, rule, groups, k, 1);
      Round6Bound(Energy(groups, DaysOf(Finished(Empty(meterId, from, until), meta, rule, groups)), Stored(m, k)));
    }
  }

  /** The energy of the days strictly between two stretches. */
  function Lost(groups: seq<DayGroup>, last: nat, next: nat, q: Quantity): real {
    if groups == [] then 0.0
    else
      var g := groups[|groups| - 1];
      Lost(groups[..|groups| - 1], last, next, q) + (if last < g.day < next then Value(q, g.lines) else 0.0)
  }

  /** Splitting a stretch of days loses exactly the days dated between the two parts. */
  lemma {:induction false} SplitStretch(groups: seq<DayGroup>, first: nat, mid: nat, next: nat, last: nat, q: Quantity)
    requires first <= mid < next <= last
    ensures Energy(groups, Days(first, last), q) ==
            Energy(groups, Days(first, mid), q) + Energy(groups, Days(next, last), q) + Lost(groups, mid, next, q)
  {
    if groups != [] {
      SplitStretch(groups[..|groups| - 1], first, mid, next, last, q);
    }
  }

  lemma {:induction false} MidnightLosesNothing(groups: seq<DayGroup>, mid: nat, q: Quantity)
    requires Midnight(mid) && forall g | g in groups :: Midnight(g.day)
    ensures Lost(groups, mid, mid + DAY_SECONDS, q) == 0.0
  {
    if groups != [] {
      MidnightLosesNothing(groups[..|groups| - 1], mid, q);
      assert groups[|groups| - 1] in groups;
      NoMidnightBetween(groups[|groups| - 1].day, mid);
    }
  }

  lemma NoMidnightBetween(day: nat, mid: nat)
    requires Midnight(day) && Midnight(mid)
    ensures !(mid < day < mid + DAY_SECONDS)
  {
    assert day == day / DAY_SECONDS * DAY_SECONDS && mid == mid / DAY_SECONDS * DAY_SECONDS;
  }

  /** Three participations of one consumer: a stretch, and the same stretch in two parts, the second
      of which starts on the day after the first ends. */
  ghost predicate Adjacent(whole: MeterReport, a: MeterReport, b: MeterReport) {
    && a.meterId == b.meterId == whole.meterId && a.from == whole.from && b.until == whole.until
    && TruncateToDay(b.from) == TruncateToDay(a.until) + DAY_SECONDS
    && a.from <= a.until && b.from <= b.until
  }

  function Blank(r: MeterReport): MeterReport {
    Empty(r.meterId, r.from, r.until)
  }

  lemma TruncatesInOrder(a: nat, b: nat)
    requires a <= b
    ensures TruncateToDay(a) <= TruncateToDay(b) && Midnight(TruncateToDay(a))
  {
    assert TruncateToDay(a) == a / DAY_SECONDS * DAY_SECONDS && TruncateToDay(b) == b / DAY_SECONDS * DAY_SECONDS;
  }

  /** Cell k of a consumer's finished summary. */
  function Summary(r: MeterReport, meta: Registry, rule: SlotRule, groups: seq<DayGroup>, k: nat): real {
    Field(Finished(Blank(r), meta, rule, groups).summary, Consumer, k)
  }

  lemma SummaryIsEnergy(r: MeterReport, meta: Registry, rule: SlotRule, groups: seq<DayGroup>, k: nat)
    requires r.meterId in meta && meta[r.meterId].dir.Consumer? && k < 3
    ensures Summary(r, meta, rule, groups, k) == Energy(groups, DaysOf(r), Reported(meta[r.meterId], k))
  {
    ConsumerReportAgrees(r.meterId, r.from, r.until, meta, rule, groups, k);
    var after := AfterDays(Blank(r), meta, rule, groups);
    EmptyGridded(r.meterId, r.from, r.until, Consumer, k);
    ReportHoldsEnergy(Blank(r), meta, rule, groups, k);
    assert DaysOf(after) == DaysOf(r);
  }

  lemma AdjacentDays(whole: MeterReport, a: MeterReport, b: MeterReport)
    requires Adjacent(whole, a, b)
    ensures DaysOf(a).first <= DaysOf(a).last < DaysOf(b).first <= DaysOf(b).last
    ensures DaysOf(whole) == Days(DaysOf(a).first, DaysOf(b).last)
    ensures Midnight(DaysOf(a).last) && DaysOf(b).first == DaysOf(a).last + DAY_SECONDS
  {
    TruncatesInOrder(a.from, a.until);
    TruncatesInOrder(a.until, a.until);
    TruncatesInOrder(b.from, b.until);
  }

  lemma SplitDays(groups: seq<DayGroup>, w: Days, a: Days, b: Days, q: Quantity)
    requires a.first <= a.last < b.first <= b.last && w == Days(a.first, b.last)
    ensures Energy(groups, w, q) == Energy(groups, a, q) + Energy(groups, b, q) + Lost(groups, a.last, b.first, q)
  {
    SplitStretch(groups, a.first, a.last, b.first, b.last, q);
  }

  /** The unsplit consumer summary is the sum of the two parts plus the days whose first stored row
      lies behind midnight of the last day of the first part. */
  lemma SplitParticipation(whole: MeterReport, a: MeterReport, b: MeterReport, meta: Registry, rule: SlotRule,
      groups: seq<DayGroup>, k: nat)
    requires Adjacent(whole, a, b) && whole.meterId in meta && meta[whole.meterId].dir.Consumer? && k < 3
    ensures Summary(whole, meta, rule, groups, k) ==
            Summary(a, meta, rule, groups, k) + Summary(b, meta, rule, groups, k) +
            Lost(groups, DaysOf(a).last, DaysOf(b).first, Reported(meta[whole.meterId], k))
  {
    SummaryIsEnergy(whole, meta, rule, groups, k);
    SummaryIsEnergy(a, meta, rule, groups, k);
    SummaryIsEnergy(b, meta, rule, groups, k);
    AdjacentDays(whole, a, b);
    SplitDays(groups, DaysOf(whole), DaysOf(a), DaysOf(b), Reported(meta[whole.meterId], k));
  }

  lemma MidnightParts(whole: MeterReport, a: MeterReport, b: MeterReport, meta: Registry, rule: SlotRule,
      groups: seq<DayGroup>, k: nat)
    requires Adjacent(whole, a, b) && whole.meterId in meta && meta[whole.meterId].dir.Consumer? && k < 3
    requires forall g | g in groups :: Midnight(g.day)
    ensures Summary(whole, meta, rule, groups, k) ==
      Summary(a, meta, rule, groups, k) + Summary(b, meta, rule, groups, k)
  {
    SplitParticipation(whole, a, b, meta, rule, groups, k);
    AdjacentDays(whole, a, b);
    MidnightLosesNothing(groups, DaysOf(a).last, Reported(meta[whole.meterId], k));
  }

  /** When every day's first stored row is at midnight, the two parts add up to the whole. */
  lemma ParticipationsAdd(whole: MeterReport, a: MeterReport, b: MeterReport, meta: Registry, rule: SlotRule,
      rows: seq<Line>, start: nat, groups: seq<DayGroup>, k: nat)
    requires Adjacent(whole, a, b) && whole.meterId in meta && meta[whole.meterId].dir.Consumer? && k < 3
    requires InYears(rows) && Midnight(start) && OpensAtMidnight(rows, start) && groups == Groups(rows, start)
    ensures Summary(whole, meta, rule, groups, k) ==
      Summary(a, meta, rule, groups, k) + Summary(b, meta, rule, groups, k)
  {
    MidnightGroups(rows, start);
    MidnightParts(whole, a, b, meta, rule, groups, k);
  }

  /** The last day of a participation counts only when its group is dated at midnight. A group is dated
      by its first stored row, but the first group by the start of the report. */
  lemma CountedExactly(r: MeterReport, day: nat)
    ensures Counted(r, day) <==>
      && TruncateToDay(r.from) <= TruncateToDay(day)
      && (TruncateToDay(day) < TruncateToDay(r.until) ||
        (TruncateToDay(day) == TruncateToDay(r.until) && Midnight(day)))
  {
    var f, u, d := r.from / DAY_SECONDS, r.until / DAY_SECONDS, day / DAY_SECONDS;
    assert TruncateToDay(r.from) == f * DAY_SECONDS;
    assert TruncateToDay(r.until) == u * DAY_SECONDS;
    assert TruncateToDay(day) == d * DAY_SECONDS;
  }

  /** The total of all summaries after the days, and after their rounding. */
  lemma {:induction false} TotalsSurviveRounding(rs: seq<MeterReport>, meta: Registry)
    requires forall r | r in rs :: OnGrid(r.summary.consumption)
    ensures Consumption(AllRounded(rs)) == Consumption(rs)
    ensures var error := Times(|rs|, 0.0000005);
      Production(rs) - error <= Production(AllRounded(rs)) <= Production(rs) + error
  {
    if rs != [] {
      var n := |rs| - 1;
      assert AllRounded(rs)[..n] == AllRounded(rs[..n]);
      TotalsSurviveRounding(rs[..n], meta);
      assert rs[n] in rs;
      RoundsToGrid(rs[n].summary.consumption);
      Round6Bound(rs[n].summary.production);
    }
  }

  lemma ConsumptionOnGrid(r: MeterReport, meta: Registry, rule: SlotRule, groups: seq<DayGroup>)
    requires r == Blank(r)
    ensures OnGrid(AfterDays(r, meta, rule, groups).summary.consumption)
  {
    ZeroOnGrid();
    if r.meterId in meta && meta[r.meterId].dir.Consumer? {
      ReportHoldsEnergy(r, meta, rule, groups, 0);
    } else {
      ConsumptionStaysZero(r, meta, rule, groups);
    }
  }

  lemma {:induction false} ConsumptionStaysZero(r: MeterReport, meta: Registry, rule: SlotRule, groups: seq<DayGroup>)
    requires r.meterId in meta ==> meta[r.meterId].dir.Producer?
    ensures AfterDays(r, meta, rule, groups).summary.consumption == r.summary.consumption
    ensures AfterDays(r, meta, rule, groups).meterId == r.meterId
  {
    if groups != [] {
      ConsumptionStaysZero(r, meta, rule, groups[..|groups| - 1]);
    }
  }

  lemma {:induction false} BlankTotals(rs: seq<MeterReport>)
    requires forall r | r in rs :: r == Blank(r)
    ensures Consumption(rs) == 0.0 && Production(rs) == 0.0
  {
    if rs != [] {
      BlankTotals(rs[..|rs| - 1]);
      assert rs[|rs| - 1] in rs;
    }
  }

  /** A whole run on empty reports: the reported total consumption is exactly the sum of the reported
      consumer summaries, and the total production that of the producer summaries up to half a
      millionth for each report. */
  method Report(reports: seq<MeterReport>, rows: seq<Line>, meta: Registry, info: Info, p: Period, start: nat)
    returns (finished: seq<MeterReport>, totalConsumption: real, totalProduction: real)
    requires InYears(rows) && forall r | r in reports :: r == Blank(r)
    ensures |finished| == |reports|
    ensures forall i | 0 <= i < |reports| :: finished[i] == Finished(reports[i], meta, RuleOf(p), Groups(rows, start))
    ensures totalConsumption == Consumption(finished)
    ensures var error := Times(|reports|, 0.0000005);
      Production(finished) - error <= totalProduction <= Production(finished) + error
  {
    var rule := RuleOf(p);
    var values := new ReportValues(reports);
    BlankTotals(reports);
    values.CalcParticipantReport(rows, meta, info, rule, start);
    finished, totalConsumption, totalProduction := values.reports, values.totalConsumption, values.totalProduction;
    ghost var groups := Groups(rows, start);
    forall r | r in AllAfter(reports, meta, rule, groups) ensures OnGrid(r.summary.consumption) {
      var i :| 0 <= i < |reports| && r == AfterDays(reports[i], meta, rule, groups);
      assert reports[i] in reports;
      ConsumptionOnGrid(reports[i], meta, rule, groups);
    }
    TotalsSurviveRounding(AllAfter(reports, meta, rule, groups), meta);
  }
}
