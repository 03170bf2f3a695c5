/** The daily messages of one import run side by side, and leave what they leave when they are stored
    one after the other. */
module DayJobs {
  import opened SourceLines
  import opened MeterRegistry
  import opened EnergyMessages
  import opened EnergyImport
  import opened DaySplit
  import opened RowJobs

  /** The day of a daily message. */
  function GroupDay(g: Energy, zone: int): int {
    Day(RowOf(g.start, zone))
  }

  /** Everything the message reads or visits lies on its day. */
  ghost predicate StaysInDay(g: Energy, zone: int) {
    && Day(RowOf(g.end, zone)) <= GroupDay(g, zone)
    && forall row | Visits(Organized(g.data), g.data, zone, row) :: Day(row) == GroupDay(g, zone)
  }

  /** Messages of ascending days. */
  ghost predicate Daily(groups: seq<Energy>, zone: int) {
    && (forall i | 0 <= i < |groups| :: StaysInDay(groups[i], zone))
    && (forall i, j | 0 <= i < j < |groups| :: GroupDay(groups[i], zone) < GroupDay(groups[j], zone))
  }

  lemma DayOfInstant(x: int, zone: int)
    ensures Day(RowOf(x, zone)) == (x + zone * 1000) / DAY_MS
  {
    var q, r := x / 1000, x % 1000;
    var p, s := (q + zone) / DAY_SECONDS, (q + zone) % DAY_SECONDS;
    assert x + zone * 1000 == DAY_MS * p + (1000 * s + r);
  }

  /** Local midnights. */
  predicate Midnight(day: int, zone: int, n: int) {
    day + zone * 1000 == n * DAY_MS
  }

  lemma InstantOfDay(x: int, day: int, zone: int, n: int)
    requires Midnight(day, zone, n)
    ensures Day(RowOf(x, zone)) == n <==> day <= x < day + DAY_MS
    ensures x < day + DAY_MS ==> Day(RowOf(x, zone)) <= n
  {
    DayOfInstant(x, zone);
  }

  lemma {:induction false} VisitedValue(mcs: seq<CodeMeta>, data: seq<EnergyData>, zone: int, row: int)
    returns (i: nat, j: nat)
    requires InData(mcs, data) && Visits(mcs, data, zone, row)
    ensures i < |data| && j < |data[i].values| && RowOf(data[i].values[j].from, zone) == row
  {
    i := mcs[|mcs| - 1].sourceInData;
    if HasRow(data[i].values, zone, row) {
      HasRowIff(data[i].values, zone, row);
      j :| 0 <= j < |data[i].values| && RowOf(data[i].values[j].from, zone) == row;
    } else {
      i, j := VisitedValue(mcs[..|mcs| - 1], data, zone, row);
    }
  }

  lemma DayGroupStaysInDay(src: Energy, day: int, zone: int, n: int)
    requires Midnight(day, zone, n) && DayGroup(src, day) != [] && src.start < day + DAY_MS
    ensures var g := DayGroup(src, day)[0]; GroupDay(g, zone) == n && StaysInDay(g, zone)
  {
    var g := DayGroup(src, day)[0];
    InstantOfDay(g.start, day, zone, n);
    InstantOfDay(g.end, day, zone, n);
    forall row | Visits(Organized(g.data), g.data, zone, row)
      ensures Day(row) == n
    {
      var i, j := VisitedValue(Organized(g.data), g.data, zone, row);
      InstantOfDay(g.data[i].values[j].from, day, zone, n);
    }
  }

  lemma {:induction false} GroupsAreDaily(src: Energy, zone: int, first: int, n: int, k: nat, gs: seq<Energy>)
    requires Midnight(first, zone, n) && src.start < first + DAY_MS && gs == Groups(src, first, k)
    ensures Daily(gs, zone) && forall i | 0 <= i < |gs| :: GroupDay(gs[i], zone) < n + k
  {
    if k > 0 {
      var day, rest := DayAt(first, k - 1), Groups(src, first, k - 1);
      GroupsAreDaily(src, zone, first, n, k - 1, rest);
      var g := DayGroup(src, day);
      if g == [] {
        assert gs == rest;
      } else {
        assert gs == rest + [g[0]];
        assert Midnight(day, zone, n + (k - 1));
        DayGroupStaysInDay(src, day, zone, n + (k - 1));
        AppendDaily(rest, g[0], zone, n + (k - 1));
      }
    }
  }

  lemma AppendDaily(groups: seq<Energy>, g: Energy, zone: int, n: int)
    requires Daily(groups, zone) && StaysInDay(g, zone) && GroupDay(g, zone) == n
    requires forall i | 0 <= i < |groups| :: GroupDay(groups[i], zone) < n
    ensures Daily(groups + [g], zone)
    ensures forall i | 0 <= i < |groups + [g]| :: GroupDay((groups + [g])[i], zone) < n + 1
  {
  }

  lemma StartsOnFirstDay(src: Energy, zone: int)
    ensures DayStart(src.start, zone) <= src.start < DayStart(src.start, zone) + DAY_MS
    ensures Midnight(DayStart(src.start, zone), zone, (src.start + zone * 1000) / DAY_MS)
  {
  }

  /** The split of a message is a list of daily messages. */
  lemma SplitIsDaily(src: Energy, zone: int)
    ensures Daily(Split(src, zone), zone)
  {
    StartsOnFirstDay(src, zone);
    GroupsAreDaily(src, zone, DayStart(src.start, zone), (src.start + zone * 1000) / DAY_MS,
                   DayCount(src, zone), Split(src, zone));
  }

  // ---- The daily messages as jobs -------------------------------------------------------

  /** What the jobs of one import share: the meter, the sizes of new rows and the zone. */
  datatype Import = Import(m: Meter, nCons: nat, nProd: nat, zone: int)

  /** The rows a job writes when it fetches from the given rows. */
  function JobWrites(rows: Rows, imp: Import, g: Energy): Rows {
    Written(rows, Day(RowOf(g.start, imp.zone)), Day(RowOf(g.end, imp.zone)), imp.m, imp.nCons, imp.nProd,
            g.data, imp.zone)
  }

  function Tasks(imp: Import, groups: seq<Energy>): (tasks: seq<Task>)
    ensures |tasks| == |groups|
    ensures forall i, rows | 0 <= i < |groups| :: tasks[i](rows) == JobWrites(rows, imp, groups[i])
  {
    seq(|groups|, i requires 0 <= i < |groups| => rows => JobWrites(rows, imp, groups[i]))
  }

  /** The messages stored one after the other. */
  function StoreAll(rows: Rows, imp: Import, groups: seq<Energy>): Rows {
    InSequence(rows, Tasks(imp, groups))
  }

  /** The position of the message whose day a row lies on, -1 if there is none. */
  function OwnerOf(groups: seq<Energy>, zone: int, row: int): (i: int)
    ensures -1 <= i < |groups|
    ensures i >= 0 ==> GroupDay(groups[i], zone) == Day(row)
    ensures i == -1 ==> forall j | 0 <= j < |groups| :: GroupDay(groups[j], zone) != Day(row)
  {
    if groups == [] then -1
    else if GroupDay(groups[|groups| - 1], zone) == Day(row) then |groups| - 1
    else OwnerOf(groups[..|groups| - 1], zone, row)
  }

  lemma OwnerIsDay(groups: seq<Energy>, zone: int, row: int, i: nat)
    requires Daily(groups, zone) && i < |groups|
    ensures OwnerOf(groups, zone, row) == i <==> GroupDay(groups[i], zone) == Day(row)
  {
  }

  /** A job reads only its day and writes only its day. */
  lemma JobIsLocal(rows: Rows, rows': Rows, imp: Import, g: Energy)
    requires StaysInDay(g, imp.zone)
    requires forall row | Day(row) == GroupDay(g, imp.zone) :: Agree(rows, rows', row)
    ensures JobWrites(rows, imp, g) == JobWrites(rows', imp, g)
    ensures forall row | row in JobWrites(rows, imp, g) :: Day(row) == GroupDay(g, imp.zone)
  {
    var first, last := Day(RowOf(g.start, imp.zone)), Day(RowOf(g.end, imp.zone));
    var a, b := Fetched(rows, first, last), Fetched(rows', first, last);
    forall row ensures Agree(a, b, row) {
      if first <= Day(row) <= last {
        assert Agree(rows, rows', row);
      }
    }
    AgreeEverywhere(a, b);
    forall row | row in JobWrites(rows, imp, g) ensures Day(row) == first {
      ImportCodesCells(a, imp.m, imp.nCons, imp.nProd, Organized(g.data), g.data, imp.zone, Consumer, row, 0);
    }
  }

  lemma TasksAreLocal(imp: Import, groups: seq<Energy>)
    requires Daily(groups, imp.zone)
    ensures Local(Tasks(imp, groups), row => OwnerOf(groups, imp.zone, row))
  {
    var tasks, owner := Tasks(imp, groups), (row: int) => OwnerOf(groups, imp.zone, row);
    forall i | 0 <= i < |groups| ensures Reads(tasks[i], owner, i) && RowJobs.Writes(tasks[i], owner, i) {
      forall a: Rows, b: Rows | (forall row | owner(row) == i :: Agree(a, b, row)) ensures tasks[i](a) == tasks[i](b) {
        forall row | Day(row) == GroupDay(groups[i], imp.zone) ensures Agree(a, b, row) {
          OwnerIsDay(groups, imp.zone, row, i);
          assert owner(row) == i;
        }
        JobIsLocal(a, b, imp, groups[i]);
      }
      forall a: Rows, row | row in tasks[i](a) ensures owner(row) == i {
        JobIsLocal(a, a, imp, groups[i]);
        OwnerIsDay(groups, imp.zone, row, i);
      }
    }
  }

  /** The goroutines of one import are serialisable: whatever way their fetches and writes
      interleave, the stored rows are those of the daily messages stored one after the other. */
  lemma ImportIsSerialisable(rows0: Rows, imp: Import, src: Energy, states: seq<State>, steps: seq<Step>)
    requires RowJobs.Run(Tasks(imp, Split(src, imp.zone)), states, steps)
    requires Start(Tasks(imp, Split(src, imp.zone)), states[0], rows0) && Finished(states[|steps|])
    ensures states[|steps|].rows == StoreAll(rows0, imp, Split(src, imp.zone))
  {
    var groups := Split(src, imp.zone);
    SplitIsDaily(src, imp.zone);
    TasksAreLocal(imp, groups);
    RunsAreSerialisable(rows0, Tasks(imp, groups), row => OwnerOf(groups, imp.zone, row), states, steps);
  }

  /** A row ends up as the message of its day alone leaves it. */
  lemma StoreAllRow(rows0: Rows, imp: Import, groups: seq<Energy>, row: int)
    requires Daily(groups, imp.zone)
    ensures var i := OwnerOf(groups, imp.zone, row);
      Agree(StoreAll(rows0, imp, groups),
            if i == -1 then rows0 else StoreRows(rows0, imp.m, imp.nCons, imp.nProd, groups[i], imp.zone), row)
  {
    var tasks, owner := Tasks(imp, groups), (r: int) => OwnerOf(groups, imp.zone, r);
    TasksAreLocal(imp, groups);
    SequenceSettles(rows0, tasks, owner);
    assert Settled(rows0, tasks, owner, InSequence(rows0, tasks), row);
  }

  lemma AgreeingRow(a: Rows, b: Rows, dir: Direction, row: int, c: nat)
    requires Agree(a, b, row)
    ensures Cell(a, dir, row, c) == Cell(b, dir, row, c) && Quality(a, dir, row, c) == Quality(b, dir, row, c)
  {
  }
}
