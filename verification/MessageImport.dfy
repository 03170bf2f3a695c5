/** The import of the messages of a metering point: each is split by day and its days are stored, the
    first of them registering an unknown point. */
module MessageImport {
  import opened SourceLines
  import opened MeterRegistry
  import opened EnergyMessages
  import opened EnergyImport
  import opened MeterPeriods
  import opened DaySplit
  import opened DayJobs
  import opened RowJobs
  import opened WholeImport

  /** What the imports of a registered point share. */
  function ImportOf(meta: Registry, point: string, zone: int): Import
    requires point in meta
  {
    Import(meta[point], |Names(meta, Consumer)|, |Names(meta, Producer)|, zone)
  }

  /** What storing the days of a message one after the other leaves: the point is registered with the
      direction of the day that is stored first. */
  ghost predicate DaysStored(meta: Registry, rows: Rows, point: string, groups: seq<Energy>, zone: int,
                             meta': Registry, rows': Rows) {
    if groups == [] then meta' == meta && rows' == rows
    else
      && Registered(meta, point, ExamineDirection(groups[0].data), meta')
      && point in meta'
      && rows' == StoreAll(rows, ImportOf(meta', point, zone), groups)
  }

  lemma NextDayStored(rows: Rows, imp: Import, groups: seq<Energy>, k: nat)
    requires k < |groups|
    ensures StoreAll(rows, imp, groups[..k + 1]) ==
            StoreRows(StoreAll(rows, imp, groups[..k]), imp.m, imp.nCons, imp.nProd, groups[k], imp.zone)
  {
    var tasks, next := Tasks(imp, groups[..k]), Tasks(imp, groups[..k + 1]);
    var prev := StoreAll(rows, imp, groups[..k]);
    assert groups[..k + 1][..k] == groups[..k];
    SameTasks(rows, next[..k], tasks, imp, groups[..k]);
  }

  /** Tasks that write the same leave the same. */
  lemma {:induction false} SameTasks(rows: Rows, a: seq<Task>, b: seq<Task>, imp: Import, groups: seq<Energy>)
    requires |a| == |b| == |groups|
    requires forall i, r | 0 <= i < |groups| :: a[i](r) == b[i](r) == JobWrites(r, imp, groups[i])
    ensures InSequence(rows, a) == InSequence(rows, b)
  {
    if a != [] {
      SameTasks(rows, a[..|a| - 1], b[..|b| - 1], imp, groups[..|groups| - 1]);
    }
  }

  /** Stores the days in the given order, day k at time clock(k). */
  method StoreDays(db: BowStorage, point: string, groups: seq<Energy>, zone: int, clock: nat -> int)
    modifies db, db.metadata
    ensures DaysStored(old(db.metadata.meta), old(db.rows), point, groups, zone, db.metadata.meta, db.rows)
    ensures PeriodOf(db.periods, point) == WidenedBy(PeriodOf(old(db.periods), point), groups, zone, clock)
  {
    ghost var meta0, rows0, period0 := db.metadata.meta, db.rows, PeriodOf(db.periods, point);
    for k := 0 to |groups|
      invariant DaysStored(meta0, rows0, point, groups[..k], zone, db.metadata.meta, db.rows)
      invariant PeriodOf(db.periods, point) == WidenedBy(period0, groups[..k], zone, clock)
    {
      db.StoreEnergy(point, groups[k], zone, clock(k));
      WidenedNext(period0, groups, zone, clock, k);
      ghost var imp := ImportOf(db.metadata.meta, point, zone);
      NextDayStored(rows0, imp, groups, k);
      if k == 0 {
        assert groups[..0] == [];
        assert StoreAll(rows0, imp, groups[..0]) == rows0;
      }
      assert groups[..k + 1][0] == groups[0];
    }
    assert groups[..|groups|] == groups;
  }

  /** The state after all messages of a point, each with its days in order. */
  ghost predicate AllImported(meta: Registry, rows: Rows, point: string, messages: seq<Energy>, zone: int,
                              meta': Registry, rows': Rows) {
    if messages == [] then meta' == meta && rows' == rows
    else
      exists m: Registry, r: Rows ::
        && AllImported(meta, rows, point, messages[..|messages| - 1], zone, m, r)
        && LastImported(m, r, point, messages, zone, meta', rows')
  }

  ghost predicate LastImported(meta: Registry, rows: Rows, point: string, messages: seq<Energy>, zone: int,
                               meta': Registry, rows': Rows)
    requires messages != []
  {
    DaysStored(meta, rows, point, Split(messages[|messages| - 1], zone), zone, meta', rows')
  }

  lemma NextImported(meta: Registry, rows: Rows, point: string, messages: seq<Energy>, k: nat, zone: int,
                     m: Registry, r: Rows, meta': Registry, rows': Rows)
    requires k < |messages| && AllImported(meta, rows, point, messages[..k], zone, m, r)
    requires DaysStored(m, r, point, Split(messages[k], zone), zone, meta', rows')
    ensures AllImported(meta, rows, point, messages[..k + 1], zone, meta', rows')
  {
    assert messages[..k + 1][..k] == messages[..k];
    assert LastImported(m, r, point, messages[..k + 1], zone, meta', rows');
  }

  /** The messages of a metering point. */
  method ImportMessages(db: BowStorage, point: string, messages: seq<Energy>, zone: int, clock: (nat, nat) -> int)
    modifies db, db.metadata
    ensures AllImported(old(db.metadata.meta), old(db.rows), point, messages, zone, db.metadata.meta, db.rows)
  {
    for i := 0 to |messages|
      invariant AllImported(old(db.metadata.meta), old(db.rows), point, messages[..i], zone, db.metadata.meta, db.rows)
    {
      ghost var m, r := db.metadata.meta, db.rows;
      var groups := SplitEnergyByDay(messages[i], zone);
      var n: nat := i;
      StoreDays(db, point, groups, zone, (k: nat) => clock(n, k));
      NextImported(old(db.metadata.meta), old(db.rows), point, messages, i, zone, m, r, db.metadata.meta, db.rows);
    }
    assert messages[..|messages|] == messages;
  }

  // ---- The direction of an unknown point ------------------------------------------------------

  predicate IsGeneration(code: Code) {
    code in {Plus, PlusTF, Gen, GenTF}
  }

  /** A generation or surplus code has a value that touches the window. */
  ghost predicate Generates(data: seq<EnergyData>, lo: int, hi: int) {
    exists code :: IsGeneration(code) && HasEntry(data, code, lo, hi)
  }

  lemma PartDirection(data: seq<EnergyData>, lo: int, hi: int)
    ensures ExamineDirection(DayData(data, lo, hi)).Producer? <==> Generates(data, lo, hi)
  {
    var part := DayData(data, lo, hi);
    if i :| 0 <= i < |part| && IsGeneration(part[i].code) {
      assert HasCode(part, part[i].code);
      DayDataExactly(data, part[i].code, lo, hi);
    }
    if code :| IsGeneration(code) && HasEntry(data, code, lo, hi) {
      DayDataExactly(data, code, lo, hi);
    }
  }

  lemma WholeDirection(data: seq<EnergyData>, lo: int, hi: int)
    requires Generates(data, lo, hi)
    ensures ExamineDirection(data).Producer?
  {
    var code :| IsGeneration(code) && HasEntry(data, code, lo, hi);
    var k :| 0 <= k < |data| && data[k].code == code && AnyTouches(data[k].values, lo, hi);
  }

  lemma PartAgrees(data: seq<EnergyData>, lo: int, hi: int)
    ensures ExamineDirection(DayData(data, lo, hi)) == ExamineDirection(data) <==>
            ExamineDirection(data).Consumer? || Generates(data, lo, hi)
  {
    PartDirection(data, lo, hi);
    if Generates(data, lo, hi) {
      WholeDirection(data, lo, hi);
    }
  }

  /** A daily message names its window by its start and its end. */
  lemma GroupWindow(src: Energy, zone: int, g: Energy)
    requires g in Split(src, zone)
    ensures g.data == DayData(src.data, g.start, g.end + QUARTER_MS)
  {
    var i: nat :| i < |Split(src, zone)| && g == Split(src, zone)[i];
    var day := SplitOrigin(src, zone, i);
  }

  /** A daily message gives an unknown point the direction that the whole message has exactly when the
      whole message has no generation code, or has a generation value on this day. */
  lemma DirectionAgreesExactly(src: Energy, zone: int, g: Energy)
    requires g in Split(src, zone)
    ensures ExamineDirection(g.data) == ExamineDirection(src.data) <==>
            ExamineDirection(src.data).Consumer? || Generates(src.data, g.start, g.end + QUARTER_MS)
  {
    GroupWindow(src, zone, g);
    PartAgrees(src.data, g.start, g.end + QUARTER_MS);
  }

  /** Days of different directions register an unknown point differently, so the day that is stored
      first decides, whichever it is. */
  lemma FirstDayDecides(meta: Registry, rows: Rows, point: string, a: seq<Energy>, b: seq<Energy>, zone: int,
                        ma: Registry, ra: Rows, mb: Registry, rb: Rows)
    requires point !in meta && a != [] && b != []
    requires DaysStored(meta, rows, point, a, zone, ma, ra) && DaysStored(meta, rows, point, b, zone, mb, rb)
    ensures ma == mb <==> ExamineDirection(a[0].data) == ExamineDirection(b[0].data)
  {
    var da, db := ExamineDirection(a[0].data), ExamineDirection(b[0].data);
    var i :| IsMaxIdx(meta, meta.Keys, da, i) && ma == meta[point := Meter(da, i + 1)];
    var j :| IsMaxIdx(meta, meta.Keys, db, j) && mb == meta[point := Meter(db, j + 1)];
    assert ma[point] == Meter(da, i + 1) && mb[point] == Meter(db, j + 1);
    if da == db {
      OneMaxIdx(meta, da, i, j);
    }
  }
}
