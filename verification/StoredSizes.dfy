/** How long the stored rows become. The queries index a cache that has the size of all registered
    meters, so they need rows that are not longer. */
module StoredSizes {
  import opened Numbers
  import opened SourceLines
  import opened MeterRegistry
  import opened EnergyMessages
  import opened EnergyImport
  import opened DaySplit
  import opened DayJobs
  import opened WholeImport
  import opened WindowCache

  ghost predicate RowsFit(rows: Rows, sz: Sizes) {
    forall row | row in rows :: Fits(rows[row], sz)
  }

  function SizeOf(sz: Sizes, dir: Direction): nat {
    if dir.Consumer? then sz.nCons else sz.nProd
  }

  // ---- One code -----------------------------------------------------------------------------

  lemma NextValueFits(prev: Rows, m: Meter, sz: Sizes, cell: nat, v: EnergyValue, at: int, seen: bool)
    requires RowsFit(prev, sz) && cell < Cells(sz, m.dir)
    requires seen ==> at in prev && cell < |Values(prev[at], m.dir)|
    ensures RowsFit(NextValue(prev, m, sz.nCons, sz.nProd, cell, v, at, seen), sz)
  {
  }

  lemma {:induction false} ImportValuesFit(rows: Rows, m: Meter, sz: Sizes, delta: nat, vs: seq<EnergyValue>, zone: int)
    requires RowsFit(rows, sz) && (vs == [] || Base(m) + delta < Cells(sz, m.dir))
    ensures RowsFit(ImportValues(rows, m, sz.nCons, sz.nProd, delta, vs, zone), sz)
  {
    if vs != [] {
      var rest, v := vs[..|vs| - 1], vs[|vs| - 1];
      ImportValuesFit(rows, m, sz, delta, rest, zone);
      NextValueFits(ImportValues(rows, m, sz.nCons, sz.nProd, delta, rest, zone), m, sz, Base(m) + delta, v,
        RowOf(v.from, zone), HasRow(rest, zone, RowOf(v.from, zone)));
    }
  }

  /** A row never becomes shorter. */
  ghost predicate NoShorter(a: Rows, b: Rows, dir: Direction, row: int) {
    row in a ==> row in b && |Values(a[row], dir)| <= |Values(b[row], dir)|
  }

  lemma {:induction false} ImportValuesGrow(rows: Rows, m: Meter, sz: Sizes, delta: nat, vs: seq<EnergyValue>,
                                            zone: int, dir: Direction, row: int)
    ensures NoShorter(rows, ImportValues(rows, m, sz.nCons, sz.nProd, delta, vs, zone), dir, row)
  {
    if vs != [] {
      ImportValuesGrow(rows, m, sz, delta, vs[..|vs| - 1], zone, dir, row);
    }
  }

  // ---- All codes ----------------------------------------------------------------------------

  /** Every code with a value has its cell inside the cache. */
  ghost predicate CodesInside(m: Meter, sz: Sizes, mcs: seq<CodeMeta>, data: seq<EnergyData>)
    requires InData(mcs, data)
  {
    forall k | 0 <= k < |mcs| ::
      data[mcs[k].sourceInData].values == [] || Base(m) + mcs[k].sourceDelta < Cells(sz, m.dir)
  }

  lemma {:induction false} ImportCodesFit(rows: Rows, m: Meter, sz: Sizes, mcs: seq<CodeMeta>, data: seq<EnergyData>,
                                          zone: int)
    requires InData(mcs, data) && RowsFit(rows, sz) && CodesInside(m, sz, mcs, data)
    ensures RowsFit(ImportCodes(rows, m, sz.nCons, sz.nProd, mcs, data, zone), sz)
  {
    if mcs != [] {
      var rest, mc := mcs[..|mcs| - 1], mcs[|mcs| - 1];
      ImportCodesFit(rows, m, sz, rest, data, zone);
      SortedIsSort(data[mc.sourceInData].values);
      assert |multiset(SortedValues(mc, data))| == |multiset(data[mc.sourceInData].values)|;
      ImportValuesFit(ImportCodes(rows, m, sz.nCons, sz.nProd, rest, data, zone), m, sz, mc.sourceDelta,
        SortedValues(mc, data), zone);
    }
  }

  /** A written cell is stored. */
  lemma {:induction false} WrittenIsStored(rows: Rows, m: Meter, sz: Sizes, mcs: seq<CodeMeta>, data: seq<EnergyData>,
                                           zone: int, row: int, delta: nat)
    requires InData(mcs, data) && EnergyImport.Writes(mcs, data, zone, row, delta)
    ensures var r := ImportCodes(rows, m, sz.nCons, sz.nProd, mcs, data, zone);
      row in r && Base(m) + delta < |Values(r[row], m.dir)|
  {
    var rest, mc := mcs[..|mcs| - 1], mcs[|mcs| - 1];
    var prev := ImportCodes(rows, m, sz.nCons, sz.nProd, rest, data, zone);
    SortedRow(data[mc.sourceInData].values, zone, row);
    if !(mc.sourceDelta == delta && HasRow(data[mc.sourceInData].values, zone, row)) {
      WrittenIsStored(rows, m, sz, rest, data, zone, row, delta);
      ImportValuesGrow(prev, m, sz, mc.sourceDelta, SortedValues(mc, data), zone, m.dir, row);
    }
  }

  // ---- One message --------------------------------------------------------------------------

  /** Coverage sent for the last producer is the only value whose cell lies behind all meters. */
  predicate StaysInside(m: Meter, sz: Sizes, data: seq<EnergyData>) {
    CodesFit(m, data) || m.sourceIdx + 1 < sz.nProd
  }

  lemma CellsInside(m: Meter, sz: Sizes, data: seq<EnergyData>)
    requires m.sourceIdx < SizeOf(sz, m.dir) && StaysInside(m, sz, data)
    ensures CodesInside(m, sz, Organized(data), data)
  {
  }

  lemma FetchedFit(rows: Rows, first: int, last: int, sz: Sizes)
    requires RowsFit(rows, sz)
    ensures RowsFit(Fetched(rows, first, last), sz)
  {
  }

  lemma StoreFits(rows: Rows, m: Meter, sz: Sizes, e: Energy, zone: int)
    requires m.sourceIdx < SizeOf(sz, m.dir) && StaysInside(m, sz, e.data) && RowsFit(rows, sz)
    ensures RowsFit(StoreRows(rows, m, sz.nCons, sz.nProd, e, zone), sz)
  {
    var first, last := Day(RowOf(e.start, zone)), Day(RowOf(e.end, zone));
    FetchedFit(rows, first, last, sz);
    CellsInside(m, sz, e.data);
    ImportCodesFit(Fetched(rows, first, last), m, sz, Organized(e.data), e.data, zone);
  }

  /** The row of a coverage value sent for the last producer is too long. */
  lemma CoverageOverflows(rows: Rows, m: Meter, sz: Sizes, e: Energy, zone: int) returns (row: int)
    requires m.sourceIdx < SizeOf(sz, m.dir) && !StaysInside(m, sz, e.data)
    ensures row in Written(rows, Day(RowOf(e.start, zone)), Day(RowOf(e.end, zone)), m, sz.nCons, sz.nProd, e.data,
      zone)
    ensures var r := StoreRows(rows, m, sz.nCons, sz.nProd, e, zone); row in r && !Fits(r[row], sz)
  {
    var i :| 0 <= i < |e.data| && e.data[i].code == Cover && e.data[i].values != [];
    row := RowOf(e.data[i].values[0].from, zone);
    CoverageWrites(e, zone, i);
    WrittenIsStored(Fetched(rows, Day(RowOf(e.start, zone)), Day(RowOf(e.end, zone))), m, sz, Organized(e.data), e.data,
      zone, row, 2);
  }

  /** Storing a message keeps the rows of every store inside the cache exactly when no coverage value is
      sent for the last producer. */
  lemma StoreFitsExactly(m: Meter, sz: Sizes, e: Energy, zone: int)
    requires m.sourceIdx < SizeOf(sz, m.dir)
    ensures (forall rows | RowsFit(rows, sz) :: RowsFit(StoreRows(rows, m, sz.nCons, sz.nProd, e, zone), sz))
       <==> StaysInside(m, sz, e.data)
  {
    if StaysInside(m, sz, e.data) {
      forall rows | RowsFit(rows, sz) ensures RowsFit(StoreRows(rows, m, sz.nCons, sz.nProd, e, zone), sz) {
        StoreFits(rows, m, sz, e, zone);
      }
    } else {
      var row := CoverageOverflows(map[], m, sz, e, zone);
      assert RowsFit(map[], sz);
    }
  }

  // ---- A whole message ----------------------------------------------------------------------

  /** The import of a whole message keeps the rows of every store inside the cache. */
  ghost predicate ImportFits(imp: Import, src: Energy) {
    var sz := Sizes(imp.nCons, imp.nProd);
    forall rows | RowsFit(rows, sz) :: RowsFit(StoreAll(rows, imp, Split(src, imp.zone)), sz)
  }

  lemma GroupOverflows(imp: Import, src: Energy, i: nat)
    requires imp.m.sourceIdx < SizeOf(Sizes(imp.nCons, imp.nProd), imp.m.dir) && i < |Split(src, imp.zone)|
    requires !StaysInside(imp.m, Sizes(imp.nCons, imp.nProd), Split(src, imp.zone)[i].data)
    ensures !ImportFits(imp, src)
  {
    var sz, groups, rows: Rows := Sizes(imp.nCons, imp.nProd), Split(src, imp.zone), map[];
    var row := CoverageOverflows(rows, imp.m, sz, groups[i], imp.zone);
    SplitIsDaily(src, imp.zone);
    JobIsLocal(rows, rows, imp, groups[i]);
    assert row in JobWrites(rows, imp, groups[i]);
    OwnerIsDay(groups, imp.zone, row, i);
    StoreAllRow(rows, imp, groups, row);
    assert RowsFit(rows, sz) && row in StoreAll(rows, imp, groups);
  }

  lemma RowStaysInside(rows: Rows, imp: Import, src: Energy, row: int)
    requires imp.m.sourceIdx < SizeOf(Sizes(imp.nCons, imp.nProd), imp.m.dir)
    requires RowsFit(rows, Sizes(imp.nCons, imp.nProd)) && row in StoreAll(rows, imp, Split(src, imp.zone))
    requires forall g | g in Split(src, imp.zone) :: StaysInside(imp.m, Sizes(imp.nCons, imp.nProd), g.data)
    ensures Fits(StoreAll(rows, imp, Split(src, imp.zone))[row], Sizes(imp.nCons, imp.nProd))
  {
    var groups := Split(src, imp.zone);
    SplitIsDaily(src, imp.zone);
    StoreAllRow(rows, imp, groups, row);
    var i := OwnerOf(groups, imp.zone, row);
    if i >= 0 {
      assert groups[i] in groups;
      StoreFits(rows, imp.m, Sizes(imp.nCons, imp.nProd), groups[i], imp.zone);
    }
  }

  /** So does the import of a whole message exactly when no coverage value inside the message is sent
      for the last producer. */
  lemma ImportFitsExactly(imp: Import, src: Energy)
    requires imp.m.sourceIdx < SizeOf(Sizes(imp.nCons, imp.nProd), imp.m.dir)
    ensures ImportFits(imp, src) <==> !SpillsOver(imp.m, src) || imp.m.sourceIdx + 1 < imp.nProd
  {
    var sz, groups := Sizes(imp.nCons, imp.nProd), Split(src, imp.zone);
    GroupsFitExactly(imp.m, src, imp.zone);
    if !SpillsOver(imp.m, src) || imp.m.sourceIdx + 1 < imp.nProd {
      forall rows | RowsFit(rows, sz) ensures RowsFit(StoreAll(rows, imp, groups), sz) {
        forall row | row in StoreAll(rows, imp, groups) ensures Fits(StoreAll(rows, imp, groups)[row], sz) {
          RowStaysInside(rows, imp, src, row);
        }
      }
    } else {
      var g :| g in groups && !CodesFit(imp.m, g.data);
      var i: nat :| i < |groups| && groups[i] == g;
      GroupOverflows(imp, src, i);
    }
  }

  // ---- The length of a row ------------------------------------------------------------------

  /** The two lists of a direction. */
  datatype List = ValueList | MarkList

  function SizeIn(l: Line, list: List, dir: Direction): nat {
    if list.ValueList? then |Values(l, dir)| else |Qualities(l, dir)|
  }

  /** The length of a list. A new row starts with one cell for each meter of the direction, and with one mark
      for each consumer in both. */
  function Length(rows: Rows, sz: Sizes, list: List, dir: Direction, row: int): nat {
    if row in rows then SizeIn(rows[row], list, dir) else if list.ValueList? then SizeOf(sz, dir) else sz.nCons
  }

  /** Cells that reach behind the end make the row longer. */
  function Grown(length: nat, own: bool, base: nat, reach: nat): nat {
    if own && reach > 0 then Max(length, base + reach) else length
  }

  lemma GrownTwice(length: nat, own: bool, base: nat, a: nat, b: nat)
    ensures Grown(Grown(length, own, base, a), own, base, b) == Grown(length, own, base, Max(a, b))
  {
  }

  lemma {:induction false} ValuesLength(rows: Rows, m: Meter, sz: Sizes, delta: nat, vs: seq<EnergyValue>, zone: int,
                                        list: List, dir: Direction, row: int)
    ensures Length(ImportValues(rows, m, sz.nCons, sz.nProd, delta, vs, zone), sz, list, dir, row) ==
      Grown(Length(rows, sz, list, dir, row), dir == m.dir, Base(m), if HasRow(vs, zone, row) then delta + 1 else 0)
  {
    if vs != [] {
      ValuesLength(rows, m, sz, delta, vs[..|vs| - 1], zone, list, dir, row);
    }
  }

  /** The number of cells of its meter that the listed codes reach in a row. */
  function Reach(mcs: seq<CodeMeta>, data: seq<EnergyData>, zone: int, row: int): nat
    requires InData(mcs, data)
  {
    if mcs == [] then 0
    else
      var mc := mcs[|mcs| - 1];
      Max(Reach(mcs[..|mcs| - 1], data, zone, row),
          if HasRow(data[mc.sourceInData].values, zone, row) then mc.sourceDelta + 1 else 0)
  }

  lemma CodeLength(prev: Rows, m: Meter, sz: Sizes, mc: CodeMeta, data: seq<EnergyData>, zone: int, list: List,
                   dir: Direction, row: int)
    requires mc.sourceInData < |data|
    ensures
      Length(ImportValues(prev, m, sz.nCons, sz.nProd, mc.sourceDelta, SortedValues(mc, data), zone), sz, list, dir,
        row) ==
      Grown(Length(prev, sz, list, dir, row), dir == m.dir, Base(m),
            if HasRow(data[mc.sourceInData].values, zone, row) then mc.sourceDelta + 1 else 0)
  {
    var sorted := SortedValues(mc, data);
    assert HasRow(sorted, zone, row) <==> HasRow(data[mc.sourceInData].values, zone, row) by {
      SortedRow(data[mc.sourceInData].values, zone, row);
    }
    ValuesLength(prev, m, sz, mc.sourceDelta, sorted, zone, list, dir, row);
  }

  lemma NextCodeLength(rows: Rows, prev: Rows, m: Meter, sz: Sizes, mcs: seq<CodeMeta>, data: seq<EnergyData>,
                       zone: int, list: List, dir: Direction, row: int, n: nat)
    requires InData(mcs, data) && mcs != []
    requires prev == ImportCodes(rows, m, sz.nCons, sz.nProd, mcs[..|mcs| - 1], data, zone)
    requires Length(prev, sz, list, dir, row) ==
      Grown(n, dir == m.dir, Base(m), Reach(mcs[..|mcs| - 1], data, zone, row))
    ensures Length(ImportCodes(rows, m, sz.nCons, sz.nProd, mcs, data, zone), sz, list, dir, row) ==
            Grown(n, dir == m.dir, Base(m), Reach(mcs, data, zone, row))
  {
    var mc := mcs[|mcs| - 1];
    CodeLength(prev, m, sz, mc, data, zone, list, dir, row);
    GrownTwice(n, dir == m.dir, Base(m), Reach(mcs[..|mcs| - 1], data, zone, row),
      if HasRow(data[mc.sourceInData].values, zone, row) then mc.sourceDelta + 1 else 0);
  }

  lemma {:induction false} CodesLength(rows: Rows, m: Meter, sz: Sizes, mcs: seq<CodeMeta>, data: seq<EnergyData>,
                                       zone: int, list: List, dir: Direction, row: int)
    requires InData(mcs, data)
    ensures Length(ImportCodes(rows, m, sz.nCons, sz.nProd, mcs, data, zone), sz, list, dir, row) ==
      Grown(Length(rows, sz, list, dir, row), dir == m.dir, Base(m), Reach(mcs, data, zone, row))
  {
    if mcs != [] {
      var rest := mcs[..|mcs| - 1];
      CodesLength(rows, m, sz, rest, data, zone, list, dir, row);
      NextCodeLength(rows, ImportCodes(rows, m, sz.nCons, sz.nProd, rest, data, zone), m, sz, mcs, data, zone, list,
        dir, row, Length(rows, sz, list, dir, row));
    }
  }

  /** Fetching gives a row as many marks as cells. */
  lemma FetchedLength(rows: Rows, first: int, last: int, sz: Sizes, list: List, dir: Direction, row: int)
    requires row in rows ==> first <= Day(row) <= last
    ensures Length(Fetched(rows, first, last), sz, list, dir, row) ==
            if row in rows then |Values(rows[row], dir)| else Length(rows, sz, list, dir, row)
  {
  }

  lemma WrittenLength(rows: Rows, w: Rows, sz: Sizes, list: List, dir: Direction, row: int, n: nat)
    requires row in w && Length(w, sz, list, dir, row) == n
    ensures row in rows + w && SizeIn((rows + w)[row], list, dir) == n
  {
  }

  /** A stored row grows to the last cell that is written, and no further, with its marks; a new one starts
      with as many cells as there are meters in each direction, and as many marks as there are consumers. */
  lemma StoredLength(rows: Rows, m: Meter, sz: Sizes, e: Energy, zone: int, w: Rows, list: List, dir: Direction,
                     row: int)
    requires w == Written(rows, Day(RowOf(e.start, zone)), Day(RowOf(e.end, zone)), m, sz.nCons, sz.nProd, e.data, zone)
    requires row in w && (row in rows ==> InDays(e, zone, row))
    ensures row in rows + w && StoreRows(rows, m, sz.nCons, sz.nProd, e, zone) == rows + w
    ensures SizeIn((rows + w)[row], list, dir) ==
      Grown(if row in rows then |Values(rows[row], dir)| else if list.ValueList? then SizeOf(sz, dir) else sz.nCons,
            dir == m.dir, Base(m), Reach(Organized(e.data), e.data, zone, row))
  {
    var first, last := Day(RowOf(e.start, zone)), Day(RowOf(e.end, zone));
    var f := Fetched(rows, first, last);
    FetchedLength(rows, first, last, sz, list, dir, row);
    CodesLength(f, m, sz, Organized(e.data), e.data, zone, list, dir, row);
    WrittenLength(rows, w, sz, list, dir, row,
      Grown(Length(f, sz, list, dir, row), dir == m.dir, Base(m), Reach(Organized(e.data), e.data, zone, row)));
  }

  // ---- Runs ---------------------------------------------------------------------------------

  /** What is stored: the registered meters and the rows. */
  datatype Stored = Stored(meta: Registry, rows: Rows)

  /** One message of a metering point, as StoreEnergy handles it. */
  datatype Job = Job(point: string, e: Energy)

  function SizesOf(meta: Registry): Sizes {
    Sizes(|Names(meta, Consumer)|, |Names(meta, Producer)|)
  }

  ghost predicate Handled(s: Stored, job: Job, zone: int, s': Stored) {
    && Registered(s.meta, job.point, ExamineDirection(job.e.data), s'.meta)
    && job.point in s'.meta
    && s'.rows == StoreRows(s.rows, s'.meta[job.point], SizesOf(s'.meta).nCons, SizesOf(s'.meta).nProd, job.e, zone)
  }

  ghost predicate StoreRun(states: seq<Stored>, jobs: seq<Job>, zone: int) {
    && |states| == |jobs| + 1 && states[0] == Stored(map[], map[])
    && forall k | 0 <= k < |jobs| :: Handled(states[k], jobs[k], zone, states[k + 1])
  }

  /** No message of the run sends coverage for the producer that is the last one then. */
  ghost predicate NoneOverflows(states: seq<Stored>, jobs: seq<Job>)
    requires |states| == |jobs| + 1
  {
    forall k | 0 <= k < |jobs| && jobs[k].point in states[k + 1].meta ::
      StaysInside(states[k + 1].meta[jobs[k].point], SizesOf(states[k + 1].meta), jobs[k].e.data)
  }

  lemma NamesGrow(before: Registry, name: string, dir: Direction, after: Registry, d: Direction)
    requires Registered(before, name, dir, after)
    ensures |Names(before, d)| <= |Names(after, d)|
  {
    if name !in before {
      var m :| IsMaxIdx(before, before.Keys, dir, m) && after == before[name := Meter(dir, m + 1)];
      assert Names(after, d) == if d == dir then Names(before, d) + {name} else Names(before, d);
    }
  }

  lemma FitsMore(rows: Rows, a: Sizes, b: Sizes)
    requires RowsFit(rows, a) && a.nCons <= b.nCons && a.nProd <= b.nProd
    ensures RowsFit(rows, b)
  {
  }

  lemma IndexBelowCount(meta: Registry, name: string)
    requires Dense(meta) && name in meta
    ensures meta[name].sourceIdx < SizeOf(SizesOf(meta), meta[name].dir)
  {
    assert DenseIn(meta, meta[name].dir);
    assert name in Names(meta, meta[name].dir);
    assert Taken(meta, meta[name].dir, meta[name].sourceIdx);
  }

  lemma HandledFits(s: Stored, job: Job, zone: int, s': Stored)
    requires Handled(s, job, zone, s') && Dense(s.meta) && RowsFit(s.rows, SizesOf(s.meta))
    requires StaysInside(s'.meta[job.point], SizesOf(s'.meta), job.e.data)
    ensures Dense(s'.meta) && RowsFit(s'.rows, SizesOf(s'.meta))
  {
    var dir := ExamineDirection(job.e.data);
    RegisterKeepsDense(s.meta, job.point, dir, s'.meta);
    NamesGrow(s.meta, job.point, dir, s'.meta, Consumer);
    NamesGrow(s.meta, job.point, dir, s'.meta, Producer);
    FitsMore(s.rows, SizesOf(s.meta), SizesOf(s'.meta));
    IndexBelowCount(s'.meta, job.point);
    StoreFits(s.rows, s'.meta[job.point], SizesOf(s'.meta), job.e, zone);
  }

  /** In every state of every run of registrations and stores from the empty store in which that never
      happens, indices are dense, marks lie inside the values, and every row fits the cache of the
      meters registered so far. */
  lemma {:induction false} RunFits(states: seq<Stored>, jobs: seq<Job>, zone: int, n: nat)
    requires StoreRun(states, jobs, zone) && NoneOverflows(states, jobs) && n < |states|
    ensures Dense(states[n].meta) && AllCovered(states[n].rows) && RowsFit(states[n].rows, SizesOf(states[n].meta))
  {
    if n == 0 {
      EmptyIsDense();
    } else {
      RunFits(states, jobs, zone, n - 1);
      assert Handled(states[n - 1], jobs[n - 1], zone, states[n]);
      HandledFits(states[n - 1], jobs[n - 1], zone, states[n]);
      StoreKeepsCovered(states[n - 1].rows, states[n].meta[jobs[n - 1].point], SizesOf(states[n].meta).nCons,
        SizesOf(states[n].meta).nProd, jobs[n - 1].e, zone);
    }
  }

  lemma EmptyIsDense()
    ensures Dense(map[])
  {
    forall dir ensures DenseIn(map[], dir) {
      assert Names(map[], dir) == {};
    }
  }
}
