/** Import of the readings of one meter: fetch the rows of the days, merge the values, write all
    fetched rows back. */
module EnergyImport {
  import opened SourceLines
  import opened MeterRegistry
  import opened EnergyMessages
  import opened MeterPeriods

  type Rows = map<int, Line>

  const DAY_SECONDS: int := 86400

  function Day(row: int): int {
    row / DAY_SECONDS
  }

  function Cell(rows: Rows, dir: Direction, row: int, c: nat): real {
    if row in rows then At(Values(rows[row], dir), c, 0.0) else 0.0
  }

  function Quality(rows: Rows, dir: Direction, row: int, c: nat): int {
    if row in rows then At(Qualities(rows[row], dir), c, 0) else 0
  }

  ghost predicate AllCovered(rows: Rows) {
    forall row | row in rows :: Covered(rows[row])
  }

  // ---- Merging one value ----------------------------------------------------------------

  /** The first cell of a meter. */
  function Base(m: Meter): nat {
    FirstOf(m.dir, m.sourceIdx)
  }

  /** First visit of a row by a code: the value replaces the cell and its quality. */
  function SetValue(l: Line, dir: Direction, c: nat, v: EnergyValue): Line {
    match dir
    case Consumer => l.(consumers := Insert(l.consumers, c, v.value, 0.0),
                        qovConsumers := Insert(l.qovConsumers, c, CastQoV(v.method_), 0))
    case Producer => l.(producers := Insert(l.producers, c, v.value, 0.0),
                        qovProducers := Insert(l.qovProducers, c, CastQoV(v.method_), 0))
  }

  /** Later visits add to the cell, which has no bounds check of its own. */
  function SumValue(l: Line, dir: Direction, c: nat, v: EnergyValue): Line
    requires c < |Values(l, dir)|
  {
    match dir
    case Consumer => l.(consumers := l.consumers[c := l.consumers[c] + v.value])
    case Producer => l.(producers := l.producers[c := l.producers[c] + v.value])
  }

  /** The rows after the values of one code were merged in the listed order. */
  function ImportValues(rows: Rows, m: Meter, nCons: nat, nProd: nat, delta: nat, vs: seq<EnergyValue>,
                        zone: int): (r: Rows)
    ensures forall row | HasRow(vs, zone, row) :: row in r && Base(m) + delta < |Values(r[row], m.dir)|
  {
    if vs == [] then rows
    else
      var rest, v := vs[..|vs| - 1], vs[|vs| - 1];
      var prev := ImportValues(rows, m, nCons, nProd, delta, rest, zone);
      var row := RowOf(v.from, zone);
      NextValue(prev, m, nCons, nProd, Base(m) + delta, v, row, HasRow(rest, zone, row))
  }

  /** The rows after one more value was merged into the given ones. */
  function NextValue(prev: Rows, m: Meter, nCons: nat, nProd: nat, cell: nat, v: EnergyValue, at: int, seen: bool): Rows
    requires seen ==> at in prev && cell < |Values(prev[at], m.dir)|
  {
    var line := if at in prev then prev[at] else MakeLine(Row(at), nCons, nProd);
    prev[at := if seen then SumValue(line, m.dir, cell, v) else SetValue(line, m.dir, cell, v)]
  }

  lemma NextValueCells(prev: Rows, m: Meter, nCons: nat, nProd: nat, cell: nat, v: EnergyValue, at: int, seen: bool,
                       dir: Direction, row: int, c: nat)
    requires seen ==> at in prev && cell < |Values(prev[at], m.dir)|
    ensures var r := NextValue(prev, m, nCons, nProd, cell, v, at, seen);
      && (row in r <==> row in prev || row == at)
      && Cell(r, dir, row, c) ==
           (if row == at && dir == m.dir && c == cell then (if seen then Cell(prev, dir, row, c) + v.value else v.value)
            else Cell(prev, dir, row, c))
      && Quality(r, dir, row, c) ==
           (if row == at && dir == m.dir && c == cell && !seen then CastQoV(v.method_) else Quality(prev, dir, row, c))
  {
    if row == at {
      var line := if at in prev then prev[at] else MakeLine(Row(at), nCons, nProd);
      assert At(Values(line, dir), c, 0.0) == Cell(prev, dir, row, c);
      assert At(Qualities(line, dir), c, 0) == Quality(prev, dir, row, c);
    }
  }

  /** The mark that the values of a row give. */
  function RowMark(vs: seq<EnergyValue>, zone: int, row: int): int {
    if HasRow(vs, zone, row) then CastQoV(MethodOf(vs, zone, row)) else 0
  }

  /** The row exists when it did or a value belongs to it, and a cell holds the sum when it is the
      written one of such a row. */
  predicate HoldsValues(rows: Rows, r: Rows, own: bool, visited: bool, sum: real, mark: int, dir: Direction, row: int,
                        c: nat) {
    && (row in r <==> row in rows || visited)
    && (if own && visited then Cell(r, dir, row, c) == sum && Quality(r, dir, row, c) == mark
        else Cell(r, dir, row, c) == Cell(rows, dir, row, c) && Quality(r, dir, row, c) == Quality(rows, dir, row, c))
  }

  lemma NextValueHolds(rows: Rows, prev: Rows, m: Meter, nCons: nat, nProd: nat, cell: nat, v: EnergyValue, at: int,
                       seen: bool, visited: bool, sum: real, mark: int, dir: Direction, row: int, c: nat)
    requires seen ==> at in prev && cell < |Values(prev[at], m.dir)|
    requires at == row ==> seen == visited
    requires HoldsValues(rows, prev, dir == m.dir && c == cell, visited, sum, mark, dir, row, c)
    ensures HoldsValues(rows, NextValue(prev, m, nCons, nProd, cell, v, at, seen), dir == m.dir && c == cell,
                        visited || at == row, (if visited then sum else 0.0) + (if at == row then v.value else 0.0),
                        if visited then mark else CastQoV(v.method_), dir, row, c)
  {
    NextValueCells(prev, m, nCons, nProd, cell, v, at, seen, dir, row, c);
  }

  /** What the merge of one code leaves in every cell: its own cell of a visited row holds the sum
      of the values of that row, everything else is as before. */
  lemma {:induction false} ImportValuesCells(rows: Rows, m: Meter, nCons: nat, nProd: nat, delta: nat,
                                             vs: seq<EnergyValue>, zone: int, dir: Direction, row: int, c: nat)
    ensures HoldsValues(rows, ImportValues(rows, m, nCons, nProd, delta, vs, zone),
                        dir == m.dir && c == Base(m) + delta, HasRow(vs, zone, row), SumRow(vs, zone, row),
                        RowMark(vs, zone, row), dir, row, c)
  {
    if vs != [] {
      var rest, v := vs[..|vs| - 1], vs[|vs| - 1];
      var at := RowOf(v.from, zone);
      ImportValuesCells(rows, m, nCons, nProd, delta, rest, zone, dir, row, c);
      NextValueHolds(rows, ImportValues(rows, m, nCons, nProd, delta, rest, zone), m, nCons, nProd, Base(m) + delta,
                     v, at, HasRow(rest, zone, at), HasRow(rest, zone, row), SumRow(rest, zone, row),
                     RowMark(rest, zone, row), dir, row, c);
      RowAppends(vs, zone, row);
    }
  }

  lemma RowAppends(vs: seq<EnergyValue>, zone: int, row: int)
    requires vs != []
    ensures var rest, v := vs[..|vs| - 1], vs[|vs| - 1]; var own := RowOf(v.from, zone) == row;
      && (HasRow(vs, zone, row) <==> HasRow(rest, zone, row) || own)
      && SumRow(vs, zone, row) ==
           (if HasRow(rest, zone, row) then SumRow(rest, zone, row) else 0.0) + (if own then v.value else 0.0)
      && (HasRow(vs, zone, row) ==>
            RowMark(vs, zone, row) == if HasRow(rest, zone, row) then RowMark(rest, zone, row) else CastQoV(v.method_))
  {
    var rest := vs[..|vs| - 1];
    if !HasRow(rest, zone, row) {
      NoSum(rest, zone, row);
    }
  }

  lemma {:induction false} NoSum(vs: seq<EnergyValue>, zone: int, row: int)
    requires !HasRow(vs, zone, row)
    ensures SumRow(vs, zone, row) == 0.0
  {
    if vs != [] {
      NoSum(vs[..|vs| - 1], zone, row);
    }
  }

  lemma SetValueCovers(l: Line, dir: Direction, c: nat, v: EnergyValue)
    requires Covered(l)
    ensures Covered(SetValue(l, dir, c, v))
  {
    var r := SetValue(l, dir, c, v);
    forall d, i: nat | |Values(r, d)| <= i
      ensures At(Qualities(r, d), i, 0) == 0
    {
      assert At(Qualities(l, d), i, 0) == 0;
    }
  }

  lemma SumValueCovers(l: Line, dir: Direction, c: nat, v: EnergyValue)
    requires Covered(l) && c < |Values(l, dir)|
    ensures Covered(SumValue(l, dir, c, v))
  {
    var r := SumValue(l, dir, c, v);
    forall d, i: nat | |Values(r, d)| <= i
      ensures At(Qualities(r, d), i, 0) == 0
    {
      assert At(Qualities(l, d), i, 0) == 0;
    }
  }

  lemma NextValueCovered(prev: Rows, m: Meter, nCons: nat, nProd: nat, cell: nat, v: EnergyValue, at: int, seen: bool)
    requires AllCovered(prev) && (seen ==> at in prev && cell < |Values(prev[at], m.dir)|)
    ensures AllCovered(NextValue(prev, m, nCons, nProd, cell, v, at, seen))
  {
    var line := if at in prev then prev[at] else MakeLine(Row(at), nCons, nProd);
    assert Covered(line);
    if seen {
      SumValueCovers(line, m.dir, cell, v);
    } else {
      SetValueCovers(line, m.dir, cell, v);
    }
  }

  lemma {:induction false} ImportValuesCovered(rows: Rows, m: Meter, nCons: nat, nProd: nat, delta: nat,
                                               vs: seq<EnergyValue>, zone: int)
    requires AllCovered(rows)
    ensures AllCovered(ImportValues(rows, m, nCons, nProd, delta, vs, zone))
  {
    if vs != [] {
      var rest, v := vs[..|vs| - 1], vs[|vs| - 1];
      ImportValuesCovered(rows, m, nCons, nProd, delta, rest, zone);
      NextValueCovered(ImportValues(rows, m, nCons, nProd, delta, rest, zone), m, nCons, nProd, Base(m) + delta, v,
        RowOf(v.from, zone), HasRow(rest, zone, RowOf(v.from, zone)));
    }
  }

  // ---- Merging all codes ----------------------------------------------------------------

  predicate InData(mcs: seq<CodeMeta>, data: seq<EnergyData>) {
    forall k | 0 <= k < |mcs| :: mcs[k].sourceInData < |data|
  }

  function SortedValues(mc: CodeMeta, data: seq<EnergyData>): seq<EnergyValue>
    requires mc.sourceInData < |data|
  {
    Sorted(data[mc.sourceInData].values)
  }

  function ImportCodes(rows: Rows, m: Meter, nCons: nat, nProd: nat, mcs: seq<CodeMeta>, data: seq<EnergyData>,
                       zone: int): Rows
    requires InData(mcs, data)
  {
    if mcs == [] then rows
    else
      var mc := mcs[|mcs| - 1];
      ImportValues(ImportCodes(rows, m, nCons, nProd, mcs[..|mcs| - 1], data, zone), m, nCons, nProd,
                   mc.sourceDelta, SortedValues(mc, data), zone)
  }

  /** The last listed code with this cell that has a value for the row decides the cell. */
  function Expected(mcs: seq<CodeMeta>, data: seq<EnergyData>, zone: int, row: int, delta: nat, old_: real): real
    requires InData(mcs, data)
  {
    if mcs == [] then old_
    else
      var mc := mcs[|mcs| - 1];
      if mc.sourceDelta == delta && HasRow(data[mc.sourceInData].values, zone, row)
      then SumRow(data[mc.sourceInData].values, zone, row)
      else Expected(mcs[..|mcs| - 1], data, zone, row, delta, old_)
  }

  function ExpectedQuality(mcs: seq<CodeMeta>, data: seq<EnergyData>, zone: int, row: int, delta: nat, old_: int): int
    requires InData(mcs, data)
  {
    if mcs == [] then old_
    else
      var mc := mcs[|mcs| - 1];
      if mc.sourceDelta == delta && HasRow(data[mc.sourceInData].values, zone, row)
      then CastQoV(MethodOf(data[mc.sourceInData].values, zone, row))
      else ExpectedQuality(mcs[..|mcs| - 1], data, zone, row, delta, old_)
  }

  /** Some code writes this cell of the row. */
  predicate Writes(mcs: seq<CodeMeta>, data: seq<EnergyData>, zone: int, row: int, delta: nat)
    requires InData(mcs, data)
  {
    mcs != [] &&
    (var mc := mcs[|mcs| - 1];
     (mc.sourceDelta == delta && HasRow(data[mc.sourceInData].values, zone, row))
     || Writes(mcs[..|mcs| - 1], data, zone, row, delta))
  }

  /** Some code has a value for the row. */
  predicate Visits(mcs: seq<CodeMeta>, data: seq<EnergyData>, zone: int, row: int)
    requires InData(mcs, data)
  {
    mcs != [] &&
    (HasRow(data[mcs[|mcs| - 1].sourceInData].values, zone, row) || Visits(mcs[..|mcs| - 1], data, zone, row))
  }

  /** What the codes make of a cell, and of its mark. */
  function CellSays(m: Meter, mcs: seq<CodeMeta>, data: seq<EnergyData>, zone: int, dir: Direction, row: int, c: nat,
                    old_: real): real
    requires InData(mcs, data)
  {
    if dir == m.dir && Base(m) <= c then Expected(mcs, data, zone, row, c - Base(m), old_) else old_
  }

  function MarkSays(m: Meter, mcs: seq<CodeMeta>, data: seq<EnergyData>, zone: int, dir: Direction, row: int, c: nat,
                    old_: int): int
    requires InData(mcs, data)
  {
    if dir == m.dir && Base(m) <= c then ExpectedQuality(mcs, data, zone, row, c - Base(m), old_) else old_
  }

  /** The functional specification of the import: what every cell of every row holds afterwards. */
  lemma {:induction false} ImportCodesCells(rows: Rows, m: Meter, nCons: nat, nProd: nat, mcs: seq<CodeMeta>,
                                            data: seq<EnergyData>, zone: int, dir: Direction, row: int, c: nat)
    requires InData(mcs, data)
    ensures var r := ImportCodes(rows, m, nCons, nProd, mcs, data, zone);
      && (row in r <==> row in rows || Visits(mcs, data, zone, row))
      && Cell(r, dir, row, c) == CellSays(m, mcs, data, zone, dir, row, c, Cell(rows, dir, row, c))
      && Quality(r, dir, row, c) == MarkSays(m, mcs, data, zone, dir, row, c, Quality(rows, dir, row, c))
  {
    if mcs != [] {
      var rest, mc := mcs[..|mcs| - 1], mcs[|mcs| - 1];
      var vs := data[mc.sourceInData].values;
      ImportCodesCells(rows, m, nCons, nProd, rest, data, zone, dir, row, c);
      SortedRow(vs, zone, row);
      var prev := ImportCodes(rows, m, nCons, nProd, rest, data, zone);
      ImportValuesCells(prev, m, nCons, nProd, mc.sourceDelta, SortedValues(mc, data), zone, dir, row, c);
    }
  }

  lemma {:induction false} ImportCodesCovered(rows: Rows, m: Meter, nCons: nat, nProd: nat, mcs: seq<CodeMeta>,
                                              data: seq<EnergyData>, zone: int)
    requires InData(mcs, data) && AllCovered(rows)
    ensures AllCovered(ImportCodes(rows, m, nCons, nProd, mcs, data, zone))
  {
    if mcs != [] {
      var rest, mc := mcs[..|mcs| - 1], mcs[|mcs| - 1];
      ImportCodesCovered(rows, m, nCons, nProd, rest, data, zone);
      ImportValuesCovered(ImportCodes(rows, m, nCons, nProd, rest, data, zone), m, nCons, nProd,
                          mc.sourceDelta, SortedValues(mc, data), zone);
    }
  }

  /** A written cell does not remember what was there. */
  lemma {:induction false} ExpectedForgets(mcs: seq<CodeMeta>, data: seq<EnergyData>, zone: int, row: int, delta: nat,
                                           a: real, b: real, p: int, q: int)
    requires InData(mcs, data)
    ensures Writes(mcs, data, zone, row, delta) ==>
              && Expected(mcs, data, zone, row, delta, a) == Expected(mcs, data, zone, row, delta, b)
              && ExpectedQuality(mcs, data, zone, row, delta, p) == ExpectedQuality(mcs, data, zone, row, delta, q)
    ensures !Writes(mcs, data, zone, row, delta) ==>
              && Expected(mcs, data, zone, row, delta, a) == a
              && ExpectedQuality(mcs, data, zone, row, delta, p) == p
  {
    if mcs != [] {
      ExpectedForgets(mcs[..|mcs| - 1], data, zone, row, delta, a, b, p, q);
    }
  }

  // ---- One message ----------------------------------------------------------------------

  function Fetched(rows: Rows, first: int, last: int): Rows {
    map row | row in rows && first <= Day(row) <= last :: Copy(rows[row])
  }

  /** The rows that are written back: those of the fetched days with the codes merged into them. */
  function Written(rows: Rows, first: int, last: int, m: Meter, nCons: nat, nProd: nat, data: seq<EnergyData>,
                   zone: int): Rows {
    ImportCodes(Fetched(rows, first, last), m, nCons, nProd, Organized(data), data, zone)
  }

  /** The row data after one message of a meter was stored: the rows of the days of the message
      are fetched, merged and all written back. */
  function StoreRows(rows: Rows, m: Meter, nCons: nat, nProd: nat, e: Energy, zone: int): Rows {
    rows + Written(rows, Day(RowOf(e.start, zone)), Day(RowOf(e.end, zone)), m, nCons, nProd, e.data, zone)
  }

  predicate InDays(e: Energy, zone: int, row: int) {
    Day(RowOf(e.start, zone)) <= Day(row) <= Day(RowOf(e.end, zone))
  }

  /** Every row that gets a value is among the fetched days. */
  ghost predicate FetchesItsRows(e: Energy, zone: int) {
    forall row | Visits(Organized(e.data), e.data, zone, row) :: InDays(e, zone, row)
  }

  lemma FetchedCells(rows: Rows, first: int, last: int, dir: Direction, row: int, c: nat)
    requires first <= Day(row) <= last
    ensures row in Fetched(rows, first, last) <==> row in rows
    ensures Cell(Fetched(rows, first, last), dir, row, c) == Cell(rows, dir, row, c)
    ensures AllCovered(rows) ==> Quality(Fetched(rows, first, last), dir, row, c) == Quality(rows, dir, row, c)
  {
    if row in rows {
      CopyKeepsCells(rows[row], dir, c);
    }
  }

  /** Writing rows back replaces the cells of the written rows. */
  lemma Overwritten(rows: Rows, w: Rows, dir: Direction, row: int, c: nat, x: real, q: int, covered: bool)
    requires row in w ==> Cell(w, dir, row, c) == x && (covered ==> Quality(w, dir, row, c) == q)
    requires row !in w ==> Cell(rows, dir, row, c) == x && (covered ==> Quality(rows, dir, row, c) == q)
    ensures Cell(rows + w, dir, row, c) == x && (covered ==> Quality(rows + w, dir, row, c) == q)
  {
  }

  /** Codes without a value for the row leave it alone. */
  lemma UnvisitedStays(m: Meter, mcs: seq<CodeMeta>, data: seq<EnergyData>, zone: int, dir: Direction, row: int, c: nat,
                       a: real, p: int)
    requires InData(mcs, data) && !Visits(mcs, data, zone, row)
    ensures CellSays(m, mcs, data, zone, dir, row, c, a) == a && MarkSays(m, mcs, data, zone, dir, row, c, p) == p
  {
    if Base(m) <= c {
      WritesVisits(mcs, data, zone, row, c - Base(m));
    }
    UnwrittenStays(m, mcs, data, zone, dir, row, c, a, p);
  }

  lemma WrittenCells(rows: Rows, first: int, last: int, w: Rows, m: Meter, mcs: seq<CodeMeta>, data: seq<EnergyData>,
                     zone: int, dir: Direction, row: int, c: nat)
    requires InData(mcs, data) && (Visits(mcs, data, zone, row) ==> first <= Day(row) <= last)
    requires var f := Fetched(rows, first, last);
      && (row in w <==> row in f || Visits(mcs, data, zone, row))
      && Cell(w, dir, row, c) == CellSays(m, mcs, data, zone, dir, row, c, Cell(f, dir, row, c))
      && Quality(w, dir, row, c) == MarkSays(m, mcs, data, zone, dir, row, c, Quality(f, dir, row, c))
    ensures Cell(rows + w, dir, row, c) == CellSays(m, mcs, data, zone, dir, row, c, Cell(rows, dir, row, c))
    ensures AllCovered(rows) ==>
      Quality(rows + w, dir, row, c) == MarkSays(m, mcs, data, zone, dir, row, c, Quality(rows, dir, row, c))
  {
    if first <= Day(row) <= last {
      FetchedCells(rows, first, last, dir, row, c);
    }
    if !Visits(mcs, data, zone, row) {
      UnvisitedStays(m, mcs, data, zone, dir, row, c, Cell(rows, dir, row, c), Quality(rows, dir, row, c));
    }
    Overwritten(rows, w, dir, row, c, CellSays(m, mcs, data, zone, dir, row, c, Cell(rows, dir, row, c)),
      MarkSays(m, mcs, data, zone, dir, row, c, Quality(rows, dir, row, c)), AllCovered(rows));
  }

  lemma StoreCells(rows: Rows, m: Meter, nCons: nat, nProd: nat, e: Energy, zone: int, dir: Direction, row: int, c: nat)
    requires Visits(Organized(e.data), e.data, zone, row) ==> InDays(e, zone, row)
    ensures var r := StoreRows(rows, m, nCons, nProd, e, zone);
      && Cell(r, dir, row, c) == CellSays(m, Organized(e.data), e.data, zone, dir, row, c, Cell(rows, dir, row, c))
      && (AllCovered(rows) ==>
            Quality(r, dir, row, c) ==
              MarkSays(m, Organized(e.data), e.data, zone, dir, row, c, Quality(rows, dir, row, c)))
  {
    var first, last := Day(RowOf(e.start, zone)), Day(RowOf(e.end, zone));
    var w := Written(rows, first, last, m, nCons, nProd, e.data, zone);
    ImportCodesCells(Fetched(rows, first, last), m, nCons, nProd, Organized(e.data), e.data, zone, dir, row, c);
    WrittenCells(rows, first, last, w, m, Organized(e.data), e.data, zone, dir, row, c);
  }

  lemma {:induction false} WritesVisits(mcs: seq<CodeMeta>, data: seq<EnergyData>, zone: int, row: int, delta: nat)
    requires InData(mcs, data)
    ensures Writes(mcs, data, zone, row, delta) ==> Visits(mcs, data, zone, row)
    ensures Writes(mcs, data, zone, row, delta) <==>
              exists k :: 0 <= k < |mcs| && mcs[k].sourceDelta == delta &&
                HasRow(data[mcs[k].sourceInData].values, zone, row)
  {
    if mcs != [] {
      WritesVisits(mcs[..|mcs| - 1], data, zone, row, delta);
    }
  }

  // ---- Isolation ------------------------------------------------------------------------

  /** Storing the message changes no value of another meter, whatever is stored. */
  ghost predicate Isolated(m: Meter, nCons: nat, nProd: nat, e: Energy, zone: int) {
    forall rows: Rows, dir, row, c: nat | !OwnCell(m, dir, c) ::
      Cell(StoreRows(rows, m, nCons, nProd, e, zone), dir, row, c) == Cell(rows, dir, row, c)
  }

  /** The coverage code has the third cell, which a generator does not have. */
  predicate CodesFit(m: Meter, data: seq<EnergyData>) {
    m.dir.Consumer? || forall i | 0 <= i < |data| :: data[i].code == Cover ==> data[i].values == []
  }

  lemma FittingCodesStayInside(m: Meter, e: Energy, zone: int, row: int, delta: nat)
    requires CodesFit(m, e.data) && Width(m.dir) <= delta
    ensures !Writes(Organized(e.data), e.data, zone, row, delta)
  {
    WritesVisits(Organized(e.data), e.data, zone, row, delta);
  }

  /** A coverage value writes the third cell. */
  lemma CoverageWrites(e: Energy, zone: int, i: nat)
    requires i < |e.data| && e.data[i].code == Cover && e.data[i].values != []
    ensures Writes(Organized(e.data), e.data, zone, RowOf(e.data[i].values[0].from, zone), 2)
  {
    var mcs, row := Organized(e.data), RowOf(e.data[i].values[0].from, zone);
    ListedExactly(e.data, |e.data|, false, i);
    var base := Listed(e.data, |e.data|, false);
    var k :| 0 <= k < |base| && base[k].sourceInData == i;
    assert mcs[k] == base[k] && mcs[k].sourceDelta == 2;
    HasRowIff(e.data[i].values, zone, row);
    WritesVisits(mcs, e.data, zone, row, 2);
  }

  /** Rows outside the fetched days lose the data of all other meters. */
  lemma UnfetchedRowIsLost(rows: Rows, m: Meter, nCons: nat, nProd: nat, e: Energy, zone: int, dir: Direction, row: int,
                           c: nat)
    requires Visits(Organized(e.data), e.data, zone, row) && !InDays(e, zone, row)
    requires dir != m.dir
    ensures Cell(StoreRows(rows, m, nCons, nProd, e, zone), dir, row, c) == 0.0
  {
    var fetched := Fetched(rows, Day(RowOf(e.start, zone)), Day(RowOf(e.end, zone)));
    ImportCodesCells(fetched, m, nCons, nProd, Organized(e.data), e.data, zone, dir, row, c);
  }

  /** Exactly when every row of the message is fetched and the codes fit the direction of the
      meter, a message touches nothing but the cells of its own meter. */
  lemma IsolatedExactly(m: Meter, nCons: nat, nProd: nat, e: Energy, zone: int)
    ensures Isolated(m, nCons, nProd, e, zone) <==> FetchesItsRows(e, zone) && CodesFit(m, e.data)
  {
    var mcs := Organized(e.data);
    if FetchesItsRows(e, zone) && CodesFit(m, e.data) {
      forall rows: Rows, dir, row, c: nat | !OwnCell(m, dir, c)
        ensures Cell(StoreRows(rows, m, nCons, nProd, e, zone), dir, row, c) == Cell(rows, dir, row, c)
      {
        IsolatedCell(rows, m, nCons, nProd, e, zone, dir, row, c);
      }
    } else if !FetchesItsRows(e, zone) {
      var row :| Visits(mcs, e.data, zone, row) && !InDays(e, zone, row);
      UnfetchedIsDamage(m, nCons, nProd, e, zone, row);
    } else {
      var i :| 0 <= i < |e.data| && e.data[i].code == Cover && e.data[i].values != [];
      CoverageIsDamage(m, nCons, nProd, e, zone, i);
    }
  }

  lemma UnfetchedIsDamage(m: Meter, nCons: nat, nProd: nat, e: Energy, zone: int, row: int)
    requires Visits(Organized(e.data), e.data, zone, row) && !InDays(e, zone, row)
    ensures !Isolated(m, nCons, nProd, e, zone)
  {
    var rows: Rows := map[row := Line(Row(row), [1.0], [1.0], [0], [0])];
    var dir := if m.dir.Consumer? then Producer else Consumer;
    UnfetchedRowIsLost(rows, m, nCons, nProd, e, zone, dir, row, 0);
    ChangedCell(rows, m, nCons, nProd, e, zone, dir, row, 0);
  }

  lemma ChangedCell(rows: Rows, m: Meter, nCons: nat, nProd: nat, e: Energy, zone: int, dir: Direction, row: int,
                    c: nat)
    requires !OwnCell(m, dir, c)
    requires Cell(StoreRows(rows, m, nCons, nProd, e, zone), dir, row, c) != Cell(rows, dir, row, c)
    ensures !Isolated(m, nCons, nProd, e, zone)
  {
  }

  lemma CoverageIsDamage(m: Meter, nCons: nat, nProd: nat, e: Energy, zone: int, i: nat)
    requires m.dir.Producer? && FetchesItsRows(e, zone)
    requires i < |e.data| && e.data[i].code == Cover && e.data[i].values != []
    ensures !Isolated(m, nCons, nProd, e, zone)
  {
    var mcs := Organized(e.data);
    var row, c := RowOf(e.data[i].values[0].from, zone), Base(m) + 2;
    CoverageWrites(e, zone, i);
    WritesVisits(mcs, e.data, zone, row, 2);
    var old_ := Expected(mcs, e.data, zone, row, 2, 0.0) + 1.0;
    var rows: Rows := map[row := Line(Row(row), [], Fill(c, 0.0) + [old_], [], [])];
    ExpectedForgets(mcs, e.data, zone, row, 2, 0.0, old_, 0, 0);
    StoreCells(rows, m, nCons, nProd, e, zone, m.dir, row, c);
    ChangedCell(rows, m, nCons, nProd, e, zone, m.dir, row, c);
  }

  /** Codes that write no cell at this delta leave the cell alone. */
  lemma UnwrittenStays(m: Meter, mcs: seq<CodeMeta>, data: seq<EnergyData>, zone: int, dir: Direction, row: int, c: nat,
                       a: real, p: int)
    requires InData(mcs, data) && (dir == m.dir && Base(m) <= c ==> !Writes(mcs, data, zone, row, c - Base(m)))
    ensures CellSays(m, mcs, data, zone, dir, row, c, a) == a && MarkSays(m, mcs, data, zone, dir, row, c, p) == p
  {
    if dir == m.dir && Base(m) <= c {
      ExpectedForgets(mcs, data, zone, row, c - Base(m), a, 0.0, p, 0);
    }
  }

  lemma IsolatedCell(rows: Rows, m: Meter, nCons: nat, nProd: nat, e: Energy, zone: int, dir: Direction, row: int,
                     c: nat)
    requires FetchesItsRows(e, zone) && CodesFit(m, e.data) && !OwnCell(m, dir, c)
    ensures Cell(StoreRows(rows, m, nCons, nProd, e, zone), dir, row, c) == Cell(rows, dir, row, c)
    ensures AllCovered(rows) ==>
      Quality(StoreRows(rows, m, nCons, nProd, e, zone), dir, row, c) == Quality(rows, dir, row, c)
  {
    if dir == m.dir && Base(m) <= c {
      FittingCodesStayInside(m, e, zone, row, c - Base(m));
    }
    UnwrittenStays(m, Organized(e.data), e.data, zone, dir, row, c, Cell(rows, dir, row, c),
      Quality(rows, dir, row, c));
    StoreCells(rows, m, nCons, nProd, e, zone, dir, row, c);
  }

  /** Rows are covered when they are fetched, and stay so when they are merged. */
  lemma WrittenCovered(rows: Rows, first: int, last: int, m: Meter, nCons: nat, nProd: nat, data: seq<EnergyData>,
                       zone: int)
    ensures AllCovered(Written(rows, first, last, m, nCons, nProd, data, zone))
  {
    var fetched := Fetched(rows, first, last);
    forall row | row in fetched ensures Covered(fetched[row]) {
      CopyKeepsCells(rows[row], Consumer, 0);
    }
    ImportCodesCovered(fetched, m, nCons, nProd, Organized(data), data, zone);
  }

  /** Storing keeps the quality marks inside the values, from the empty store on. */
  lemma StoreKeepsCovered(rows: Rows, m: Meter, nCons: nat, nProd: nat, e: Energy, zone: int)
    requires AllCovered(rows)
    ensures AllCovered(StoreRows(rows, m, nCons, nProd, e, zone))
  {
    WrittenCovered(rows, Day(RowOf(e.start, zone)), Day(RowOf(e.end, zone)), m, nCons, nProd, e.data, zone);
  }

  /** What the codes say once, they say again. */
  lemma SaysTwice(m: Meter, mcs: seq<CodeMeta>, data: seq<EnergyData>, zone: int, dir: Direction, row: int, c: nat,
                  a: real, p: int)
    requires InData(mcs, data)
    ensures var b, q := CellSays(m, mcs, data, zone, dir, row, c, a), MarkSays(m, mcs, data, zone, dir, row, c, p);
      CellSays(m, mcs, data, zone, dir, row, c, b) == b && MarkSays(m, mcs, data, zone, dir, row, c, q) == q
  {
    if dir == m.dir && Base(m) <= c {
      ExpectedForgets(mcs, data, zone, row, c - Base(m), a, CellSays(m, mcs, data, zone, dir, row, c, a),
        p, MarkSays(m, mcs, data, zone, dir, row, c, p));
    }
  }

  /** A row that was written back is fetched as it was written. */
  lemma RefetchedRow(rows: Rows, w: Rows, first: int, last: int, dir: Direction, row: int, c: nat)
    requires AllCovered(w) && first <= Day(row) <= last && (row in rows ==> row in w)
    ensures var f := Fetched(rows + w, first, last);
      (row in f <==> row in w) && Cell(f, dir, row, c) == Cell(w, dir, row, c) &&
        Quality(f, dir, row, c) == Quality(w, dir, row, c)
  {
    if row in w {
      CopyKeepsCells(w[row], dir, c);
    }
  }

  /** Writing back the same again changes nothing. */
  lemma WrittenTwice(rows: Rows, w: Rows, w': Rows, dir: Direction, row: int, c: nat)
    requires row in w <==> row in w'
    requires Cell(w, dir, row, c) == Cell(w', dir, row, c) && Quality(w, dir, row, c) == Quality(w', dir, row, c)
    ensures var once, twice := rows + w, rows + w + w';
      (row in twice <==> row in once) && Cell(twice, dir, row, c) == Cell(once, dir, row, c) &&
      Quality(twice, dir, row, c) == Quality(once, dir, row, c)
  {
  }

  /** Merging what was merged gives the same, for fetched rows and for others. */
  lemma MergedTwice(rows: Rows, first: int, last: int, w: Rows, w': Rows, m: Meter, nCons: nat, nProd: nat,
                    mcs: seq<CodeMeta>, data: seq<EnergyData>, zone: int, dir: Direction, row: int, c: nat)
    requires InData(mcs, data) && AllCovered(w)
    requires w == ImportCodes(Fetched(rows, first, last), m, nCons, nProd, mcs, data, zone)
    requires w' == ImportCodes(Fetched(rows + w, first, last), m, nCons, nProd, mcs, data, zone)
    ensures row in w <==> row in w'
    ensures Cell(w, dir, row, c) == Cell(w', dir, row, c) && Quality(w, dir, row, c) == Quality(w', dir, row, c)
  {
    var f, f' := Fetched(rows, first, last), Fetched(rows + w, first, last);
    ImportCodesCells(f, m, nCons, nProd, mcs, data, zone, dir, row, c);
    ImportCodesCells(f', m, nCons, nProd, mcs, data, zone, dir, row, c);
    if first <= Day(row) <= last {
      RefetchedRow(rows, w, first, last, dir, row, c);
      SaysTwice(m, mcs, data, zone, dir, row, c, Cell(f, dir, row, c), Quality(f, dir, row, c));
    }
  }

  /** Storing the same message again changes no row, no cell and no quality mark, whatever is stored
      and whatever the message announces. */
  lemma StoreTwice(rows: Rows, m: Meter, nCons: nat, nProd: nat, e: Energy, zone: int, dir: Direction, row: int, c: nat)
    ensures var once := StoreRows(rows, m, nCons, nProd, e, zone);
      var twice := StoreRows(once, m, nCons, nProd, e, zone);
      && (row in twice <==> row in once)
      && Cell(twice, dir, row, c) == Cell(once, dir, row, c) &&
        Quality(twice, dir, row, c) == Quality(once, dir, row, c)
  {
    var first, last := Day(RowOf(e.start, zone)), Day(RowOf(e.end, zone));
    var w := Written(rows, first, last, m, nCons, nProd, e.data, zone);
    var w' := Written(rows + w, first, last, m, nCons, nProd, e.data, zone);
    WrittenCovered(rows, first, last, m, nCons, nProd, e.data, zone);
    MergedTwice(rows, first, last, w, w', m, nCons, nProd, Organized(e.data), e.data, zone, dir, row, c);
    WrittenTwice(rows, w, w', dir, row, c);
  }

  /** Messages of two different registered meters can be stored in either order. */
  lemma StoresCommute(meta: Registry, n: string, n': string, rows: Rows, nCons: nat, nProd: nat, e: Energy, e': Energy,
                      zone: int, dir: Direction, row: int, c: nat)
    requires Dense(meta) && n in meta && n' in meta && n != n' && AllCovered(rows)
    requires FetchesItsRows(e, zone) && CodesFit(meta[n], e.data)
    requires FetchesItsRows(e', zone) && CodesFit(meta[n'], e'.data)
    ensures var ab := StoreRows(StoreRows(rows, meta[n], nCons, nProd, e, zone), meta[n'], nCons, nProd, e', zone);
      var ba := StoreRows(StoreRows(rows, meta[n'], nCons, nProd, e', zone), meta[n], nCons, nProd, e, zone);
      Cell(ab, dir, row, c) == Cell(ba, dir, row, c) && Quality(ab, dir, row, c) == Quality(ba, dir, row, c)
  {
    var a := StoreRows(rows, meta[n], nCons, nProd, e, zone);
    var b := StoreRows(rows, meta[n'], nCons, nProd, e', zone);
    StoreKeepsCovered(rows, meta[n], nCons, nProd, e, zone);
    StoreKeepsCovered(rows, meta[n'], nCons, nProd, e', zone);
    if OwnCell(meta[n], dir, c) && OwnCell(meta[n'], dir, c) {
      CellsAreDisjoint(meta, n, n', dir, c);
    }
    if !OwnCell(meta[n'], dir, c) {
      IsolatedCell(a, meta[n'], nCons, nProd, e', zone, dir, row, c);
      IsolatedCell(rows, meta[n'], nCons, nProd, e', zone, dir, row, c);
      SameCellSameStore(rows, b, meta[n], nCons, nProd, e, zone, dir, row, c);
    } else {
      IsolatedCell(b, meta[n], nCons, nProd, e, zone, dir, row, c);
      IsolatedCell(rows, meta[n], nCons, nProd, e, zone, dir, row, c);
      SameCellSameStore(rows, a, meta[n'], nCons, nProd, e', zone, dir, row, c);
    }
  }

  lemma SameCellSameStore(rows: Rows, rows': Rows, m: Meter, nCons: nat, nProd: nat, e: Energy, zone: int,
                          dir: Direction, row: int, c: nat)
    requires FetchesItsRows(e, zone) && AllCovered(rows) && AllCovered(rows')
    requires Cell(rows, dir, row, c) == Cell(rows', dir, row, c) &&
      Quality(rows, dir, row, c) == Quality(rows', dir, row, c)
    ensures Cell(StoreRows(rows, m, nCons, nProd, e, zone), dir, row, c) ==
      Cell(StoreRows(rows', m, nCons, nProd, e, zone), dir, row, c)
    ensures Quality(StoreRows(rows, m, nCons, nProd, e, zone), dir, row, c) ==
      Quality(StoreRows(rows', m, nCons, nProd, e, zone), dir, row, c)
  {
    StoreCells(rows, m, nCons, nProd, e, zone, dir, row, c);
    StoreCells(rows', m, nCons, nProd, e, zone, dir, row, c);
  }

  // ---- The running import ---------------------------------------------------------------

  lemma NextCode(rows: Rows, m: Meter, nCons: nat, nProd: nat, mcs: seq<CodeMeta>, data: seq<EnergyData>, zone: int,
                 k: nat)
    requires InData(mcs, data) && k < |mcs|
    ensures ImportCodes(rows, m, nCons, nProd, mcs[..k + 1], data, zone) ==
            ImportValues(ImportCodes(rows, m, nCons, nProd, mcs[..k], data, zone), m, nCons, nProd,
                         mcs[k].sourceDelta, SortedValues(mcs[k], data), zone)
  {
    assert mcs[..k + 1][..k] == mcs[..k];
  }

  class ImportBuffer {
    var lines: Rows

    constructor (lines: Rows)
      ensures this.lines == lines
    {
      this.lines := lines;
    }

    /** The values of one code. A row that occurs again is summed, which only happens when the
        local clock is set back. */
    method ImportCode(m: Meter, nCons: nat, nProd: nat, delta: nat, vs: seq<EnergyValue>, zone: int)
      modifies this
      ensures lines == ImportValues(old(lines), m, nCons, nProd, delta, vs, zone)
    {
      var visited := {};
      for i := 0 to |vs|
        invariant lines == ImportValues(old(lines), m, nCons, nProd, delta, vs[..i], zone)
        invariant forall row :: row in visited <==> HasRow(vs[..i], zone, row)
      {
        var v := vs[i];
        var row, c := RowOf(v.from, zone), Base(m) + delta;
        assert vs[..i + 1][..i] == vs[..i];
        if row !in lines {
          lines := lines[row := MakeLine(Row(row), nCons, nProd)];
        }
        if row in visited {
          lines := lines[row := SumValue(lines[row], m.dir, c, v)];
        } else {
          lines := lines[row := SetValue(lines[row], m.dir, c, v)];
        }
        visited := visited + {row};
      }
      assert vs[..|vs|] == vs;
    }

    method ImportEnergyValues(m: Meter, nCons: nat, nProd: nat, mcs: seq<CodeMeta>, data: seq<EnergyData>, zone: int)
      requires InData(mcs, data)
      modifies this
      ensures lines == ImportCodes(old(lines), m, nCons, nProd, mcs, data, zone)
    {
      var sorted := [];
      for i := 0 to |mcs|
        invariant |sorted| == i && forall k | 0 <= k < i :: sorted[k] == SortedValues(mcs[k], data)
      {
        sorted := sorted + [SortedValues(mcs[i], data)];
      }
      for k := 0 to |mcs|
        invariant lines == ImportCodes(old(lines), m, nCons, nProd, mcs[..k], data, zone)
      {
        NextCode(old(lines), m, nCons, nProd, mcs, data, zone, k);
        ImportCode(m, nCons, nProd, mcs[k].sourceDelta, sorted[k], zone);
      }
      assert mcs[..|mcs|] == mcs;
    }
  }

  type Periods = map<string, Period>

  function PeriodOf(periods: Periods, point: string): Period {
    if point in periods then periods[point] else UNSET
  }

  class BowStorage {
    const metadata: MetaStore
    var periods: Periods
    var rows: Rows

    constructor (metadata: MetaStore, periods: Periods, rows: Rows)
      ensures this.metadata == metadata && this.periods == periods && this.rows == rows
    {
      this.metadata, this.periods, this.rows := metadata, periods, rows;
    }

    method FetchSourceRange(first: int, last: int) returns (lines: Rows)
      ensures lines == Fetched(rows, first, last)
    {
      lines := map row | row in rows && first <= Day(row) <= last :: Copy(rows[row]);
    }

    /** Registers the metering point if it is unknown, stores the message and widens the period. */
    method StoreEnergy(point: string, e: Energy, zone: int, now: int)
      modifies this, metadata
      ensures Registered(old(metadata.meta), point, ExamineDirection(e.data), metadata.meta)
      ensures point in metadata.meta
      ensures rows == StoreRows(old(rows), metadata.meta[point], |Names(metadata.meta, Consumer)|,
                                |Names(metadata.meta, Producer)|, e, zone)
      ensures PeriodOf(periods, point) == Widened(PeriodOf(old(periods), point), e, zone, now)
      ensures forall other | other != point :: PeriodOf(periods, other) == PeriodOf(old(periods), other)
    {
      var info := metadata.PrepareMetaInfoMap(point, ExamineDirection(e.data));
      var m := metadata.meta[point];
      assert Count(info, Consumer) == |Names(metadata.meta, Consumer)|;
      assert Count(info, Producer) == |Names(metadata.meta, Producer)|;
      var fetched := FetchSourceRange(Day(RowOf(e.start, zone)), Day(RowOf(e.end, zone)));
      var resources := new ImportBuffer(fetched);
      var mcs := OrganizeMetaCodeImport(e.data);
      if |mcs| > 0 {
        resources.ImportEnergyValues(m, info.consumerCount, info.producerCount, mcs, e.data, zone);
      }
      rows := rows + resources.lines;
      var period, changed := UpdateMetaCP(PeriodOf(periods, point), e, zone, now);
      if changed {
        periods := periods[point := period];
      }
    }
  }
}
