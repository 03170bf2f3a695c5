/** Which energy ends up where, code by code: from the values of a message to the cells of the stored row and
    on to the fields of a report. */
module CodeCells {
  import opened SourceLines
  import opened MeterRegistry
  import opened EnergyMessages
  import opened EnergyImport
  import opened DaySplit
  import opened DayJobs
  import opened WholeImport
  import opened MessageStored
  import opened WindowCache
  import opened EnergyReports
  import opened ReportContents

  // ---- Marks --------------------------------------------------------------------------------

  /** The mark that a method stands for. */
  function MarkOfText(text: string): int {
    if text in {"L1", "l1"} then 1 else if text in {"L2", "l2"} then 2 else if text in {"L3", "l3"} then 3 else 0
  }

  lemma TextsAreMarks(text: string)
    ensures CastQoV(text) == MarkOfText(text)
  {
    if |text| == 2 {
      assert text == [text[0], text[1]];
    }
  }

  /** Value i is the first one of the row. */
  ghost predicate IsFirst(vs: seq<EnergyValue>, zone: int, row: int, i: nat) {
    && i < |vs| && vs[i].from / 1000 + zone == row
    && forall j | 0 <= j < i :: vs[j].from / 1000 + zone != row
  }

  lemma {:induction false} FirstValue(vs: seq<EnergyValue>, zone: int, row: int) returns (i: nat)
    requires HasRow(vs, zone, row)
    ensures IsFirst(vs, zone, row, i) && MethodOf(vs, zone, row) == vs[i].method_
  {
    var rest := vs[..|vs| - 1];
    if HasRow(rest, zone, row) {
      i := FirstValue(rest, zone, row);
      assert forall j | 0 <= j <= i :: rest[j] == vs[j];
    } else {
      i := |vs| - 1;
      forall j | 0 <= j < i ensures vs[j].from / 1000 + zone != row {
        HasRowIff(rest, zone, row);
        assert RowOf(rest[j].from, zone) != row;
      }
    }
  }

  /** What the values of a row say: their sum, and the mark of the first of them. */
  ghost predicate Says(vs: seq<EnergyValue>, zone: int, row: int, o: Outcome) {
    && o.value == SumRow(vs, zone, row)
    && exists i: nat :: IsFirst(vs, zone, row, i) && o.mark == MarkOfText(vs[i].method_)
  }

  lemma RowSays(vs: seq<EnergyValue>, zone: int, row: int)
    requires HasRow(vs, zone, row)
    ensures Says(vs, zone, row, RowOutcome(vs, zone, row))
  {
    var i := FirstValue(vs, zone, row);
    TextsAreMarks(vs[i].method_);
  }

  // ---- Codes and cells ----------------------------------------------------------------------

  /** The entry has one of these codes and a value for the row. */
  predicate Speaks(d: EnergyData, codes: set<Code>, zone: int, row: int) {
    d.code in codes && HasRow(d.values, zone, row)
  }

  /** What the last entry with one of these codes says about the row, or else what was there. */
  function LastOf(data: seq<EnergyData>, codes: set<Code>, zone: int, row: int, old_: Outcome): Outcome {
    if data == [] then old_
    else
      var last := data[|data| - 1];
      if Speaks(last, codes, zone, row) then RowOutcome(last.values, zone, row)
      else LastOf(data[..|data| - 1], codes, zone, row, old_)
  }

  /** Entry i is the last one with one of these codes and a value for the row. */
  ghost predicate IsLast(data: seq<EnergyData>, codes: set<Code>, zone: int, row: int, i: nat) {
    && i < |data| && Speaks(data[i], codes, zone, row)
    && forall j | i < j < |data| :: !Speaks(data[j], codes, zone, row)
  }

  lemma {:induction false} LastSays(data: seq<EnergyData>, codes: set<Code>, zone: int, row: int, old_: Outcome, i: nat)
    requires IsLast(data, codes, zone, row, i)
    ensures Says(data[i].values, zone, row, LastOf(data, codes, zone, row, old_))
  {
    if i == |data| - 1 {
      RowSays(data[i].values, zone, row);
    } else {
      LastSays(data[..|data| - 1], codes, zone, row, old_, i);
    }
  }

  lemma {:induction false} NoneSays(data: seq<EnergyData>, codes: set<Code>, zone: int, row: int, old_: Outcome)
    requires forall j | 0 <= j < |data| :: !Speaks(data[j], codes, zone, row)
    ensures LastOf(data, codes, zone, row, old_) == old_
  {
    if data != [] {
      NoneSays(data[..|data| - 1], codes, zone, row, old_);
    }
  }

  /** The codes of a cell: those without the participation factor, and those with it. */
  function CodesOf(k: nat, tf: bool): set<Code> {
    match k
    case 0 => if tf then {ConTF, GenTF} else {Con, Gen}
    case 1 => if tf then {PlusTF} else {Share, Plus}
    case 2 => if tf then {} else {Cover}
    case _ => {}
  }

  lemma {:induction false} OutcomeIsLast(data: seq<EnergyData>, tf: bool, zone: int, row: int, k: nat, old_: Outcome)
    ensures OutcomeIn(data, tf, zone, row, k, old_) == LastOf(data, CodesOf(k, tf), zone, row, old_)
  {
    if data != [] {
      OutcomeIsLast(data[..|data| - 1], tf, zone, row, k, old_);
    }
  }

  /** What a message leaves in cell k of its meter: the codes with the participation factor decide, then those
      without it, then what was there. */
  function CellOutcome(data: seq<EnergyData>, zone: int, row: int, k: nat, old_: Outcome): Outcome {
    LastOf(data, CodesOf(k, true), zone, row, LastOf(data, CodesOf(k, false), zone, row, old_))
  }

  lemma MessageIsCells(data: seq<EnergyData>, zone: int, row: int, k: nat, old_: Outcome)
    ensures MessageOutcome(data, zone, row, k, old_) == CellOutcome(data, zone, row, k, old_)
  {
    OutcomeIsLast(data, false, zone, row, k, old_);
    OutcomeIsLast(data, true, zone, row, k, OutcomeIn(data, false, zone, row, k, old_));
  }

  // ---- The stored row -----------------------------------------------------------------------

  function FirstCell(m: Meter): nat {
    (if m.dir.Consumer? then 3 else 2) * m.sourceIdx
  }

  ghost predicate HoldsAt(r: Rows, dir: Direction, row: int, c: nat, o: Outcome, covered: bool) {
    Cell(r, dir, row, c) == o.value && (covered ==> Quality(r, dir, row, c) == o.mark)
  }

  lemma FirstIsBase(m: Meter)
    ensures FirstCell(m) == Base(m)
  {
  }

  lemma MessageHoldsAt(rows: Rows, r: Rows, m: Meter, data: seq<EnergyData>, zone: int, lost: bool, row: int, k: nat,
                       c: nat)
    requires c == FirstCell(m) + k && HoldsMessage(rows, r, m, data, zone, lost, m.dir, row, c)
    ensures HoldsAt(r, m.dir, row, c, CellOutcome(data, zone, row, k, Before(rows, lost, m.dir, row, c)),
                    AllCovered(rows))
  {
    FirstIsBase(m);
    MessageIsCells(data, zone, row, k, Before(rows, lost, m.dir, row, c));
    assert c - Base(m) == k;
  }

  /** What the import of a message leaves, and the part of the message on the day of a row. */
  ghost predicate IsImported(rows: Rows, imp: Import, src: Energy, row: int, r: Rows, part: seq<EnergyData>,
                             lost: bool) {
    && r == StoreAll(rows, imp, Split(src, imp.zone)) && part == PartOf(src, imp.zone, row)
    && lost == Lost(src, imp.zone, row)
  }

  lemma ImportedRow(rows: Rows, imp: Import, src: Energy, row: int, r: Rows, part: seq<EnergyData>, lost: bool,
                    dir: Direction, c: nat)
    requires IsImported(rows, imp, src, row, r, part, lost)
    ensures HoldsMessage(rows, r, imp.m, part, imp.zone, lost, dir, row, c)
  {
    ImportStoresParts(rows, imp, src, dir, row, c);
  }

  /** End to end, for every message and every store: the first cell of the meter holds consumption or
      generation, the second one the share or the surplus, the third one the coverage that the part of the
      message on the day of the row names last. */
  lemma ImportStoresCodes(rows: Rows, imp: Import, src: Energy, row: int, k: nat, r: Rows, part: seq<EnergyData>,
                          lost: bool, c: nat)
    requires IsImported(rows, imp, src, row, r, part, lost) && c == FirstCell(imp.m) + k
    ensures HoldsAt(r, imp.m.dir, row, c,
                    CellOutcome(part, imp.zone, row, k, Before(rows, lost, imp.m.dir, row, c)), AllCovered(rows))
  {
    ImportedRow(rows, imp, src, row, r, part, lost, imp.m.dir, c);
    MessageHoldsAt(rows, r, imp.m, part, imp.zone, lost, row, k, c);
  }

  lemma CodesLeaveCell(data: seq<EnergyData>, zone: int, row: int, k: nat, old_: Outcome)
    ensures CodesLeave(Organized(data), data, zone, row, k, old_) == CellOutcome(data, zone, row, k, old_)
  {
    OrganizedOutcome(data, zone, row, k, old_);
    MessageIsCells(data, zone, row, k, old_);
  }

  /** One message as it is stored. */
  lemma StoreLeaves(rows: Rows, m: Meter, nCons: nat, nProd: nat, e: Energy, zone: int, f: Rows, row: int, k: nat,
                    c: nat)
    requires f == Fetched(rows, Day(RowOf(e.start, zone)), Day(RowOf(e.end, zone)))
    requires SomeVisits(e.data, zone, row) && c == FirstCell(m) + k
    ensures Held(StoreRows(rows, m, nCons, nProd, e, zone), m.dir, row, c) ==
            CellOutcome(e.data, zone, row, k, Held(f, m.dir, row, c))
  {
    FirstIsBase(m);
    OrganizedVisits(e.data, zone, row);
    CodesLeaveCell(e.data, zone, row, k, Held(f, m.dir, row, c));
    StoredOutcome(rows, f, m, nCons, nProd, e, zone, row, k, CellOutcome(e.data, zone, row, k, Held(f, m.dir, row, c)));
  }

  /** Entry i is the only one with one of these codes and a value for the row. */
  ghost predicate IsOnly(data: seq<EnergyData>, codes: set<Code>, zone: int, row: int, i: nat) {
    && i < |data| && Speaks(data[i], codes, zone, row)
    && forall j | 0 <= j < |data| && j != i :: !Speaks(data[j], codes, zone, row)
  }

  lemma OnlyDecides(data: seq<EnergyData>, zone: int, row: int, k: nat, i: nat, old_: Outcome)
    requires k < 3 && IsOnly(data, CodesOf(k, false) + CodesOf(k, true), zone, row, i)
    ensures Says(data[i].values, zone, row, CellOutcome(data, zone, row, k, old_)) && SomeVisits(data, zone, row)
  {
    var base, total := CodesOf(k, false), CodesOf(k, true);
    assert EntryVisits(data[i], zone, row);
    if data[i].code in total {
      LastSays(data, total, zone, row, LastOf(data, base, zone, row, old_), i);
    } else {
      LastSays(data, base, zone, row, old_, i);
      NoneSays(data, total, zone, row, LastOf(data, base, zone, row, old_));
    }
  }

  lemma OneFirst(vs: seq<EnergyValue>, zone: int, row: int, o: Outcome, j: nat)
    requires Says(vs, zone, row, o) && IsFirst(vs, zone, row, j)
    ensures o == Outcome(SumRow(vs, zone, row), MarkOfText(vs[j].method_))
  {
    var i: nat :| IsFirst(vs, zone, row, i) && o.mark == MarkOfText(vs[i].method_);
    assert i == j;
  }

  lemma OnlyLeaves(data: seq<EnergyData>, zone: int, row: int, k: nat, i: nat, j: nat, old_: Outcome)
    requires k < 3 && IsOnly(data, CodesOf(k, false) + CodesOf(k, true), zone, row, i)
    requires IsFirst(data[i].values, zone, row, j)
    ensures SomeVisits(data, zone, row)
    ensures CellOutcome(data, zone, row, k, old_) ==
            Outcome(SumRow(data[i].values, zone, row), MarkOfText(data[i].values[j].method_))
  {
    OnlyDecides(data, zone, row, k, i, old_);
    OneFirst(data[i].values, zone, row, CellOutcome(data, zone, row, k, old_), j);
  }

  /** A single entry for a cell: the cell holds the sum of its values for the row and the mark of the first of
      them. */
  lemma CodeIsStored(rows: Rows, m: Meter, nCons: nat, nProd: nat, e: Energy, zone: int, row: int, k: nat, i: nat,
                     j: nat, c: nat)
    requires k < 3 && IsOnly(e.data, CodesOf(k, false) + CodesOf(k, true), zone, row, i)
    requires IsFirst(e.data[i].values, zone, row, j) && c == FirstCell(m) + k
    ensures Held(StoreRows(rows, m, nCons, nProd, e, zone), m.dir, row, c) ==
            Outcome(SumRow(e.data[i].values, zone, row), MarkOfText(e.data[i].values[j].method_))
  {
    var f := Fetched(rows, Day(RowOf(e.start, zone)), Day(RowOf(e.end, zone)));
    OnlyLeaves(e.data, zone, row, k, i, j, Held(f, m.dir, row, c));
    StoreLeaves(rows, m, nCons, nProd, e, zone, f, row, k, c);
  }

  // ---- Read back ----------------------------------------------------------------------------

  /** What a message leaves in cell k of an empty row. */
  function Leaves(data: seq<EnergyData>, zone: int, row: int, k: nat): real {
    CellOutcome(data, zone, row, k, Outcome(0.0, 0)).value
  }

  lemma NothingInOtherCells(m: Meter, data: seq<EnergyData>, zone: int, row: int, k: nat)
    requires CodesFit(m, data) && k >= if m.dir.Consumer? then 3 else 2
    ensures Leaves(data, zone, row, k) == 0.0
  {
    forall j | 0 <= j < |data| ensures !Speaks(data[j], CodesOf(k, false), zone, row) {
      assert data[j] in data;
    }
    NoneSays(data, CodesOf(k, false), zone, row, Outcome(0.0, 0));
    NoneSays(data, CodesOf(k, true), zone, row, Outcome(0.0, 0));
  }

  lemma MessageCellIs(m: Meter, data: seq<EnergyData>, zone: int, dir: Direction, row: int, c: nat)
    requires CodesFit(m, data)
    ensures MessageCell(m, data, zone, dir, row, c, Outcome(0.0, 0)).value ==
      if dir == m.dir && Base(m) <= c < Base(m) + Width(dir) then Leaves(data, zone, row, c - Base(m)) else 0.0
  {
    if dir == m.dir && Base(m) <= c {
      MessageIsCells(data, zone, row, c - Base(m), Outcome(0.0, 0));
      if c >= Base(m) + Width(dir) {
        NothingInOtherCells(m, data, zone, row, c - Base(m));
      }
    }
  }

  lemma NothingBefore(rows: Rows, r: Rows, m: Meter, data: seq<EnergyData>, zone: int, lost: bool, dir: Direction,
                      row: int, c: nat)
    requires row !in rows && HoldsMessage(rows, r, m, data, zone, lost, dir, row, c)
    ensures Cell(r, dir, row, c) == MessageCell(m, data, zone, dir, row, c, Outcome(0.0, 0)).value
  {
  }

  /** A row that was not stored before holds what the message leaves, in the cells of its meter only. */
  lemma NewCell(rows: Rows, imp: Import, e: Energy, r: Rows, row: int, dir: Direction, c: nat)
    requires row !in rows && CodesFit(imp.m, e.data)
    requires r == StoreRows(rows, imp.m, imp.nCons, imp.nProd, e, imp.zone)
    ensures Cell(r, dir, row, c) ==
      if dir == imp.m.dir && Base(imp.m) <= c < Base(imp.m) + Width(dir)
      then Leaves(e.data, imp.zone, row, c - Base(imp.m)) else 0.0
  {
    StoreMessageCell(rows, imp, e, dir, row, c);
    NothingBefore(rows, r, imp.m, e.data, imp.zone, SomeVisits(e.data, imp.zone, row) && !InDays(e, imp.zone, row),
      dir, row, c);
    MessageCellIs(imp.m, e.data, imp.zone, dir, row, c);
  }

  /** The cell of meter i that is summed. */
  function Nth(s: seq<real>, first: nat, step: nat, i: nat): real {
    SourceLines.At(s, first + step * i, 0.0)
  }

  lemma {:induction false} OneOfMany(s: seq<real>, first: nat, step: nat, n: nat, idx: nat)
    requires forall i: nat | i != idx :: Nth(s, first, step, i) == 0.0
    ensures Every(s, first, step, n) == if idx < n then Nth(s, first, step, idx) else 0.0
  {
    if n > 0 {
      OneOfMany(s, first, step, n - 1, idx);
      assert Every(s, first, step, n) == Every(s, first, step, n - 1) + Nth(s, first, step, n - 1);
    }
  }

  /** The values of a window that is opened by the row. */
  ghost predicate OnlyMeter(s: seq<real>, width: nat, idx: nat, data: seq<EnergyData>, zone: int, row: int) {
    forall i, k: nat | k < width :: Nth(s, k, width, i) == if i == idx then Leaves(data, zone, row, k) else 0.0
  }

  ghost predicate NoMeter(s: seq<real>, width: nat) {
    forall i, k: nat | k < width :: Nth(s, k, width, i) == 0.0
  }

  lemma CellOfMeter(m: Meter, i: nat, k: nat)
    requires k < Width(m.dir)
    ensures Base(m) <= k + Width(m.dir) * i < Base(m) + Width(m.dir) <==> i == m.sourceIdx
    ensures i == m.sourceIdx ==> k + Width(m.dir) * i - Base(m) == k
  {
  }

  /** The window that a new row opens, in one direction. */
  lemma OpenedRow(rows: Rows, imp: Import, e: Energy, r: Rows, row: int, w: Line, dir: Direction)
    requires row !in rows && CodesFit(imp.m, e.data)
    requires r == StoreRows(rows, imp.m, imp.nCons, imp.nProd, e, imp.zone) && row in r
    requires imp.m.sourceIdx < (if imp.m.dir.Consumer? then imp.nCons else imp.nProd)
    requires w == DeepCopy(r[row], imp.nCons, imp.nProd)
    ensures if dir == imp.m.dir then OnlyMeter(Values(w, dir), Width(dir), imp.m.sourceIdx, e.data, imp.zone, row)
      else NoMeter(Values(w, dir), Width(dir))
  {
    forall i: nat, k: nat | k < Width(dir)
      ensures Nth(Values(w, dir), k, Width(dir), i) ==
        if dir == imp.m.dir && i == imp.m.sourceIdx then Leaves(e.data, imp.zone, row, k) else 0.0
    {
      NewCell(rows, imp, e, r, row, dir, k + Width(dir) * i);
      if dir == imp.m.dir {
        CellOfMeter(imp.m, i, k);
      }
      OpenedCell(r, row, w, imp.nCons, imp.nProd, dir, i, k);
    }
  }

  lemma OpenedCell(r: Rows, row: int, w: Line, nCons: nat, nProd: nat, dir: Direction, i: nat, k: nat)
    requires row in r && w == DeepCopy(r[row], nCons, nProd) && k < Width(dir)
    ensures (if dir.Consumer? then i < nCons else i < nProd) ==>
      Nth(Values(w, dir), k, Width(dir), i) == Cell(r, dir, row, k + Width(dir) * i)
    ensures (if dir.Consumer? then i >= nCons else i >= nProd) ==> Nth(Values(w, dir), k, Width(dir), i) == 0.0
  {
  }

  /** A report shows of a message what it leaves in the cells of its meter. */
  ghost predicate ShowsMessage(s: ReportData, m: Meter, data: seq<EnergyData>, zone: int, row: int) {
    if m.dir.Consumer? then
      && s.consumed == Leaves(data, zone, row, 0) && s.alloc == Leaves(data, zone, row, 1)
      && s.distributed == Leaves(data, zone, row, 2) && s.produced == s.unused == 0.0
    else
      && s.produced == Leaves(data, zone, row, 0) && s.unused == Leaves(data, zone, row, 1)
      && s.consumed == s.alloc == s.distributed == 0.0
  }

  lemma ConsumerFields(w: Line, m: Meter, data: seq<EnergyData>, zone: int, row: int, sz: Sizes)
    requires FullSize(w, sz) && m.dir.Consumer? && m.sourceIdx < sz.nCons
    requires OnlyMeter(w.consumers, 3, m.sourceIdx, data, zone, row) && NoMeter(w.producers, 2)
    ensures ShowsMessage(AddLine(Plain, ZERO, w), m, data, zone, row)
  {
    LineFields(Plain, ZERO, w);
    OneOfMany(w.consumers, 0, 3, sz.nCons, m.sourceIdx);
    OneOfMany(w.consumers, 1, 3, sz.nCons, m.sourceIdx);
    OneOfMany(w.consumers, 2, 3, sz.nCons, m.sourceIdx);
    OneOfMany(w.producers, 0, 2, sz.nProd, sz.nProd);
    OneOfMany(w.producers, 1, 2, sz.nProd, sz.nProd);
  }

  lemma ProducerFields(w: Line, m: Meter, data: seq<EnergyData>, zone: int, row: int, sz: Sizes)
    requires FullSize(w, sz) && m.dir.Producer? && m.sourceIdx < sz.nProd
    requires OnlyMeter(w.producers, 2, m.sourceIdx, data, zone, row) && NoMeter(w.consumers, 3)
    ensures ShowsMessage(AddLine(Plain, ZERO, w), m, data, zone, row)
  {
    LineFields(Plain, ZERO, w);
    OneOfMany(w.producers, 0, 2, sz.nProd, m.sourceIdx);
    OneOfMany(w.producers, 1, 2, sz.nProd, m.sourceIdx);
    OneOfMany(w.consumers, 0, 3, sz.nCons, sz.nCons);
    OneOfMany(w.consumers, 1, 3, sz.nCons, sz.nCons);
    OneOfMany(w.consumers, 2, 3, sz.nCons, sz.nCons);
  }

  /** A message stored into an empty row and read back by a report: what its consumption codes name last is
      consumed, its share allocated and its coverage distributed; for a producer what the generation codes
      name last is produced, and the surplus unused. */
  lemma MessageReadBack(rows: Rows, imp: Import, e: Energy, r: Rows, row: int, w: Line)
    requires row !in rows && CodesFit(imp.m, e.data)
    requires r == StoreRows(rows, imp.m, imp.nCons, imp.nProd, e, imp.zone) && row in r
    requires imp.m.sourceIdx < (if imp.m.dir.Consumer? then imp.nCons else imp.nProd)
    requires w == DeepCopy(r[row], imp.nCons, imp.nProd)
    ensures ShowsMessage(AddLine(Plain, ZERO, w), imp.m, e.data, imp.zone, row)
  {
    OpenedRow(rows, imp, e, r, row, w, Consumer);
    OpenedRow(rows, imp, e, r, row, w, Producer);
    if imp.m.dir.Consumer? {
      ConsumerFields(w, imp.m, e.data, imp.zone, row, Sizes(imp.nCons, imp.nProd));
    } else {
      ProducerFields(w, imp.m, e.data, imp.zone, row, Sizes(imp.nCons, imp.nProd));
    }
  }
}
