/** What a whole message leaves in the store, told from the message alone: the value, the quality mark
    and the existence of every row. */
module MessageStored {
  import opened SourceLines
  import opened MeterRegistry
  import opened EnergyMessages
  import opened EnergyImport
  import opened DaySplit
  import opened DayJobs
  import opened RowJobs
  import opened WholeImport

  /** What a cell holds: its value and its quality mark. */
  datatype Outcome = Outcome(value: real, mark: int)

  function Held(rows: Rows, dir: Direction, row: int, c: nat): Outcome {
    Outcome(Cell(rows, dir, row, c), Quality(rows, dir, row, c))
  }

  /** What the values of a row make of a cell. */
  function RowOutcome(vs: seq<EnergyValue>, zone: int, row: int): Outcome
    requires HasRow(vs, zone, row)
  {
    Outcome(SumRow(vs, zone, row), CastQoV(MethodOf(vs, zone, row)))
  }

  function CodesLeave(mcs: seq<CodeMeta>, data: seq<EnergyData>, zone: int, row: int, delta: nat,
                      old_: Outcome): Outcome
    requires InData(mcs, data)
  {
    Outcome(Expected(mcs, data, zone, row, delta, old_.value), ExpectedQuality(mcs, data, zone, row, delta, old_.mark))
  }

  // ---- The codes of a message ---------------------------------------------------------------

  /** What the last entry of the data makes of the outcome of the entries before it. */
  function EntryOutcome(d: EnergyData, tf: bool, zone: int, row: int, delta: nat, rest: Outcome): Outcome {
    match DecodeMeterCode(d.code, 0)
    case None => rest
    case Some(mc) =>
      if IsTF(d.code) == tf && d.code != CoverTF && mc.sourceDelta == delta && HasRow(d.values, zone, row)
      then RowOutcome(d.values, zone, row) else rest
  }

  /** What the codes of one kind leave in a cell, read off the data itself. */
  function OutcomeIn(data: seq<EnergyData>, tf: bool, zone: int, row: int, delta: nat, old_: Outcome): Outcome {
    if data == [] then old_
    else
      EntryOutcome(data[|data| - 1], tf, zone, row, delta, OutcomeIn(data[..|data| - 1], tf, zone, row, delta, old_))
  }

  /** A listed code decides where it has a value for the row. */
  lemma OutcomeNext(mcs: seq<CodeMeta>, mc: CodeMeta, data: seq<EnergyData>, zone: int, row: int, delta: nat,
                    old_: Outcome)
    requires InData(mcs, data) && mc.sourceInData < |data|
    ensures InData(mcs + [mc], data)
    ensures CodesLeave(mcs + [mc], data, zone, row, delta, old_) ==
            if mc.sourceDelta == delta && HasRow(data[mc.sourceInData].values, zone, row)
            then RowOutcome(data[mc.sourceInData].values, zone, row) else CodesLeave(mcs, data, zone, row, delta, old_)
  {
    assert (mcs + [mc])[..|mcs|] == mcs;
  }

  lemma ListedNext(data: seq<EnergyData>, n: nat, tf: bool, zone: int, row: int, delta: nat, old_: Outcome)
    requires n < |data| && InData(Listed(data, n, tf), data)
    ensures InData(Listed(data, n + 1, tf), data)
    ensures CodesLeave(Listed(data, n + 1, tf), data, zone, row, delta, old_) ==
            EntryOutcome(data[n], tf, zone, row, delta, CodesLeave(Listed(data, n, tf), data, zone, row, delta, old_))
  {
    match DecodeMeterCode(data[n].code, n)
    case None =>
    case Some(mc) => OutcomeNext(Listed(data, n, tf), mc, data, zone, row, delta, old_);
  }

  lemma {:induction false} ListedOutcome(data: seq<EnergyData>, n: nat, tf: bool, zone: int, row: int, delta: nat,
                                         old_: Outcome)
    requires n <= |data|
    ensures InData(Listed(data, n, tf), data)
    ensures CodesLeave(Listed(data, n, tf), data, zone, row, delta, old_) ==
      OutcomeIn(data[..n], tf, zone, row, delta, old_)
  {
    if n > 0 {
      ListedOutcome(data, n - 1, tf, zone, row, delta, old_);
      assert data[..n][..n - 1] == data[..n - 1];
      ListedNext(data, n - 1, tf, zone, row, delta, old_);
    }
  }

  lemma {:induction false} OutcomeConcat(a: seq<CodeMeta>, b: seq<CodeMeta>, data: seq<EnergyData>, zone: int, row: int,
                                         delta: nat, old_: Outcome)
    requires InData(a, data) && InData(b, data)
    ensures InData(a + b, data)
    ensures CodesLeave(a + b, data, zone, row, delta, old_) ==
      CodesLeave(b, data, zone, row, delta, CodesLeave(a, data, zone, row, delta, old_))
  {
    if b == [] {
      assert a + b == a;
    } else {
      OutcomeConcat(a, b[..|b| - 1], data, zone, row, delta, old_);
      assert (a + b)[..|a + b| - 1] == a + b[..|b| - 1];
    }
  }

  lemma OrganizedOutcome(data: seq<EnergyData>, zone: int, row: int, delta: nat, old_: Outcome)
    ensures CodesLeave(Organized(data), data, zone, row, delta, old_)
         == MessageOutcome(data, zone, row, delta, old_)
  {
    var base := OutcomeIn(data, false, zone, row, delta, old_);
    ListedOutcome(data, |data|, false, zone, row, delta, old_);
    ListedOutcome(data, |data|, true, zone, row, delta, base);
    OutcomeConcat(Listed(data, |data|, false), Listed(data, |data|, true), data, zone, row, delta, old_);
    assert data[..|data|] == data;
  }

  /** The window keeps the value whole, or the value has nothing to do with the row. */
  predicate WholeOrElsewhere(v: EnergyValue, lo: int, hi: int, zone: int, row: int) {
    if RowOf(v.from, zone) == row then Piece(v, lo, hi) == [v] else Piece(v, lo, hi) in {[], [v]}
  }

  ghost predicate AllWhole(data: seq<EnergyData>, lo: int, hi: int, zone: int, row: int) {
    forall i, j | 0 <= i < |data| && 0 <= j < |data[i].values| ::
      WholeOrElsewhere(data[i].values[j], lo, hi, zone, row)
  }

  lemma {:induction false} PiecesRow(vs: seq<EnergyValue>, lo: int, hi: int, zone: int, row: int)
    requires forall j | 0 <= j < |vs| :: WholeOrElsewhere(vs[j], lo, hi, zone, row)
    ensures HasRow(Pieces(vs, lo, hi), zone, row) <==> HasRow(vs, zone, row)
    ensures SumRow(Pieces(vs, lo, hi), zone, row) == SumRow(vs, zone, row)
    ensures HasRow(vs, zone, row) ==> MethodOf(Pieces(vs, lo, hi), zone, row) == MethodOf(vs, zone, row)
  {
    if vs != [] {
      var rest, last := vs[..|vs| - 1], vs[|vs| - 1];
      PiecesRow(rest, lo, hi, zone, row);
      assert WholeOrElsewhere(last, lo, hi, zone, row);
      if Piece(last, lo, hi) == [last] {
        AppendRow(Pieces(rest, lo, hi), last, zone, row);
      } else {
        assert Pieces(rest, lo, hi) + [] == Pieces(rest, lo, hi);
      }
    }
  }

  lemma OutcomeAppend(data: seq<EnergyData>, d: EnergyData, tf: bool, zone: int, row: int, delta: nat, old_: Outcome)
    ensures OutcomeIn(data + [d], tf, zone, row, delta, old_)
         == EntryOutcome(d, tf, zone, row, delta, OutcomeIn(data, tf, zone, row, delta, old_))
  {
    assert (data + [d])[..|data|] == data;
  }

  lemma {:induction false} DayDataOutcome(data: seq<EnergyData>, tf: bool, lo: int, hi: int, zone: int, row: int,
                                          delta: nat, old_: Outcome)
    requires AllWhole(data, lo, hi, zone, row)
    ensures OutcomeIn(DayData(data, lo, hi), tf, zone, row, delta, old_) == OutcomeIn(data, tf, zone, row, delta, old_)
  {
    if data != [] {
      var rest, last := data[..|data| - 1], data[|data| - 1];
      DayDataOutcome(rest, tf, lo, hi, zone, row, delta, old_);
      PiecesRow(last.values, lo, hi, zone, row);
      OutcomeAppend(DayData(rest, lo, hi), EnergyData(last.code, Pieces(last.values, lo, hi)), tf, zone, row, delta,
        old_);
    }
  }

  lemma SameDay(x: int, y: int, zone: int)
    requires DayStart(x, zone) == DayStart(y, zone)
    ensures Day(RowOf(x, zone)) == Day(RowOf(y, zone))
  {
    DayOfInstant(x, zone);
    DayOfInstant(y, zone);
  }

  lemma OneDayValue(v: EnergyValue, src: Energy, zone: int, day: int, row: int)
    requires InOneDay(v, src, zone) && Midnight(day, zone, Day(row))
    ensures WholeOrElsewhere(v, Lo(src, day), Hi(src, day), zone, row)
  {
    var n := Day(row);
    InstantOfDay(v.from, day, zone, n);
    InstantOfDay(v.to - 1, day, zone, n);
    SameDay(v.from, v.to - 1, zone);
  }

  /** What the whole data make of a cell: base codes first, then the total codes. */
  function MessageOutcome(data: seq<EnergyData>, zone: int, row: int, delta: nat, old_: Outcome): Outcome {
    OutcomeIn(data, true, zone, row, delta, OutcomeIn(data, false, zone, row, delta, old_))
  }

  lemma AllWholeOnDay(src: Energy, zone: int, day: int, row: int)
    requires AllInOneDay(src, zone) && Midnight(day, zone, Day(row))
    ensures AllWhole(src.data, Lo(src, day), Hi(src, day), zone, row)
  {
    forall i, j | 0 <= i < |src.data| && 0 <= j < |src.data[i].values|
      ensures WholeOrElsewhere(src.data[i].values[j], Lo(src, day), Hi(src, day), zone, row)
    {
      OneDayValue(src.data[i].values[j], src, zone, day, row);
    }
  }

  lemma PartOutcome(data: seq<EnergyData>, lo: int, hi: int, zone: int, row: int, delta: nat, old_: Outcome)
    requires AllWhole(data, lo, hi, zone, row)
    ensures MessageOutcome(DayData(data, lo, hi), zone, row, delta, old_) ==
            MessageOutcome(data, zone, row, delta, old_)
  {
    DayDataOutcome(data, false, lo, hi, zone, row, delta, old_);
    DayDataOutcome(data, true, lo, hi, zone, row, delta, OutcomeIn(data, false, zone, row, delta, old_));
  }

  /** What a cell of a row holds after a whole message, given what it held before. */
  function MessageCell(m: Meter, data: seq<EnergyData>, zone: int, dir: Direction, row: int, c: nat,
                       old_: Outcome): Outcome {
    if dir == m.dir && Base(m) <= c then MessageOutcome(data, zone, row, c - Base(m), old_) else old_
  }

  // ---- The rows of a message ----------------------------------------------------------------

  /** Some listed entry has a value for the row. */
  ghost predicate SomeVisits(data: seq<EnergyData>, zone: int, row: int) {
    exists i :: 0 <= i < |data| && EntryVisits(data[i], zone, row)
  }

  lemma SomeVisitsAppends(data: seq<EnergyData>, d: EnergyData, zone: int, row: int)
    ensures SomeVisits(data + [d], zone, row) <==> SomeVisits(data, zone, row) || EntryVisits(d, zone, row)
  {
    var all := data + [d];
    if i :| 0 <= i < |data| && EntryVisits(data[i], zone, row) {
      assert all[i] == data[i];
    }
    assert all[|data|] == d;
    if i :| 0 <= i < |all| && EntryVisits(all[i], zone, row) {
      assert i < |data| ==> all[i] == data[i];
    }
  }

  lemma DayDataVisitsNext(rest: seq<EnergyData>, last: EnergyData, lo: int, hi: int, zone: int, row: int)
    requires SomeVisits(DayData(rest, lo, hi), zone, row) <==> SomeVisits(rest, zone, row)
    requires HasRow(Pieces(last.values, lo, hi), zone, row) <==> HasRow(last.values, zone, row)
    ensures SomeVisits(DayData(rest + [last], lo, hi), zone, row) <==> SomeVisits(rest + [last], zone, row)
  {
    var ps := Pieces(last.values, lo, hi);
    SomeVisitsAppends(rest, last, zone, row);
    SomeVisitsAppends(DayData(rest, lo, hi), EnergyData(last.code, ps), zone, row);
    assert (rest + [last])[..|rest|] == rest;
  }

  lemma LastIsWhole(data: seq<EnergyData>, lo: int, hi: int, zone: int, row: int)
    requires data != [] && AllWhole(data, lo, hi, zone, row)
    ensures AllWhole(data[..|data| - 1], lo, hi, zone, row)
    ensures var vs := data[|data| - 1].values; HasRow(Pieces(vs, lo, hi), zone, row) <==> HasRow(vs, zone, row)
  {
    PiecesRow(data[|data| - 1].values, lo, hi, zone, row);
  }

  lemma {:induction false} DayDataVisits(data: seq<EnergyData>, lo: int, hi: int, zone: int, row: int)
    requires AllWhole(data, lo, hi, zone, row)
    ensures SomeVisits(DayData(data, lo, hi), zone, row) <==> SomeVisits(data, zone, row)
  {
    if data != [] {
      var rest, last := data[..|data| - 1], data[|data| - 1];
      LastIsWhole(data, lo, hi, zone, row);
      DayDataVisits(rest, lo, hi, zone, row);
      DayDataVisitsNext(rest, last, lo, hi, zone, row);
      assert data == rest + [last];
    }
  }

  lemma StoredRow(rows: Rows, m: Meter, nCons: nat, nProd: nat, e: Energy, zone: int, row: int)
    ensures row in StoreRows(rows, m, nCons, nProd, e, zone) <==> row in rows || SomeVisits(e.data, zone, row)
  {
    OrganizedVisits(e.data, zone, row);
    ImportCodesCells(Fetched(rows, Day(RowOf(e.start, zone)), Day(RowOf(e.end, zone))), m, nCons, nProd,
      Organized(e.data), e.data, zone, m.dir, row, 0);
  }

  // ---- The whole message --------------------------------------------------------------------

  /** What a cell held before, as the merge sees it: nothing when its row was not fetched. */
  function Before(rows: Rows, lost: bool, dir: Direction, row: int, c: nat): Outcome {
    if lost then Outcome(0.0, 0) else Held(rows, dir, row, c)
  }

  /** The row holds what the data say about it: the value and, in a covered store, the mark of every
      cell, and its existence. */
  ghost predicate HoldsMessage(rows: Rows, r: Rows, m: Meter, data: seq<EnergyData>, zone: int, lost: bool,
                               dir: Direction, row: int, c: nat) {
    var o := MessageCell(m, data, zone, dir, row, c, Before(rows, lost, dir, row, c));
    && (row in r <==> row in rows || SomeVisits(data, zone, row))
    && Cell(r, dir, row, c) == o.value
    && (AllCovered(rows) ==> Quality(r, dir, row, c) == o.mark)
  }

  lemma CodesSay(m: Meter, data: seq<EnergyData>, zone: int, dir: Direction, row: int, c: nat, old_: Outcome)
    ensures var o := MessageCell(m, data, zone, dir, row, c, old_);
      && CellSays(m, Organized(data), data, zone, dir, row, c, old_.value) == o.value
      && MarkSays(m, Organized(data), data, zone, dir, row, c, old_.mark) == o.mark
  {
    if Base(m) <= c {
      OrganizedOutcome(data, zone, row, c - Base(m), old_);
    }
  }

  lemma FetchedRowHolds(rows: Rows, imp: Import, g: Energy, dir: Direction, row: int, c: nat)
    requires SomeVisits(g.data, imp.zone, row) ==> InDays(g, imp.zone, row)
    ensures HoldsMessage(rows, StoreRows(rows, imp.m, imp.nCons, imp.nProd, g, imp.zone), imp.m, g.data, imp.zone,
                         false, dir, row, c)
  {
    OrganizedVisits(g.data, imp.zone, row);
    StoredRow(rows, imp.m, imp.nCons, imp.nProd, g, imp.zone, row);
    StoreCells(rows, imp.m, imp.nCons, imp.nProd, g, imp.zone, dir, row, c);
    CodesSay(imp.m, g.data, imp.zone, dir, row, c, Held(rows, dir, row, c));
  }

  /** A row that was not fetched is written as if it had been empty. */
  lemma UnfetchedRowHolds(rows: Rows, imp: Import, g: Energy, dir: Direction, row: int, c: nat)
    requires SomeVisits(g.data, imp.zone, row) && !InDays(g, imp.zone, row)
    ensures HoldsMessage(rows, StoreRows(rows, imp.m, imp.nCons, imp.nProd, g, imp.zone), imp.m, g.data, imp.zone,
                         true, dir, row, c)
  {
    var f := Fetched(rows, Day(RowOf(g.start, imp.zone)), Day(RowOf(g.end, imp.zone)));
    OrganizedVisits(g.data, imp.zone, row);
    StoredRow(rows, imp.m, imp.nCons, imp.nProd, g, imp.zone, row);
    ImportCodesCells(f, imp.m, imp.nCons, imp.nProd, Organized(g.data), g.data, imp.zone, dir, row, c);
    CodesSay(imp.m, g.data, imp.zone, dir, row, c, Outcome(0.0, 0));
  }

  lemma StoreMessageCell(rows: Rows, imp: Import, g: Energy, dir: Direction, row: int, c: nat)
    ensures HoldsMessage(rows, StoreRows(rows, imp.m, imp.nCons, imp.nProd, g, imp.zone), imp.m, g.data, imp.zone,
                         SomeVisits(g.data, imp.zone, row) && !InDays(g, imp.zone, row), dir, row, c)
  {
    if SomeVisits(g.data, imp.zone, row) && !InDays(g, imp.zone, row) {
      UnfetchedRowHolds(rows, imp, g, dir, row, c);
    } else {
      FetchedRowHolds(rows, imp, g, dir, row, c);
    }
  }

  /** The instant at which the day of a row starts. */
  function DayOfRow(row: int, zone: int): int {
    Day(row) * DAY_MS - zone * 1000
  }

  /** The part of the message that lies on the day of a row: values cut to this day, in full amount. */
  function PartOf(src: Energy, zone: int, row: int): seq<EnergyData> {
    DayData(src.data, Lo(src, DayOfRow(row, zone)), Hi(src, DayOfRow(row, zone)))
  }

  /** The row gets a value, but the message goes on for less than a quarter of an hour on its day. */
  ghost predicate Lost(src: Energy, zone: int, row: int) {
    SomeVisits(PartOf(src, zone, row), zone, row) && src.end < DayOfRow(row, zone) + QUARTER_MS
  }

  lemma OwnGroup(src: Energy, zone: int, i: nat, row: int)
    requires i < |Split(src, zone)| && GroupDay(Split(src, zone)[i], zone) == Day(row)
    ensures Split(src, zone)[i].data == PartOf(src, zone, row)
    ensures InDays(Split(src, zone)[i], zone, row) <==> DayOfRow(row, zone) + QUARTER_MS <= src.end
  {
    var day := SplitOrigin(src, zone, i);
    assert day == DayOfRow(row, zone);
    EndStaysOnDay(src, day, zone, Day(row));
    InstantOfDay(Split(src, zone)[i].end, day, zone, Day(row));
  }

  /** Days with an instant of the message are days of the split. */
  lemma DayIndex(src: Energy, zone: int, n: int, x: int) returns (d: nat)
    requires src.start <= x < src.end && n * DAY_MS - zone * 1000 <= x < (n + 1) * DAY_MS - zone * 1000
    ensures d < DayCount(src, zone) && DayAt(DayStart(src.start, zone), d) == n * DAY_MS - zone * 1000
  {
    DayBounds(x, zone);
    DaysInOrder(src.start, x, zone);
    DaysInOrder(x, src.end, zone);
    DayCountIs(src, zone);
    assert LocalDay(x, zone) == n;
    d := n - LocalDay(src.start, zone);
  }

  /** A part on a day is the data of a daily message. */
  lemma GroupOfPart(src: Energy, zone: int, row: int) returns (i: nat)
    requires PartOf(src, zone, row) != []
    ensures i < |Split(src, zone)| && GroupDay(Split(src, zone)[i], zone) == Day(row)
  {
    var day, v := DayOfRow(row, zone), PartOf(src, zone, row)[0].values[0];
    var d := DayIndex(src, zone, Day(row), v.from);
    i := GroupMember(src, DayStart(src.start, zone), DayCount(src, zone), Split(src, zone), d);
    DayGroupStaysInDay(src, day, zone, Day(row));
  }

  lemma PartHasOwner(src: Energy, zone: int, row: int)
    ensures PartOf(src, zone, row) != [] ==> OwnerOf(Split(src, zone), zone, row) >= 0
  {
    if PartOf(src, zone, row) != [] {
      var i := GroupOfPart(src, zone, row);
    }
  }

  lemma AgreeingHolds(rows: Rows, a: Rows, b: Rows, m: Meter, data: seq<EnergyData>, zone: int, lost: bool,
                      dir: Direction, row: int, c: nat)
    requires Agree(a, b, row) && HoldsMessage(rows, b, m, data, zone, lost, dir, row, c)
    ensures HoldsMessage(rows, a, m, data, zone, lost, dir, row, c)
  {
    AgreeingRow(a, b, dir, row, c);
  }

  lemma NothingSaid(rows: Rows, m: Meter, zone: int, dir: Direction, row: int, c: nat)
    ensures HoldsMessage(rows, rows, m, [], zone, false, dir, row, c)
  {
  }

  /** End to end, for every message and every store: splitting a message by day and storing the days
      leaves in every cell of a row the value and the quality mark that the part of the message on the
      row's day says, the last listed code of the cell with a value for the row deciding, and creates
      exactly the rows with a listed value. What the other cells held stays, unless the message ends in
      the first quarter of an hour of the day: then the rows it names are written anew. */
  lemma ImportStoresParts(rows: Rows, imp: Import, src: Energy, dir: Direction, row: int, c: nat)
    ensures HoldsMessage(rows, StoreAll(rows, imp, Split(src, imp.zone)), imp.m, PartOf(src, imp.zone, row), imp.zone,
                         Lost(src, imp.zone, row), dir, row, c)
  {
    var groups := Split(src, imp.zone);
    SplitIsDaily(src, imp.zone);
    StoreAllRow(rows, imp, groups, row);
    var i := OwnerOf(groups, imp.zone, row);
    if i >= 0 {
      OwnGroup(src, imp.zone, i, row);
      StoreMessageCell(rows, imp, groups[i], dir, row, c);
      AgreeingHolds(rows, StoreAll(rows, imp, groups),
        StoreRows(rows, imp.m, imp.nCons, imp.nProd, groups[i], imp.zone), imp.m, groups[i].data, imp.zone,
        Lost(src, imp.zone, row), dir, row, c);
    } else {
      PartHasOwner(src, imp.zone, row);
      NothingSaid(rows, imp.m, imp.zone, dir, row, c);
      AgreeingHolds(rows, StoreAll(rows, imp, groups), rows, imp.m, [], imp.zone, false, dir, row, c);
    }
  }

  /** A day that starts less than a quarter of an hour before the end is the last one. */
  lemma ShortDayIsLast(src: Energy, zone: int, row: int)
    requires PartOf(src, zone, row) != [] && src.end < DayOfRow(row, zone) + QUARTER_MS
    ensures DayOfRow(row, zone) == DayStart(src.end, zone) && Hi(src, DayOfRow(row, zone)) == src.end
  {
    var v := PartOf(src, zone, row)[0].values[0];
    DayBounds(src.end, zone);
    DaysInOrder(v.from, src.end, zone);
    DayBounds(v.from, zone);
    LastMidnight(src, DayOfRow(row, zone), zone, Day(row));
  }

  lemma VisitedPart(data: seq<EnergyData>, lo: int, hi: int, zone: int, row: int) returns (code: Code)
    requires SomeVisits(DayData(data, lo, hi), zone, row)
    ensures DayData(data, lo, hi) != [] && IsListed(code) && HasEntry(data, code, lo, hi)
  {
    var part := DayData(data, lo, hi);
    var k :| 0 <= k < |part| && EntryVisits(part[k], zone, row);
    code := part[k].code;
    assert HasCode(part, code);
    DayDataExactly(data, code, lo, hi);
  }

  /** A part with a listed value on a last day that is too short is a lost tail. */
  lemma LostIsTail(src: Energy, zone: int, row: int)
    ensures Lost(src, zone, row) ==> LosesTail(src, zone)
  {
    if Lost(src, zone, row) {
      var code := VisitedPart(src.data, Lo(src, DayOfRow(row, zone)), Hi(src, DayOfRow(row, zone)), zone, row);
      ShortDayIsLast(src, zone, row);
    }
  }

  /** When no value crosses a midnight or leaves the message, its part on the row's day says about the
      row what the whole message says. */
  lemma PartSaysWhole(m: Meter, src: Energy, zone: int, dir: Direction, row: int, c: nat, old_: Outcome)
    requires AllInOneDay(src, zone)
    ensures MessageCell(m, PartOf(src, zone, row), zone, dir, row, c, old_) ==
            MessageCell(m, src.data, zone, dir, row, c, old_)
    ensures SomeVisits(PartOf(src, zone, row), zone, row) <==> SomeVisits(src.data, zone, row)
  {
    var day := DayOfRow(row, zone);
    AllWholeOnDay(src, zone, day, row);
    DayDataVisits(src.data, Lo(src, day), Hi(src, day), zone, row);
    if Base(m) <= c {
      PartOutcome(src.data, Lo(src, day), Hi(src, day), zone, row, c - Base(m), old_);
    }
  }

  /** So a message whose values stay in their days, and that has no such last day, leaves in every cell
      what the unsplit message says. */
  lemma ImportStoresMessage(rows: Rows, imp: Import, src: Energy, dir: Direction, row: int, c: nat)
    requires !LosesTail(src, imp.zone) && AllInOneDay(src, imp.zone)
    ensures HoldsMessage(rows, StoreAll(rows, imp, Split(src, imp.zone)), imp.m, src.data, imp.zone, false, dir, row, c)
  {
    ImportStoresParts(rows, imp, src, dir, row, c);
    LostIsTail(src, imp.zone, row);
    PartSaysWhole(imp.m, src, imp.zone, dir, row, c, Held(rows, dir, row, c));
  }

  // ---- Coverage of a producer ---------------------------------------------------------------

  /** The last coverage entry with a value for the row decides the third cell. */
  lemma {:induction false} LastCoverDecides(data: seq<EnergyData>, i: nat, zone: int, row: int, old_: Outcome)
    requires i < |data| && data[i].code == Cover && HasRow(data[i].values, zone, row)
    requires forall j | i < j < |data| && data[j].code == Cover :: !HasRow(data[j].values, zone, row)
    ensures OutcomeIn(data, false, zone, row, 2, old_) == RowOutcome(data[i].values, zone, row)
  {
    if i < |data| - 1 {
      LastCoverDecides(data[..|data| - 1], i, zone, row, old_);
    }
  }

  lemma {:induction false} NoWeightedCover(data: seq<EnergyData>, zone: int, row: int, old_: Outcome)
    ensures OutcomeIn(data, true, zone, row, 2, old_) == old_
  {
    if data != [] {
      NoWeightedCover(data[..|data| - 1], zone, row, old_);
    }
  }

  lemma CoverOutcome(data: seq<EnergyData>, i: nat, zone: int, row: int, old_: Outcome)
    requires i < |data| && data[i].code == Cover && HasRow(data[i].values, zone, row)
    requires forall j | i < j < |data| && data[j].code == Cover :: !HasRow(data[j].values, zone, row)
    ensures CodesLeave(Organized(data), data, zone, row, 2, old_) == RowOutcome(data[i].values, zone, row)
    ensures Visits(Organized(data), data, zone, row)
  {
    OrganizedVisits(data, zone, row);
    assert EntryVisits(data[i], zone, row);
    OrganizedOutcome(data, zone, row, 2, old_);
    LastCoverDecides(data, i, zone, row, old_);
    NoWeightedCover(data, zone, row, OutcomeIn(data, false, zone, row, 2, old_));
  }

  lemma MergedCell(rows: Rows, f: Rows, m: Meter, nCons: nat, nProd: nat, mcs: seq<CodeMeta>, data: seq<EnergyData>,
                   zone: int, row: int, delta: nat)
    requires InData(mcs, data) && Visits(mcs, data, zone, row)
    ensures Held(rows + ImportCodes(f, m, nCons, nProd, mcs, data, zone), m.dir, row, Base(m) + delta)
         == CodesLeave(mcs, data, zone, row, delta, Held(f, m.dir, row, Base(m) + delta))
  {
    ImportCodesCells(f, m, nCons, nProd, mcs, data, zone, m.dir, row, Base(m) + delta);
  }

  lemma StoredOutcome(rows: Rows, f: Rows, m: Meter, nCons: nat, nProd: nat, e: Energy, zone: int, row: int,
                      delta: nat, o: Outcome)
    requires f == Fetched(rows, Day(RowOf(e.start, zone)), Day(RowOf(e.end, zone)))
    requires Visits(Organized(e.data), e.data, zone, row)
    requires CodesLeave(Organized(e.data), e.data, zone, row, delta, Held(f, m.dir, row, Base(m) + delta)) == o
    ensures Held(StoreRows(rows, m, nCons, nProd, e, zone), m.dir, row, Base(m) + delta) == o
  {
    MergedCell(rows, f, m, nCons, nProd, Organized(e.data), e.data, zone, row, delta);
  }

  lemma NextProducer(m: Meter)
    requires m.dir.Producer?
    ensures FirstOf(Producer, m.sourceIdx + 1) == Base(m) + 2
  {
  }

  lemma CoverStored(rows: Rows, f: Rows, m: Meter, nCons: nat, nProd: nat, e: Energy, zone: int, row: int, c: nat,
                    o: Outcome)
    requires f == Fetched(rows, Day(RowOf(e.start, zone)), Day(RowOf(e.end, zone))) && c == Base(m) + 2
    requires Visits(Organized(e.data), e.data, zone, row)
    requires CodesLeave(Organized(e.data), e.data, zone, row, 2, Held(f, m.dir, row, c)) == o
    ensures Held(StoreRows(rows, m, nCons, nProd, e, zone), m.dir, row, c) == o
  {
    StoredOutcome(rows, f, m, nCons, nProd, e, zone, row, 2, o);
  }

  /** The coverage sent for a producer ends up in the first cell of the producer behind it. */
  lemma CoverageSpills(rows: Rows, m: Meter, nCons: nat, nProd: nat, e: Energy, zone: int, i: nat, row: int)
    requires m.dir.Producer? && i < |e.data| && e.data[i].code == Cover && HasRow(e.data[i].values, zone, row)
    requires forall j | i < j < |e.data| && e.data[j].code == Cover :: !HasRow(e.data[j].values, zone, row)
    ensures Held(StoreRows(rows, m, nCons, nProd, e, zone), Producer, row, FirstOf(Producer, m.sourceIdx + 1))
         == RowOutcome(e.data[i].values, zone, row)
  {
    var f, c := Fetched(rows, Day(RowOf(e.start, zone)), Day(RowOf(e.end, zone))), FirstOf(Producer, m.sourceIdx + 1);
    NextProducer(m);
    CoverOutcome(e.data, i, zone, row, Held(f, m.dir, row, c));
    CoverStored(rows, f, m, nCons, nProd, e, zone, row, c, RowOutcome(e.data[i].values, zone, row));
  }
}
