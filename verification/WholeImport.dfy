/** The whole import of a message, split by day: which daily messages fetch their rows, and when the
    import touches nothing but the cells of its own meter. */
module WholeImport {
  import opened Numbers
  import opened SourceLines
  import opened MeterRegistry
  import opened EnergyMessages
  import opened EnergyImport
  import opened DaySplit
  import opened DayJobs

  // ---- Which daily messages fetch their rows ---------------------------------------------

  /** A daily message fetches the rows it visits exactly when its end, a quarter of an hour before
      the end of its window, still lies on its day. */
  lemma DailyFetchesExactly(g: Energy, zone: int)
    requires StaysInDay(g, zone) && exists row :: Visits(Organized(g.data), g.data, zone, row)
    ensures FetchesItsRows(g, zone) <==> Day(RowOf(g.end, zone)) == GroupDay(g, zone)
  {
    var row :| Visits(Organized(g.data), g.data, zone, row);
    assert Day(row) == GroupDay(g, zone);
  }

  /** That fails only for the last day of a message that ends in the first quarter of an hour of
      this day. */
  lemma EndStaysOnDay(src: Energy, day: int, zone: int, n: int)
    requires Midnight(day, zone, n) && DayGroup(src, day) != []
    ensures Day(RowOf(DayGroup(src, day)[0].end, zone)) == n <==> day + QUARTER_MS <= src.end
  {
    InstantOfDay(DayGroup(src, day)[0].end, day, zone, n);
  }

  predicate Aligned(ts: int) {
    ts % QUARTER_MS == 0
  }

  predicate ValuesAligned(vs: seq<EnergyValue>) {
    forall j | 0 <= j < |vs| :: Aligned(vs[j].from) && Aligned(vs[j].to)
  }

  /** Every time of the message lies on the quarter-hour grid, and so do the local midnights. */
  ghost predicate OnGrid(src: Energy, zone: int) {
    && zone % 900 == 0 && Aligned(src.start) && Aligned(src.end)
    && forall i | 0 <= i < |src.data| :: ValuesAligned(src.data[i].values)
  }

  lemma {:induction false} PiecesAligned(vs: seq<EnergyValue>, lo: int, hi: int)
    requires ValuesAligned(vs) && Aligned(lo) && Aligned(hi)
    ensures ValuesAligned(Pieces(vs, lo, hi))
  {
    if vs != [] {
      PiecesAligned(vs[..|vs| - 1], lo, hi);
    }
  }

  lemma {:induction false} DayDataAligned(data: seq<EnergyData>, lo: int, hi: int)
    requires (forall i | 0 <= i < |data| :: ValuesAligned(data[i].values)) && Aligned(lo) && Aligned(hi)
    ensures forall i | 0 <= i < |DayData(data, lo, hi)| :: ValuesAligned(DayData(data, lo, hi)[i].values)
  {
    if data != [] {
      DayDataAligned(data[..|data| - 1], lo, hi);
      PiecesAligned(data[|data| - 1].values, lo, hi);
    }
  }

  lemma AlignedStep(a: int, b: int)
    requires Aligned(a) && Aligned(b) && a < b
    ensures a + QUARTER_MS <= b
  {
  }

  lemma DayAligned(src: Energy, day: int, zone: int, n: int)
    requires Midnight(day, zone, n) && OnGrid(src, zone)
    ensures Aligned(day)
  {
    assert day == (n * 96 - zone / 900) * QUARTER_MS;
  }

  lemma GridGroupEndsOnDay(src: Energy, day: int, zone: int, n: int)
    requires Midnight(day, zone, n) && OnGrid(src, zone) && DayGroup(src, day) != []
    ensures day + QUARTER_MS <= src.end
  {
    var lo, hi := Lo(src, day), Hi(src, day);
    DayAligned(src, day, zone, n);
    DayDataAligned(src.data, lo, hi);
    var v := DayData(src.data, lo, hi)[0].values[0];
    AlignedStep(v.from, v.to);
  }

  // ---- The day a daily message comes from -------------------------------------------------

  lemma {:induction false} GroupOrigin(src: Energy, first: int, k: nat, gs: seq<Energy>, i: nat) returns (d: nat)
    requires gs == Groups(src, first, k) && i < |gs|
    ensures d < k && DayGroup(src, DayAt(first, d)) == [gs[i]]
  {
    var rest := Groups(src, first, k - 1);
    if i < |rest| {
      d := GroupOrigin(src, first, k - 1, rest, i);
    } else {
      d := k - 1;
    }
  }

  lemma {:induction false} GroupMember(src: Energy, first: int, k: nat, gs: seq<Energy>, d: nat) returns (i: nat)
    requires gs == Groups(src, first, k) && d < k && DayGroup(src, DayAt(first, d)) != []
    ensures i < |gs| && DayGroup(src, DayAt(first, d)) == [gs[i]]
  {
    var rest := Groups(src, first, k - 1);
    if d < k - 1 {
      i := GroupMember(src, first, k - 1, rest, d);
    } else {
      i := |rest|;
    }
  }

  /** A message of the split with the midnight of its day. */
  lemma SplitOrigin(src: Energy, zone: int, i: nat) returns (day: int)
    requires i < |Split(src, zone)|
    ensures Midnight(day, zone, GroupDay(Split(src, zone)[i], zone)) && DayGroup(src, day) == [Split(src, zone)[i]]
  {
    var first := DayStart(src.start, zone);
    var d := GroupOrigin(src, first, DayCount(src, zone), Split(src, zone), i);
    day := DayAt(first, d);
    StartsOnFirstDay(src, zone);
    DayGroupStaysInDay(src, day, zone, (src.start + zone * 1000) / DAY_MS + d);
  }

  // ---- Pieces of a day ---------------------------------------------------------------------

  /** A value has a part inside the window. */
  predicate Touches(v: EnergyValue, lo: int, hi: int) {
    Max(v.from, lo) < Min(v.to, hi)
  }

  ghost predicate AnyTouches(vs: seq<EnergyValue>, lo: int, hi: int) {
    exists j :: 0 <= j < |vs| && Touches(vs[j], lo, hi)
  }

  lemma {:induction false} PiecesExactly(vs: seq<EnergyValue>, lo: int, hi: int)
    ensures Pieces(vs, lo, hi) != [] <==> AnyTouches(vs, lo, hi)
  {
    if vs != [] {
      var rest, n := vs[..|vs| - 1], |vs| - 1;
      PiecesExactly(rest, lo, hi);
      if AnyTouches(rest, lo, hi) {
        var j :| 0 <= j < |rest| && Touches(rest[j], lo, hi);
        assert vs[j] == rest[j];
      }
      if AnyTouches(vs, lo, hi) {
        var j :| 0 <= j < |vs| && Touches(vs[j], lo, hi);
        assert j < n ==> rest[j] == vs[j];
      }
    }
  }

  /** The entries of a day are those entries of the message that have a value touching it. */
  ghost predicate HasEntry(data: seq<EnergyData>, code: Code, lo: int, hi: int) {
    exists i :: 0 <= i < |data| && data[i].code == code && AnyTouches(data[i].values, lo, hi)
  }

  lemma HasEntryAppends(data: seq<EnergyData>, d: EnergyData, code: Code, lo: int, hi: int)
    ensures HasEntry(data + [d], code, lo, hi) <==>
            HasEntry(data, code, lo, hi) || (d.code == code && AnyTouches(d.values, lo, hi))
  {
    var all := data + [d];
    if HasEntry(data, code, lo, hi) {
      var i :| 0 <= i < |data| && data[i].code == code && AnyTouches(data[i].values, lo, hi);
      assert all[i] == data[i];
    }
    assert all[|data|] == d;
    if HasEntry(all, code, lo, hi) {
      var i :| 0 <= i < |all| && all[i].code == code && AnyTouches(all[i].values, lo, hi);
      assert i < |data| ==> all[i] == data[i];
    }
  }

  ghost predicate HasCode(data: seq<EnergyData>, code: Code) {
    exists k :: 0 <= k < |data| && data[k].code == code
  }

  lemma HasCodeAppends(data: seq<EnergyData>, d: EnergyData, code: Code)
    ensures HasCode(data + [d], code) <==> HasCode(data, code) || d.code == code
  {
    var all := data + [d];
    if HasCode(data, code) {
      var k :| 0 <= k < |data| && data[k].code == code;
      assert all[k] == data[k];
    }
    assert all[|data|] == d;
  }

  lemma {:induction false} DayDataExactly(data: seq<EnergyData>, code: Code, lo: int, hi: int)
    ensures HasCode(DayData(data, lo, hi), code) <==> HasEntry(data, code, lo, hi)
  {
    if data != [] {
      var rest, last := data[..|data| - 1], data[|data| - 1];
      DayDataExactly(rest, code, lo, hi);
      PiecesExactly(last.values, lo, hi);
      HasEntryAppends(rest, last, code, lo, hi);
      HasCodeAppends(DayData(rest, lo, hi), EnergyData(last.code, Pieces(last.values, lo, hi)), code);
      assert rest + [last] == data;
    }
  }

  // ---- Rows of a message -------------------------------------------------------------------

  predicate EntryVisits(d: EnergyData, zone: int, row: int) {
    IsListed(d.code) && HasRow(d.values, zone, row)
  }

  ghost predicate SomeEntryVisits(data: seq<EnergyData>, n: nat, tf: bool, zone: int, row: int)
    requires n <= |data|
  {
    exists i :: 0 <= i < n && EntryVisits(data[i], zone, row) && IsTF(data[i].code) == tf
  }

  lemma NextEntryVisits(data: seq<EnergyData>, n: nat, tf: bool, zone: int, row: int)
    requires n < |data|
    ensures SomeEntryVisits(data, n + 1, tf, zone, row) <==>
            SomeEntryVisits(data, n, tf, zone, row) || (EntryVisits(data[n], zone, row) && IsTF(data[n].code) == tf)
  {
  }

  lemma {:induction false} ListedVisits(data: seq<EnergyData>, n: nat, tf: bool, zone: int, row: int)
    requires n <= |data|
    ensures Visits(Listed(data, n, tf), data, zone, row) <==> SomeEntryVisits(data, n, tf, zone, row)
  {
    if n > 0 {
      ListedVisits(data, n - 1, tf, zone, row);
      NextListed(data, n - 1, tf);
      NextEntryVisits(data, n - 1, tf, zone, row);
    }
  }

  lemma {:induction false} VisitsEither(a: seq<CodeMeta>, b: seq<CodeMeta>, data: seq<EnergyData>, zone: int, row: int)
    requires InData(a, data) && InData(b, data)
    ensures InData(a + b, data)
    ensures Visits(a + b, data, zone, row) <==> Visits(a, data, zone, row) || Visits(b, data, zone, row)
  {
    if b == [] {
      assert a + b == a;
    } else {
      VisitsEither(a, b[..|b| - 1], data, zone, row);
      assert (a + b)[..|a + b| - 1] == a + b[..|b| - 1];
    }
  }

  /** A row is visited exactly by the values of the listed entries. */
  lemma OrganizedVisits(data: seq<EnergyData>, zone: int, row: int)
    ensures Visits(Organized(data), data, zone, row) <==>
            exists i :: 0 <= i < |data| && EntryVisits(data[i], zone, row)
  {
    ListedVisits(data, |data|, false, zone, row);
    ListedVisits(data, |data|, true, zone, row);
    VisitsEither(Listed(data, |data|, false), Listed(data, |data|, true), data, zone, row);
    if i :| 0 <= i < |data| && EntryVisits(data[i], zone, row) {
      assert SomeEntryVisits(data, |data|, IsTF(data[i].code), zone, row);
    }
  }

  ghost predicate HasListed(data: seq<EnergyData>) {
    exists k :: 0 <= k < |data| && IsListed(data[k].code) && data[k].values != []
  }

  lemma VisitsAny(data: seq<EnergyData>, zone: int)
    ensures (exists row :: Visits(Organized(data), data, zone, row)) <==> HasListed(data)
  {
    if row :| Visits(Organized(data), data, zone, row) {
      OrganizedVisits(data, zone, row);
    }
    if HasListed(data) {
      var k :| 0 <= k < |data| && IsListed(data[k].code) && data[k].values != [];
      var row := RowOf(data[k].values[0].from, zone);
      HasRowIff(data[k].values, zone, row);
      assert EntryVisits(data[k], zone, row);
      OrganizedVisits(data, zone, row);
    }
  }

  // ---- Isolation of the whole import --------------------------------------------------------

  /** Some listed value reaches into the last local day of the message, of which the message covers
      less than a quarter of an hour. */
  ghost predicate LosesTail(src: Energy, zone: int) {
    var d := DayStart(src.end, zone);
    src.end < d + QUARTER_MS && exists code :: IsListed(code) && HasEntry(src.data, code, Max(d, src.start), src.end)
  }

  /** A coverage value inside the message is sent for a producer. */
  ghost predicate SpillsOver(m: Meter, src: Energy) {
    m.dir.Producer? && HasEntry(src.data, Cover, src.start, src.end)
  }

  lemma GroupFetchesExactly(src: Energy, day: int, zone: int, n: int, g: Energy)
    requires Midnight(day, zone, n) && DayGroup(src, day) == [g] && src.start < day + DAY_MS
    ensures FetchesItsRows(g, zone) <==> day + QUARTER_MS <= src.end || !HasListed(g.data)
  {
    DayGroupStaysInDay(src, day, zone, n);
    EndStaysOnDay(src, day, zone, n);
    VisitsAny(g.data, zone);
    if exists row :: Visits(Organized(g.data), g.data, zone, row) {
      DailyFetchesExactly(g, zone);
    }
  }

  lemma GroupListsExactly(src: Energy, day: int, g: Energy)
    requires DayGroup(src, day) == [g]
    ensures HasListed(g.data) <==> exists code :: IsListed(code) && HasEntry(src.data, code, Lo(src, day), Hi(src, day))
  {
    var lo, hi := Lo(src, day), Hi(src, day);
    if HasListed(g.data) {
      var k :| 0 <= k < |g.data| && IsListed(g.data[k].code) && g.data[k].values != [];
      assert HasCode(g.data, g.data[k].code);
      DayDataExactly(src.data, g.data[k].code, lo, hi);
    }
    if code :| IsListed(code) && HasEntry(src.data, code, lo, hi) {
      DayDataExactly(src.data, code, lo, hi);
      var k :| 0 <= k < |g.data| && g.data[k].code == code;
      assert IsListed(g.data[k].code) && g.data[k].values != [];
    }
  }

  // ---- All days ----------------------------------------------------------------------------

  /** A value that touches the message touches one of its days, and the other way round. */
  lemma DayOfEntry(src: Energy, zone: int, code: Code) returns (d: nat)
    requires HasEntry(src.data, code, src.start, src.end)
    ensures d < DayCount(src, zone)
    ensures var day := DayAt(DayStart(src.start, zone), d); HasEntry(src.data, code, Lo(src, day), Hi(src, day))
  {
    var i :| 0 <= i < |src.data| && src.data[i].code == code && AnyTouches(src.data[i].values, src.start, src.end);
    var j :| 0 <= j < |src.data[i].values| && Touches(src.data[i].values[j], src.start, src.end);
    d := DayTouched(src.data[i].values[j], src, zone);
    var day := DayAt(DayStart(src.start, zone), d);
    assert Touches(src.data[i].values[j], Lo(src, day), Hi(src, day));
    assert AnyTouches(src.data[i].values, Lo(src, day), Hi(src, day));
  }

  lemma DayTouched(v: EnergyValue, src: Energy, zone: int) returns (d: nat)
    requires Touches(v, src.start, src.end)
    ensures d < DayCount(src, zone)
    ensures var day := DayAt(DayStart(src.start, zone), d); Touches(v, Lo(src, day), Hi(src, day))
  {
    var a := ClippedFrom(v, src);
    DayBounds(a, zone);
    DaysInOrder(src.start, a, zone);
    DaysInOrder(a, src.end, zone);
    DayCountIs(src, zone);
    d := LocalDay(a, zone) - LocalDay(src.start, zone);
  }

  lemma EntryInMessage(src: Energy, code: Code, lo: int, hi: int)
    requires HasEntry(src.data, code, lo, hi) && src.start <= lo && hi <= src.end
    ensures HasEntry(src.data, code, src.start, src.end)
  {
    var i :| 0 <= i < |src.data| && src.data[i].code == code && AnyTouches(src.data[i].values, lo, hi);
    var j :| 0 <= j < |src.data[i].values| && Touches(src.data[i].values[j], lo, hi);
    assert Touches(src.data[i].values[j], src.start, src.end);
    assert AnyTouches(src.data[i].values, src.start, src.end);
  }

  /** The group of a day stands somewhere in the split. */
  lemma GroupOfEntry(src: Energy, zone: int, code: Code, d: nat) returns (i: nat)
    requires d < DayCount(src, zone)
    requires var day := DayAt(DayStart(src.start, zone), d); HasEntry(src.data, code, Lo(src, day), Hi(src, day))
    ensures i < |Split(src, zone)| && DayGroup(src, DayAt(DayStart(src.start, zone), d)) == [Split(src, zone)[i]]
  {
    var day := DayAt(DayStart(src.start, zone), d);
    DayDataExactly(src.data, code, Lo(src, day), Hi(src, day));
    i := GroupMember(src, DayStart(src.start, zone), DayCount(src, zone), Split(src, zone), d);
  }

  /** The codes of all daily messages fit exactly when no coverage value inside the message is sent
      for a producer. */
  lemma GroupsFitExactly(m: Meter, src: Energy, zone: int)
    ensures (forall g | g in Split(src, zone) :: CodesFit(m, g.data)) <==> !SpillsOver(m, src)
  {
    if SpillsOver(m, src) {
      var d := DayOfEntry(src, zone, Cover);
      var day := DayAt(DayStart(src.start, zone), d);
      var i := GroupOfEntry(src, zone, Cover, d);
      DayDataExactly(src.data, Cover, Lo(src, day), Hi(src, day));
      assert !CodesFit(m, Split(src, zone)[i].data);
    } else {
      forall g | g in Split(src, zone) ensures CodesFit(m, g.data) {
        var i: nat :| i < |Split(src, zone)| && Split(src, zone)[i] == g;
        GroupFitsUnlessSpilled(m, src, zone, i);
      }
    }
  }

  lemma GroupFitsUnlessSpilled(m: Meter, src: Energy, zone: int, i: nat)
    requires i < |Split(src, zone)| && !SpillsOver(m, src)
    ensures CodesFit(m, Split(src, zone)[i].data)
  {
    var day := SplitOrigin(src, zone, i);
    var lo, hi := Lo(src, day), Hi(src, day);
    DayDataExactly(src.data, Cover, lo, hi);
    if m.dir.Producer? && HasEntry(src.data, Cover, lo, hi) {
      EntryInMessage(src, Cover, lo, hi);
    }
  }

  /** All daily messages fetch their rows exactly when no listed value reaches into a last day that
      the message covers for less than a quarter of an hour. */
  lemma GroupsFetchExactly(src: Energy, zone: int)
    ensures (forall g | g in Split(src, zone) :: FetchesItsRows(g, zone)) <==> !LosesTail(src, zone)
  {
    if LosesTail(src, zone) {
      var i := TailGroup(src, zone);
      assert Split(src, zone)[i] in Split(src, zone);
    } else {
      forall g | g in Split(src, zone) ensures FetchesItsRows(g, zone) {
        var i: nat :| i < |Split(src, zone)| && Split(src, zone)[i] == g;
        GroupFetchesUnlessTail(src, zone, i);
      }
    }
  }

  lemma GroupDayOf(src: Energy, zone: int, i: nat) returns (day: int)
    requires i < |Split(src, zone)|
    ensures Midnight(day, zone, GroupDay(Split(src, zone)[i], zone)) && DayGroup(src, day) == [Split(src, zone)[i]]
    ensures src.start < day + DAY_MS && day <= DayStart(src.end, zone)
  {
    var first := DayStart(src.start, zone);
    var d := GroupOrigin(src, first, DayCount(src, zone), Split(src, zone), i);
    day := DayAt(first, d);
    StartsOnFirstDay(src, zone);
    DayGroupStaysInDay(src, day, zone, (src.start + zone * 1000) / DAY_MS + d);
    LastDay(src, zone, d);
  }

  lemma LastDay(src: Energy, zone: int, d: nat)
    requires d < DayCount(src, zone)
    ensures DayAt(DayStart(src.start, zone), d) <= DayStart(src.end, zone)
  {
    var a, b := LocalDay(src.start, zone), LocalDay(src.end, zone);
    assert (b * DAY_MS - a * DAY_MS) / DAY_MS == b - a;
  }

  lemma GroupFetchesUnlessTail(src: Energy, zone: int, i: nat)
    requires i < |Split(src, zone)|
    ensures LosesTail(src, zone) || FetchesItsRows(Split(src, zone)[i], zone)
  {
    var g := Split(src, zone)[i];
    var day := GroupDayOf(src, zone, i);
    GroupFetchesExactly(src, day, zone, GroupDay(g, zone), g);
    GroupListsExactly(src, day, g);
    if day + QUARTER_MS > src.end && HasListed(g.data) {
      LastMidnight(src, day, zone, GroupDay(g, zone));
      assert Hi(src, day) == src.end;
      var code :| IsListed(code) && HasEntry(src.data, code, Lo(src, day), Hi(src, day));
      assert LosesTail(src, zone);
    }
  }

  /** A local midnight less than a day before the end is the one of the last day. */
  lemma LastMidnight(src: Energy, day: int, zone: int, n: int)
    requires Midnight(day, zone, n) && day <= DayStart(src.end, zone) && src.end < day + QUARTER_MS
    ensures day == DayStart(src.end, zone)
  {
    var b := LocalDay(src.end, zone);
    assert day == n * DAY_MS - zone * 1000 && DayStart(src.end, zone) == b * DAY_MS - zone * 1000;
    DayBounds(src.end, zone);
    assert n <= b && b * DAY_MS < n * DAY_MS + QUARTER_MS;
  }

  lemma TailGroup(src: Energy, zone: int) returns (i: nat)
    requires LosesTail(src, zone)
    ensures i < |Split(src, zone)| && !FetchesItsRows(Split(src, zone)[i], zone)
  {
    var last := DayStart(src.end, zone);
    var code :| IsListed(code) && HasEntry(src.data, code, Max(last, src.start), src.end);
    var f := DayStart(src.start, zone);
    TailInside(src, code, Max(last, src.start));
    DayCountIs(src, zone);
    var d := DayCount(src, zone) - 1;
    DaysInOrder(src.start, src.end, zone);
    assert DayAt(f, d) == last;
    DayBounds(src.end, zone);
    assert Hi(src, last) == src.end;
    i := GroupOfEntry(src, zone, code, d);
    var g := Split(src, zone)[i];
    var day := GroupDayOf(src, zone, i);
    GroupListsExactly(src, last, g);
    StartsOnFirstDay(src, zone);
    GroupFetchesExactly(src, last, zone, LocalDay(src.end, zone), g);
  }

  lemma TailInside(src: Energy, code: Code, lo: int)
    requires HasEntry(src.data, code, lo, src.end) && src.start <= lo
    ensures src.start < src.end
  {
    var i :| 0 <= i < |src.data| && src.data[i].code == code && AnyTouches(src.data[i].values, lo, src.end);
    var j :| 0 <= j < |src.data[i].values| && Touches(src.data[i].values[j], lo, src.end);
  }

  /** The whole import changes no value of another meter, whatever is stored. */
  ghost predicate ImportIsolated(imp: Import, src: Energy) {
    forall rows: Rows, dir, row, c: nat | !OwnCell(imp.m, dir, c) ::
      Cell(StoreAll(rows, imp, Split(src, imp.zone)), dir, row, c) == Cell(rows, dir, row, c)
  }

  /** A daily message that touches other meters does so in the whole import as well. */
  lemma GroupDamageStays(imp: Import, src: Energy, i: nat)
    requires i < |Split(src, imp.zone)|
    requires !Isolated(imp.m, imp.nCons, imp.nProd, Split(src, imp.zone)[i], imp.zone)
    ensures !ImportIsolated(imp, src)
  {
    var groups := Split(src, imp.zone);
    var g := groups[i];
    var rows: Rows, dir, row, c: nat :| !OwnCell(imp.m, dir, c) &&
      Cell(StoreRows(rows, imp.m, imp.nCons, imp.nProd, g, imp.zone), dir, row, c) != Cell(rows, dir, row, c);
    SplitIsDaily(src, imp.zone);
    JobIsLocal(rows, rows, imp, g);
    assert row in JobWrites(rows, imp, g);
    OwnerIsDay(groups, imp.zone, row, i);
    StoreAllRow(rows, imp, groups, row);
    AgreeingRow(StoreAll(rows, imp, groups), StoreRows(rows, imp.m, imp.nCons, imp.nProd, g, imp.zone), dir, row, c);
  }

  lemma IsolatedGroupsSuffice(rows: Rows, imp: Import, src: Energy, dir: Direction, row: int, c: nat)
    requires !OwnCell(imp.m, dir, c)
    requires forall g | g in Split(src, imp.zone) :: FetchesItsRows(g, imp.zone) && CodesFit(imp.m, g.data)
    ensures Cell(StoreAll(rows, imp, Split(src, imp.zone)), dir, row, c) == Cell(rows, dir, row, c)
  {
    var groups := Split(src, imp.zone);
    SplitIsDaily(src, imp.zone);
    StoreAllRow(rows, imp, groups, row);
    var i := OwnerOf(groups, imp.zone, row);
    if i >= 0 {
      assert groups[i] in groups;
      IsolatedCell(rows, imp.m, imp.nCons, imp.nProd, groups[i], imp.zone, dir, row, c);
      AgreeingRow(StoreAll(rows, imp, groups), StoreRows(rows, imp.m, imp.nCons, imp.nProd, groups[i], imp.zone), dir,
        row, c);
    } else {
      AgreeingRow(StoreAll(rows, imp, groups), rows, dir, row, c);
    }
  }

  /** Exactly when no listed value reaches into a last day that is covered for less than a quarter of
      an hour, and no coverage value inside the message is sent for a producer, the import of a
      message leaves every cell of every other meter as it was, in every row of every store. */
  lemma ImportIsolatedExactly(imp: Import, src: Energy)
    ensures ImportIsolated(imp, src) <==> !LosesTail(src, imp.zone) && !SpillsOver(imp.m, src)
  {
    GroupsFetchExactly(src, imp.zone);
    GroupsFitExactly(imp.m, src, imp.zone);
    if !LosesTail(src, imp.zone) && !SpillsOver(imp.m, src) {
      forall rows: Rows, dir, row, c: nat | !OwnCell(imp.m, dir, c)
        ensures Cell(StoreAll(rows, imp, Split(src, imp.zone)), dir, row, c) == Cell(rows, dir, row, c)
      {
        IsolatedGroupsSuffice(rows, imp, src, dir, row, c);
      }
    } else {
      var g :| g in Split(src, imp.zone) && !(FetchesItsRows(g, imp.zone) && CodesFit(imp.m, g.data));
      var i: nat :| i < |Split(src, imp.zone)| && Split(src, imp.zone)[i] == g;
      IsolatedExactly(imp.m, imp.nCons, imp.nProd, g, imp.zone);
      GroupDamageStays(imp, src, i);
    }
  }

  /** A message on the quarter-hour grid has no such last day. */
  lemma GridKeepsTail(src: Energy, zone: int)
    requires OnGrid(src, zone)
    ensures !LosesTail(src, zone)
  {
    if LosesTail(src, zone) {
      var i := TailGroup(src, zone);
      var day := GroupDayOf(src, zone, i);
      var n := GroupDay(Split(src, zone)[i], zone);
      GridGroupEndsOnDay(src, day, zone, n);
      GroupFetchesExactly(src, day, zone, n, Split(src, zone)[i]);
      assert false;
    }
  }

  lemma SpillingCodesFitNot(m: Meter, src: Energy)
    requires SpillsOver(m, src)
    ensures !CodesFit(m, src.data)
  {
    var i :| 0 <= i < |src.data| && src.data[i].code == Cover && AnyTouches(src.data[i].values, src.start, src.end);
  }

  /** So the import of a message on the grid with fitting codes fetches every row it visits, and
      leaves every cell of every other meter as it was. */
  lemma NoLostData(rows: Rows, imp: Import, src: Energy, dir: Direction, row: int, c: nat)
    requires OnGrid(src, imp.zone) && CodesFit(imp.m, src.data) && !OwnCell(imp.m, dir, c)
    ensures forall g | g in Split(src, imp.zone) :: FetchesItsRows(g, imp.zone)
    ensures Cell(StoreAll(rows, imp, Split(src, imp.zone)), dir, row, c) == Cell(rows, dir, row, c)
  {
    GridKeepsTail(src, imp.zone);
    if SpillsOver(imp.m, src) {
      SpillingCodesFitNot(imp.m, src);
      assert false;
    }
    GroupsFetchExactly(src, imp.zone);
    ImportIsolatedExactly(imp, src);
  }
}
