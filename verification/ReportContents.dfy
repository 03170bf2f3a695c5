/** What the reports show, told from the cells of the lines: every field of a line, every hour of the day
    and every named series. */
module ReportContents {
  import opened Numbers
  import opened SourceLines
  import opened GapFill
  import opened MeterPeriods
  import opened WindowCache
  import opened WindowTimes
  import opened WindowGroups
  import opened EnergyReports
  import opened ReportTotals

  // ---- Fields -------------------------------------------------------------------------------

  /** The sum of n cells, one in every `step` from the first one on. */
  function Every(s: seq<real>, first: nat, step: nat, n: nat): real {
    if n == 0 then 0.0 else Every(s, first, step, n - 1) + SourceLines.At(s, first + step * (n - 1), 0.0)
  }

  lemma {:induction false} StridedIsEvery(l: Line, n: nat)
    ensures Strided(l, Consumed, n) == Every(l.consumers, 0, 3, n)
    ensures Strided(l, Allocated, n) == Every(l.consumers, 1, 3, n)
    ensures Strided(l, Distributed, n) == Every(l.consumers, 2, 3, n)
    ensures Strided(l, Produced, n) == Every(l.producers, 0, 2, n)
    ensures Strided(l, Unused, n) == Every(l.producers, 1, 2, n)
  {
    if n > 0 {
      StridedIsEvery(l, n - 1);
    }
  }

  /** A line adds the first cell of each whole consumer to the consumed energy, the second to the allocated
      and the third to the distributed energy; the first cell of each whole producer to the produced and
      the second to the unused energy, which the summary leaves out. */
  lemma LineFields(p: Policy, r: ReportData, line: Line)
    requires HasMarks(p, line)
    ensures var s, n, m := AddLine(p, r, line), |line.consumers| / 3, |line.producers| / 2;
      && s.consumed == r.consumed + Every(line.consumers, 0, 3, n)
      && s.alloc == r.alloc + Every(line.consumers, 1, 3, n)
      && s.distributed == r.distributed + Every(line.consumers, 2, 3, n)
      && s.produced == r.produced + Every(line.producers, 0, 2, m)
      && s.unused == r.unused + if p.SkipLast? then 0.0 else Every(line.producers, 1, 2, m)
  {
    forall f: Field | !(p.SkipLast? && f.Unused?)
      ensures Get(AddLine(p, r, line), f) == Get(r, f) + LineTotal(line, f)
    {
      AddLineGets(p, r, line, f);
    }
    StridedIsEvery(line, |line.consumers| / 3);
    StridedIsEvery(line, |line.producers| / 2);
    assert Get(AddLine(p, r, line), Consumed) == Get(r, Consumed) + LineTotal(line, Consumed);
    assert Get(AddLine(p, r, line), Allocated) == Get(r, Allocated) + LineTotal(line, Allocated);
    assert Get(AddLine(p, r, line), Distributed) == Get(r, Distributed) + LineTotal(line, Distributed);
    assert Get(AddLine(p, r, line), Produced) == Get(r, Produced) + LineTotal(line, Produced);
    if p.SkipLast? {
      UnusedStays(p, r, line, |line.consumers| / 3, |line.producers| / 2);
    } else {
      assert Get(AddLine(p, r, line), Unused) == Get(r, Unused) + LineTotal(line, Unused);
    }
  }

  lemma {:induction false} UnusedStays(p: Policy, r: ReportData, line: Line, n: nat, m: nat)
    requires HasMarks(p, line) && p.SkipLast? && 3 * n <= |line.consumers| && 2 * m <= |line.producers|
    ensures AddConsumers(p, r, line, n).unused == r.unused
    ensures AddProducers(p, AddConsumers(p, r, line, n), line, m).unused == r.unused
    decreases n + m
  {
    if n > 0 {
      UnusedStays(p, r, line, n - 1, 0);
    }
    if m > 0 {
      UnusedStays(p, r, line, n, m - 1);
    }
  }

  // ---- Windows of some times ------------------------------------------------------------------

  /** What the windows of these times hold of a field. */
  function TotalIn(ws: seq<Window>, p: Span, f: Field): real {
    if ws == [] then 0.0
    else
      var last := ws[|ws| - 1];
      TotalIn(ws[..|ws| - 1], p, f) + if p(last.time) then LineTotal(last.line, f) else 0.0
  }

  lemma TotalAppends(ws: seq<Window>, w: Window, p: Span, f: Field)
    ensures TotalIn(ws + [w], p, f) == TotalIn(ws, p, f) + if p(w.time) then LineTotal(w.line, f) else 0.0
  {
    assert (ws + [w])[..|ws|] == ws;
  }

  // ---- Hours of the day -----------------------------------------------------------------------

  /** The times in an hour of the day. */
  function InHour(h: nat): Span {
    t => t % 86400 / 3600 == h
  }

  /** Bucket h is that of the hour behind it. */
  lemma HourOfExactly(t: int, h: nat)
    requires h < 24
    ensures HourOf(t) == h <==> InHour((h + 1) % 24)(t)
  {
    var r := t % 86400;
    assert t == t / 86400 * 86400 + r;
    if r >= HOUR {
      assert (t - HOUR) % 86400 == r - HOUR;
    } else {
      assert t - HOUR == (t / 86400 - 1) * 86400 + (r - HOUR + 86400);
      assert (t - HOUR) % 86400 == r - HOUR + 86400;
    }
  }

  /** Each bucket holds exactly the windows that start in the hour behind it. */
  lemma {:induction false} BucketHolds(ws: seq<Window>, h: nat, f: Field)
    requires AllMarked(ws) && h < 24
    ensures Get(Bucket(HoursOf(ws), h), f) == TotalIn(ws, InHour((h + 1) % 24), f)
  {
    if ws != [] {
      var rest, last := ws[..|ws| - 1], ws[|ws| - 1];
      BucketHolds(rest, h, f);
      HourOfExactly(last.time, h);
      AddLineGets(Plain, Bucket(HoursOf(rest), HourOf(last.time)), last.line, f);
    }
  }

  /** The report of a run: 24 entries, entry h with what the windows of hour h + 1 hold. */
  method ReportHours(sz: Sizes, start: int, feed: seq<Line>) returns (data: seq<ReportData>)
    requires AllFit(feed, sz)
    ensures |data| == 24
    ensures forall h: nat, f | h < 24 ::
      Get(data[h], f) == TotalIn(Windows(start, NextHour, sz, feed), InHour((h + 1) % 24), f)
  {
    var report := new IntraDay(sz);
    report.Query(start, feed);
    data := report.GetResult();
    forall h: nat, f | h < 24
      ensures Get(data[h], f) == TotalIn(Windows(start, NextHour, sz, feed), InHour((h + 1) % 24), f)
    {
      BucketHolds(Windows(start, NextHour, sz, feed), h, f);
    }
  }

  // ---- From lines to hours --------------------------------------------------------------------

  /** The cells of a field of the first n meters, over the lines of these times. */
  function MetersIn(feed: seq<Line>, p: Span, f: Field, n: nat): real
    requires WithIds(feed)
  {
    if n == 0 then 0.0 else MetersIn(feed, p, f, n - 1) + GroupCell(feed, p, DirOf(f), CellIndex(f, n - 1))
  }

  lemma {:induction false} MetersAppend(feed: seq<Line>, last: Line, p: Span, f: Field, n: nat)
    requires WithIds(feed) && HasId(last)
    ensures WithIds(feed + [last])
    ensures MetersIn(feed + [last], p, f, n) ==
            MetersIn(feed, p, f, n) + if p(last.id.time) then Strided(last, f, n) else 0.0
  {
    assert (feed + [last])[..|feed|] == feed;
    if n > 0 {
      MetersAppend(feed, last, p, f, n - 1);
    }
  }

  lemma {:induction false} NoLines(p: Span, f: Field, n: nat)
    ensures MetersIn([], p, f, n) == 0.0
  {
    if n > 0 {
      NoLines(p, f, n - 1);
    }
  }

  lemma {:induction false} StridedSame(a: Line, b: Line, f: Field, n: nat)
    requires forall i: nat :: CellOf(a, DirOf(f), i) == CellOf(b, DirOf(f), i)
    ensures Strided(a, f, n) == Strided(b, f, n)
  {
    if n > 0 {
      StridedSame(a, b, f, n - 1);
    }
  }

  lemma {:induction false} StridedAdds(l: Line, line: Line, sz: Sizes, f: Field, n: nat)
    requires FullSize(l, sz) && Fits(line, sz) && n <= Meters(sz, f)
    ensures Strided(Added(l, line), f, n) == Strided(l, f, n) + Strided(line, f, n)
  {
    if n > 0 {
      StridedAdds(l, line, sz, f, n - 1);
    }
  }

  lemma {:induction false} NothingStrided(sz: Sizes, f: Field, n: nat)
    ensures Strided(EmptyCache(sz), f, n) == 0.0
  {
    if n > 0 {
      NothingStrided(sz, f, n - 1);
    }
  }

  lemma OpenedTotal(line: Line, sz: Sizes, f: Field)
    requires Fits(line, sz)
    ensures LineTotal(DeepCopy(line, sz.nCons, sz.nProd), f) == Strided(line, f, Meters(sz, f))
  {
    StridedSame(DeepCopy(line, sz.nCons, sz.nProd), line, f, Meters(sz, f));
  }

  lemma JoinedLineTotal(l: Line, last: Line, sz: Sizes, f: Field)
    requires FullSize(l, sz) && Fits(last, sz)
    ensures LineTotal(Added(l, last), f) == LineTotal(l, f) + Strided(last, f, Meters(sz, f))
  {
    StridedAdds(l, last, sz, f, Meters(sz, f));
  }

  lemma JoinedTotal(ws: seq<Window>, s: Cached, last: Line, sz: Sizes, p: Span, f: Field)
    requires FullSize(s.line, sz) && Fits(last, sz)
    ensures TotalIn(ws + [Window(s.time, Added(s.line, last))], p, f) ==
            TotalIn(ws + [Window(s.time, s.line)], p, f) + if p(s.time) then Strided(last, f, Meters(sz, f)) else 0.0
  {
    TotalAppends(ws, Window(s.time, s.line), p, f);
    TotalAppends(ws, Window(s.time, Added(s.line, last)), p, f);
    JoinedLineTotal(s.line, last, sz, f);
  }

  /** One more line adds its cells to the window that it is put into. */
  lemma NextTotal(ws: seq<Window>, s: Cached, next: Next, last: Line, sz: Sizes, p: Span, f: Field)
    requires HasId(last) && FullSize(s.line, sz) && Fits(last, sz)
    ensures var (after, out) := Step(s, next, sz, last);
      TotalIn(ws + out + [Window(after.time, after.line)], p, f) ==
      TotalIn(ws + [Window(s.time, s.line)], p, f) + if p(after.time) then Strided(last, f, Meters(sz, f)) else 0.0
  {
    if last.id.time < next(s.time) {
      JoinedTotal(ws, s, last, sz, p, f);
      assert ws + [] == ws;
    } else {
      TotalAppends(ws + [Window(s.time, s.line)], Window(next(s.time), DeepCopy(last, sz.nCons, sz.nProd)), p, f);
      OpenedTotal(last, sz, f);
    }
  }

  /** Every line is put into a window whose time has what the line's time has. */
  ghost predicate Respects(start: int, next: Next, sz: Sizes, feed: seq<Line>, p: Span)
    requires WithIds(feed)
  {
    forall n | 1 <= n <= |feed| :: p(After(Opening(start, sz), next, sz, feed[..n]).time) == p(feed[n - 1].id.time)
  }

  /** The closed windows and the open one hold of these times what the first n lines do. */
  ghost predicate Caught(start: int, next: Next, sz: Sizes, feed: seq<Line>, n: nat, p: Span, f: Field)
    requires WithIds(feed) && n <= |feed|
  {
    var s, ws := After(Opening(start, sz), next, sz, feed[..n]), Emitted(Opening(start, sz), next, sz, feed[..n]);
    TotalIn(ws + [Window(s.time, s.line)], p, f) == MetersIn(feed[..n], p, f, Meters(sz, f))
  }

  lemma NothingCaught(start: int, next: Next, sz: Sizes, feed: seq<Line>, p: Span, f: Field)
    requires WithIds(feed)
    ensures Caught(start, next, sz, feed, 0, p, f)
  {
    NothingStrided(sz, f, Meters(sz, f));
    NoLines(p, f, Meters(sz, f));
    TotalAppends([], Window(start, EmptyCache(sz)), p, f);
    assert feed[..0] == [];
  }

  lemma NextCaught(start: int, next: Next, sz: Sizes, feed: seq<Line>, n: nat, p: Span, f: Field)
    requires AllFit(feed, sz) && n < |feed| && Caught(start, next, sz, feed, n, p, f)
    requires p(After(Opening(start, sz), next, sz, feed[..n + 1]).time) == p(feed[n].id.time)
    ensures Caught(start, next, sz, feed, n + 1, p, f)
  {
    var s0 := Opening(start, sz);
    NextLine(s0, next, sz, feed, n);
    AfterFullSize(s0, next, sz, feed[..n]);
    NextTotal(Emitted(s0, next, sz, feed[..n]), After(s0, next, sz, feed[..n]), next, feed[n], sz, p, f);
    MetersAppend(feed[..n], feed[n], p, f, Meters(sz, f));
    assert feed[..n] + [feed[n]] == feed[..n + 1];
  }

  lemma {:induction false} RunCaught(start: int, next: Next, sz: Sizes, feed: seq<Line>, n: nat, p: Span, f: Field)
    requires AllFit(feed, sz) && Respects(start, next, sz, feed, p) && n <= |feed|
    ensures Caught(start, next, sz, feed, n, p, f)
  {
    if n == 0 {
      NothingCaught(start, next, sz, feed, p, f);
    } else {
      RunCaught(start, next, sz, feed, n - 1, p, f);
      NextCaught(start, next, sz, feed, n - 1, p, f);
    }
  }

  /** Whatever the windows: when they respect a grouping of times, the windows of a group hold the cells of
      all registered meters over the lines of the group. */
  lemma WindowsShowLines(start: int, next: Next, sz: Sizes, feed: seq<Line>, p: Span, f: Field)
    requires AllFit(feed, sz) && Respects(start, next, sz, feed, p)
    ensures TotalIn(Windows(start, next, sz, feed), p, f) == MetersIn(feed, p, f, Meters(sz, f))
  {
    RunCaught(start, next, sz, feed, |feed|, p, f);
    assert feed[..|feed|] == feed;
  }

  /** Times inside an hour that starts with the full hour lie in the same hour of the day. */
  lemma SameHour(s: int, t: int, h: nat)
    requires s % 3600 == 0 && s <= t < s + 3600
    ensures InHour(h)(s) == InHour(h)(t)
  {
    HourIs(s / 3600, 0);
    HourIs(s / 3600, t - s);
  }

  lemma HourIs(q: int, r: int)
    requires 0 <= r < 3600
    ensures (q * 3600 + r) % 86400 / 3600 == q % 24
  {
    var d, e := q / 24, q % 24;
    QuotientOf(q * 3600 + r, d, e * 3600 + r, 86400);
    QuotientOf(e * 3600 + r, e, r, 3600);
  }

  lemma {:induction false} FullHours(start: int, w: nat)
    requires start % 3600 == 0
    ensures Bound(start, NextHour, w) % 3600 == 0
  {
    if w > 0 {
      FullHours(start, w - 1);
    }
  }

  lemma HoursAreRespected(start: int, sz: Sizes, feed: seq<Line>, h: nat)
    requires WithIds(feed) && OnTime(start, NextHour, sz, feed) && start % 3600 == 0
    ensures Respects(start, NextHour, sz, feed, InHour(h))
  {
    forall n | 1 <= n <= |feed|
      ensures InHour(h)(After(Opening(start, sz), NextHour, sz, feed[..n]).time) == InHour(h)(feed[n - 1].id.time)
    {
      assert RightAfter(start, NextHour, sz, feed, n);
      TimeOfWindow(start, NextHour, sz, feed, n);
      FullHours(start, HandedBy(start, NextHour, sz, feed, n));
      SameHour(After(Opening(start, sz), NextHour, sz, feed[..n]).time, feed[n - 1].id.time, h);
    }
  }

  /** On a feed that keeps to its windows from a full hour on, entry h of the report shows the cells of all
      registered meters over the lines of hour h + 1. */
  lemma HoursShowLines(start: int, sz: Sizes, feed: seq<Line>, h: nat, f: Field)
    requires AllFit(feed, sz) && OnTime(start, NextHour, sz, feed) && start % 3600 == 0 && h < 24
    ensures AllMarked(Windows(start, NextHour, sz, feed))
    ensures Get(Bucket(HoursOf(Windows(start, NextHour, sz, feed)), h), f) ==
            MetersIn(feed, InHour((h + 1) % 24), f, Meters(sz, f))
  {
    WindowsAreMarked(start, NextHour, sz, feed);
    BucketHolds(Windows(start, NextHour, sz, feed), h, f);
    HoursAreRespected(start, sz, feed, (h + 1) % 24);
    WindowsShowLines(start, NextHour, sz, feed, InHour((h + 1) % 24), f);
  }

  lemma {:induction false} MetersAlike(a: seq<Line>, b: seq<Line>, p: Span, f: Field, n: nat)
    requires WithIds(a) && WithIds(b)
    requires forall i: nat :: GroupCell(a, p, DirOf(f), i) == GroupCell(b, p, DirOf(f), i)
    ensures MetersIn(a, p, f, n) == MetersIn(b, p, f, n)
  {
    if n > 0 {
      MetersAlike(a, b, p, f, n - 1);
    }
  }

  lemma FillsAddToNoMeter(rows: seq<Line>, sz: Sizes, p: Span, f: Field, n: nat)
    requires WithIds(rows)
    ensures MetersIn(Fed(rows, 0, sz.nCons, sz.nProd), p, f, n) == MetersIn(rows, p, f, n)
  {
    var feed := Fed(rows, 0, sz.nCons, sz.nProd);
    forall i: nat ensures GroupCell(feed, p, DirOf(f), i) == GroupCell(rows, p, DirOf(f), i) {
      FillsAddNothing(rows, |rows|, 0, sz, p, DirOf(f), i);
      assert rows[..|rows|] == rows;
    }
    MetersAlike(feed, rows, p, f, n);
  }

  /** From the stored rows to the report: rows of any length on the grid, the first of them in the first
      two hours behind the start, read without a shift. */
  lemma {:induction false} HoursShowRows(start: int, sz: Sizes, rows: seq<Line>, feed: seq<Line>, h: nat, f: Field)
    requires AllFit(rows, sz) && GapFill.OnGrid(rows) && rows != [] && feed == Fed(rows, 0, sz.nCons, sz.nProd)
    requires start % 3600 == 0 && start <= rows[0].id.time < start + 7200 && h < 24
    ensures AllMarked(Windows(start, NextHour, sz, feed))
    ensures Get(Bucket(HoursOf(Windows(start, NextHour, sz, feed)), h), f) ==
            MetersIn(rows, InHour((h + 1) % 24), f, Meters(sz, f))
  {
    FeedOfQuery(rows, feed, sz);
    OnTimeExactly(start, NextHour, sz, feed);
    HoursShowLines(start, sz, feed, h, f);
    FillsAddToNoMeter(rows, sz, InHour((h + 1) % 24), f, Meters(sz, f));
  }

  // ---- Named series -----------------------------------------------------------------------------

  /** The times that belong to a series. */
  function Named(series: Series, name: string): Span {
    t => series.names(t) == name
  }

  /** Window i is the last one of the series. */
  ghost predicate LastOf(ws: seq<Window>, series: Series, name: string, i: nat) {
    && i < |ws| && series.names(ws[i].time) == name
    && forall j | i < j < |ws| :: series.names(ws[j].time) != name
  }

  lemma LastOfNext(ws: seq<Window>, series: Series, name: string, i: nat)
    requires ws != [] && LastOf(ws, series, name, i)
    ensures i == |ws| - 1 || LastOf(ws[..|ws| - 1], series, name, i)
  {
  }

  /** Every series holds exactly the windows with its name, and the members counted at the last of
      them. */
  lemma {:induction false} SeriesHolds(ws: seq<Window>, series: Series, name: string, f: Field, i: nat)
    requires LastOf(ws, series, name, i)
    ensures var c := CurveOf(ws, series);
      && name in c && Get(c[name], f) == TotalIn(ws, Named(series, name), f)
      && c[name].cntConsumer == Members(series.consumers, ws[i].time, ws[i].time)
      && c[name].cntProducer == Members(series.producers, ws[i].time, ws[i].time)
  {
    var rest, last := ws[..|ws| - 1], ws[|ws| - 1];
    var c := CurveOf(rest, series);
    AddLineGets(Reset, if series.names(last.time) in c then c[series.names(last.time)] else ZERO, last.line, f);
    if i < |ws| - 1 {
      LastOfNext(ws, series, name, i);
      SeriesHolds(rest, series, name, f, i);
    } else {
      SeriesBefore(rest, series, name, f);
    }
  }

  lemma {:induction false} SeriesBefore(ws: seq<Window>, series: Series, name: string, f: Field)
    ensures var c := CurveOf(ws, series);
      (if name in c then Get(c[name], f) else 0.0) == TotalIn(ws, Named(series, name), f)
  {
    if ws != [] {
      var rest, last := ws[..|ws| - 1], ws[|ws| - 1];
      var c := CurveOf(rest, series);
      SeriesBefore(rest, series, name, f);
      AddLineGets(Reset, if series.names(last.time) in c then c[series.names(last.time)] else ZERO, last.line, f);
    }
  }

  /** There is a series for each name of a window and for no other. */
  lemma {:induction false} SeriesExactly(ws: seq<Window>, series: Series, name: string)
    ensures name in CurveOf(ws, series) <==> exists i :: 0 <= i < |ws| && series.names(ws[i].time) == name
  {
    if ws != [] {
      var rest := ws[..|ws| - 1];
      SeriesExactly(rest, series, name);
      assert forall i | 0 <= i < |rest| :: rest[i] == ws[i];
      if series.names(ws[|ws| - 1].time) != name {
        if i :| 0 <= i < |ws| && series.names(ws[i].time) == name {
          assert rest[i] == ws[i];
        }
      }
    }
  }

  /** Without windows every line is a window at its own time. */
  lemma {:induction false} RawWindowsAre(feed: seq<Line>, i: nat)
    requires WithIds(feed) && i < |feed|
    ensures |RawWindows(feed)| == |feed| && RawWindows(feed)[i] == Window(feed[i].id.time, feed[i])
  {
    var n := |feed| - 1;
    if n > 0 {
      RawWindowsAre(feed[..n], if i < n then i else 0);
    }
  }
}
