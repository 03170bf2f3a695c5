/** The totals of the three reports compared: what each of them loses, exactly. */
module ReportTotals {
  import opened SourceLines
  import opened GapFill
  import opened WindowCache
  import opened EnergyReports

  // ---- Totals of the results --------------------------------------------------------------

  function WindowsTotal(ws: seq<Window>, f: Field): real {
    if ws == [] then 0.0 else WindowsTotal(ws[..|ws| - 1], f) + LineTotal(ws[|ws| - 1].line, f)
  }

  lemma {:induction false} BucketChange(hours: Hours, h: nat, r: ReportData, f: Field, n: nat)
    ensures BucketTotal(hours[h := r], f, n)
         == BucketTotal(hours, f, n) + if h < n then Get(r, f) - Get(Bucket(hours, h), f) else 0.0
  {
    if n > 0 {
      BucketChange(hours, h, r, f, n - 1);
    }
  }

  lemma {:induction false} EmptyBuckets(f: Field, n: nat)
    ensures BucketTotal(map[], f, n) == 0.0
  {
    if n > 0 {
      EmptyBuckets(f, n - 1);
    }
  }

  /** The 24 buckets hold everything the windows hold. */
  lemma {:induction false} HoursTotal(ws: seq<Window>, f: Field)
    requires AllMarked(ws)
    ensures BucketTotal(HoursOf(ws), f, 24) == WindowsTotal(ws, f)
  {
    if ws == [] {
      EmptyBuckets(f, 24);
    } else {
      var rest, last := ws[..|ws| - 1], ws[|ws| - 1];
      var hours, h := HoursOf(rest), HourOf(last.time);
      HoursTotal(rest, f);
      AddLineGets(Plain, Bucket(hours, h), last.line, f);
      BucketChange(hours, h, AddLine(Plain, Bucket(hours, h), last.line), f, 24);
    }
  }

  ghost function Pick(c: Curve): (name: string)
    requires c.Keys != {}
    ensures name in c
  {
    var k :| k in c.Keys; k
  }

  function Without(c: Curve, k: string): (rest: Curve)
    requires k in c
    ensures |rest| == |c| - 1 && rest.Keys == c.Keys - {k} && forall n | n in rest :: rest[n] == c[n]
  {
    var rest := c - {k};
    assert c == rest[k := c[k]];
    rest
  }

  /** The sum over all named series. */
  ghost function CurveTotal(c: Curve, f: Field): real
    decreases |c|
  {
    if c.Keys == {} then 0.0 else Get(c[Pick(c)], f) + CurveTotal(Without(c, Pick(c)), f)
  }

  lemma WithoutSwaps(c: Curve, k: string, p: string)
    requires k in c && p in c && k != p
    ensures Without(Without(c, p), k) == Without(Without(c, k), p)
  {
  }

  lemma WithoutUpdate(c: Curve, k: string, r: ReportData)
    ensures Without(c[k := r], k) == if k in c then Without(c, k) else c
  {
    assert k !in c ==> Without(c[k := r], k) == c;
  }

  lemma {:induction false} CurveTotalPick(c: Curve, k: string, f: Field)
    requires k in c
    ensures CurveTotal(c, f) == Get(c[k], f) + CurveTotal(Without(c, k), f)
    decreases |c|
  {
    var p := Pick(c);
    if p != k {
      var cp, ck := Without(c, p), Without(c, k);
      CurveTotalPick(cp, k, f);
      CurveTotalPick(ck, p, f);
      WithoutSwaps(c, k, p);
    }
  }

  lemma CurveChange(c: Curve, k: string, r: ReportData, f: Field)
    ensures CurveTotal(c[k := r], f) == CurveTotal(c, f) + Get(r, f) - Get(if k in c then c[k] else ZERO, f)
  {
    CurveTotalPick(c[k := r], k, f);
    WithoutUpdate(c, k, r);
    if k in c {
      CurveTotalPick(c, k, f);
    }
  }

  lemma {:induction false} CurveOfTotal(ws: seq<Window>, series: Series, f: Field)
    ensures CurveTotal(CurveOf(ws, series), f) == WindowsTotal(ws, f)
  {
    if ws != [] {
      var rest, last := ws[..|ws| - 1], ws[|ws| - 1];
      var c, k := CurveOf(rest, series), series.names(last.time);
      CurveOfTotal(rest, series, f);
      AddLineGets(Reset, if k in c then c[k] else ZERO, last.line, f);
      CurveChange(c, k, Counted(AddLine(Reset, if k in c then c[k] else ZERO, last.line), series, last.time), f);
    }
  }

  // ---- Windows and lines ------------------------------------------------------------------

  function Meters(sz: Sizes, f: Field): nat {
    if DirOf(f).Consumer? then sz.nCons else sz.nProd
  }

  ghost predicate AllFullSize(ws: seq<Window>, sz: Sizes) {
    forall i | 0 <= i < |ws| :: FullSize(ws[i].line, sz)
  }

  lemma {:induction false} EmittedFullSize(s: Cached, next: Next, sz: Sizes, feed: seq<Line>)
    requires WithIds(feed) && FullSize(s.line, sz)
    ensures AllFullSize(Emitted(s, next, sz, feed), sz)
  {
    if feed != [] {
      EmittedFullSize(s, next, sz, feed[..|feed| - 1]);
      AfterFullSize(s, next, sz, feed[..|feed| - 1]);
    }
  }

  /** The sum over the first n meters, meter by meter. */
  function MetersOfWindows(ws: seq<Window>, f: Field, n: nat): real {
    if n == 0 then 0.0 else MetersOfWindows(ws, f, n - 1) + WindowsCell(ws, DirOf(f), CellIndex(f, n - 1))
  }

  function MetersOfLines(feed: seq<Line>, f: Field, n: nat): real {
    if n == 0 then 0.0 else MetersOfLines(feed, f, n - 1) + LinesCell(feed, DirOf(f), CellIndex(f, n - 1))
  }

  lemma {:induction false} WindowsByMeter(ws: seq<Window>, last: Window, f: Field, n: nat)
    ensures MetersOfWindows(ws + [last], f, n) == MetersOfWindows(ws, f, n) + Strided(last.line, f, n)
  {
    if n > 0 {
      WindowsByMeter(ws, last, f, n - 1);
      assert (ws + [last])[..|ws|] == ws;
    }
  }

  lemma {:induction false} LinesByMeter(feed: seq<Line>, last: Line, f: Field, n: nat)
    ensures MetersOfLines(feed + [last], f, n) == MetersOfLines(feed, f, n) + Strided(last, f, n)
  {
    if n > 0 {
      LinesByMeter(feed, last, f, n - 1);
      assert (feed + [last])[..|feed|] == feed;
    }
  }

  lemma {:induction false} NoMeters(f: Field, n: nat)
    ensures MetersOfWindows([], f, n) == 0.0 && MetersOfLines([], f, n) == 0.0
  {
    if n > 0 {
      NoMeters(f, n - 1);
    }
  }

  lemma {:induction false} WindowsTotalByMeter(ws: seq<Window>, sz: Sizes, f: Field)
    requires AllFullSize(ws, sz)
    ensures WindowsTotal(ws, f) == MetersOfWindows(ws, f, Meters(sz, f))
  {
    if ws == [] {
      NoMeters(f, Meters(sz, f));
    } else {
      var rest, last := ws[..|ws| - 1], ws[|ws| - 1];
      WindowsTotalByMeter(rest, sz, f);
      WindowsByMeter(rest, last, f, Meters(sz, f));
      assert rest + [last] == ws;
      assert Whole(last.line, f) == Meters(sz, f);
    }
  }

  /** Behind the whole meters of a line only the cell of an incomplete one is left. */
  lemma {:induction false} TailOnly(l: Line, f: Field, n: nat)
    requires Whole(l, f) <= n && |Values(l, DirOf(f))| <= FirstOf(DirOf(f), n)
    ensures Strided(l, f, n) == LineTotal(l, f) + TailCell(l, f)
    decreases n
  {
    if n > Whole(l, f) {
      if n - 1 > Whole(l, f) {
        TailOnly(l, f, n - 1);
      }
    }
  }

  lemma LineByMeter(l: Line, sz: Sizes, f: Field)
    requires Fits(l, sz)
    ensures Strided(l, f, Meters(sz, f)) == LineTotal(l, f) + TailCell(l, f)
  {
    TailOnly(l, f, Meters(sz, f));
  }

  lemma {:induction false} LinesTotalByMeter(feed: seq<Line>, sz: Sizes, f: Field)
    requires AllFit(feed, sz)
    ensures MetersOfLines(feed, f, Meters(sz, f)) == FeedTotal(feed, f) + TailTotal(feed, f)
  {
    if feed == [] {
      NoMeters(f, Meters(sz, f));
    } else {
      var rest, last := feed[..|feed| - 1], feed[|feed| - 1];
      LinesTotalByMeter(rest, sz, f);
      LinesByMeter(rest, last, f, Meters(sz, f));
      assert rest + [last] == feed;
      LineByMeter(last, sz, f);
    }
  }

  lemma MeterAgrees(start: int, next: Next, sz: Sizes, feed: seq<Line>, f: Field, n: nat)
    requires AllFit(feed, sz)
    ensures WindowsCell(Windows(start, next, sz, feed), DirOf(f), CellIndex(f, n)) ==
      LinesCell(feed, DirOf(f), CellIndex(f, n))
  {
    WindowsConserve(start, next, sz, feed, DirOf(f), CellIndex(f, n));
  }

  lemma {:induction false} MetersAgree(start: int, next: Next, sz: Sizes, feed: seq<Line>, f: Field, n: nat)
    requires AllFit(feed, sz)
    ensures MetersOfWindows(Windows(start, next, sz, feed), f, n) == MetersOfLines(feed, f, n)
  {
    if n > 0 {
      MetersAgree(start, next, sz, feed, f, n - 1);
      MeterAgrees(start, next, sz, feed, f, n - 1);
    }
  }

  /** All windows of a run together hold the whole meters of all lines and their incomplete ones. */
  lemma RunTotal(start: int, next: Next, sz: Sizes, feed: seq<Line>, f: Field)
    requires AllFit(feed, sz)
    ensures WindowsTotal(Windows(start, next, sz, feed), f) == FeedTotal(feed, f) + TailTotal(feed, f)
  {
    EmittedFullSize(Opening(start, sz), next, sz, feed);
    AfterFullSize(Opening(start, sz), next, sz, feed);
    WindowsTotalByMeter(Windows(start, next, sz, feed), sz, f);
    MetersAgree(start, next, sz, feed, f, Meters(sz, f));
    LinesTotalByMeter(feed, sz, f);
  }

  lemma WindowsAreMarked(start: int, next: Next, sz: Sizes, feed: seq<Line>)
    requires WithIds(feed)
    ensures AllMarked(Windows(start, next, sz, feed))
  {
    EmittedFullSize(Opening(start, sz), next, sz, feed);
    AfterFullSize(Opening(start, sz), next, sz, feed);
  }

  // ---- The comparisons --------------------------------------------------------------------

  /** The hours of the day hold more than the summary by exactly the cells of incomplete meters at
      the end of lines. */
  lemma HoursAgainstSummary(start: int, next: Next, sz: Sizes, feed: seq<Line>, f: Field)
    requires AllFit(feed, sz) && !f.Unused?
    ensures AllMarked(Windows(start, next, sz, feed))
    ensures BucketTotal(HoursOf(Windows(start, next, sz, feed)), f, 24) == Get(Summed(feed), f) + TailTotal(feed, f)
  {
    WindowsAreMarked(start, next, sz, feed);
    HoursTotal(Windows(start, next, sz, feed), f);
    RunTotal(start, next, sz, feed, f);
    SummaryTotal(feed, f);
  }

  predicate WholeMeters(l: Line) {
    |l.consumers| % 3 == 0 && |l.producers| % 2 == 0
  }

  lemma {:induction false} NoTail(feed: seq<Line>, f: Field)
    requires forall i | 0 <= i < |feed| :: WholeMeters(feed[i])
    ensures TailTotal(feed, f) == 0.0
  {
    if feed != [] {
      NoTail(feed[..|feed| - 1], f);
      assert WholeMeters(feed[|feed| - 1]);
    }
  }

  /** For lines of whole meters both reports show the same consumed, allocated, distributed and
      produced energy, whatever the run. */
  lemma HoursEqualSummary(start: int, next: Next, sz: Sizes, feed: seq<Line>, f: Field)
    requires AllFit(feed, sz) && !f.Unused?
    requires forall i | 0 <= i < |feed| :: WholeMeters(feed[i])
    ensures AllMarked(Windows(start, next, sz, feed))
    ensures BucketTotal(HoursOf(Windows(start, next, sz, feed)), f, 24) == Get(Summed(feed), f)
  {
    HoursAgainstSummary(start, next, sz, feed, f);
    NoTail(feed, f);
  }

  lemma {:induction false} RawTotal(feed: seq<Line>, f: Field)
    requires WithIds(feed)
    ensures WindowsTotal(RawWindows(feed), f) == FeedTotal(feed, f)
  {
    if feed != [] {
      RawTotal(feed[..|feed| - 1], f);
      var ws, last := RawWindows(feed[..|feed| - 1]), Window(feed[|feed| - 1].id.time, feed[|feed| - 1]);
      assert (ws + [last])[..|ws|] == ws;
    }
  }

  /** Without windows the load curve agrees with the summary for all lines. */
  lemma RawCurveEqualsSummary(start: int, sz: Sizes, feed: seq<Line>, series: Series, f: Field)
    requires WithIds(feed) && !f.Unused?
    ensures CurveTotal(CurveOf(CurveWindows(Raw, start, sz, feed), series), f) == Get(Summed(feed), f)
  {
    CurveOfTotal(RawWindows(feed), series, f);
    RawTotal(feed, f);
    SummaryTotal(feed, f);
  }

  /** The last line of a run opened a new window. */
  predicate LastOpens(start: int, next: Next, sz: Sizes, feed: seq<Line>)
    requires WithIds(feed)
  {
    feed != [] && next(After(Opening(start, sz), next, sz, feed[..|feed| - 1]).time) <= feed[|feed| - 1].id.time
  }

  /** The last window has lost its id exactly when the last line has opened it. */
  lemma IdIsLostExactly(start: int, next: Next, sz: Sizes, feed: seq<Line>)
    requires WithIds(feed) && feed != []
    ensures After(Opening(start, sz), next, sz, feed).line.id == NoRow <==> LastOpens(start, next, sz, feed)
  {
  }

  /** What the load curve skips at the end of a run. */
  function Skipped(start: int, next: Next, sz: Sizes, feed: seq<Line>, f: Field): real
    requires WithIds(feed)
  {
    if LastOpens(start, next, sz, feed) then Strided(feed[|feed| - 1], f, Meters(sz, f)) else 0.0
  }

  lemma WindowsTotalAppends(ws: seq<Window>, w: Window, f: Field)
    ensures WindowsTotal(ws + [w], f) == WindowsTotal(ws, f) + LineTotal(w.line, f)
  {
    assert (ws + [w])[..|ws|] == ws;
  }

  lemma CopyTotal(l: Line, sz: Sizes, f: Field)
    ensures LineTotal(DeepCopy(l, sz.nCons, sz.nProd), f) == Strided(l, f, Meters(sz, f))
  {
    var copy := DeepCopy(l, sz.nCons, sz.nProd);
    assert Whole(copy, f) == Meters(sz, f);
    StridedOfCopy(l, sz, f, Meters(sz, f));
  }

  lemma OpenedWindow(start: int, next: Next, sz: Sizes, feed: seq<Line>, f: Field)
    requires AllFit(feed, sz) && LastOpens(start, next, sz, feed)
    ensures var s := After(Opening(start, sz), next, sz, feed);
      s.line.id == NoRow && LineTotal(s.line, f) == Skipped(start, next, sz, feed, f)
  {
    var last := feed[|feed| - 1];
    assert After(Opening(start, sz), next, sz, feed).line == DeepCopy(last, sz.nCons, sz.nProd);
    CopyTotal(last, sz, f);
  }

  lemma LastWindow(start: int, next: Next, sz: Sizes, feed: seq<Line>, f: Field)
    requires AllFit(feed, sz) && feed != []
    ensures WindowsTotal(Windows(start, next, sz, feed), f)
         == WindowsTotal(CurveWindows(Windowed(next), start, sz, feed), f) + Skipped(start, next, sz, feed, f)
  {
    var s, ws := After(Opening(start, sz), next, sz, feed), Emitted(Opening(start, sz), next, sz, feed);
    IdIsLostExactly(start, next, sz, feed);
    WindowsTotalAppends(ws, Window(s.time, s.line), f);
    assert ws + [] == ws;
    if LastOpens(start, next, sz, feed) {
      OpenedWindow(start, next, sz, feed, f);
    }
  }

  /** With windows the load curve misses exactly the last window when the last line has opened it,
      whatever windows the hours of the day use. */
  lemma CurveAgainstHours(start: int, next: Next, startH: int, nextH: Next, sz: Sizes, feed: seq<Line>,
                          series: Series, f: Field)
    requires AllFit(feed, sz) && feed != []
    ensures AllMarked(Windows(startH, nextH, sz, feed))
    ensures BucketTotal(HoursOf(Windows(startH, nextH, sz, feed)), f, 24)
         == CurveTotal(CurveOf(CurveWindows(Windowed(next), start, sz, feed), series), f) +
           Skipped(start, next, sz, feed, f)
  {
    WindowsAreMarked(startH, nextH, sz, feed);
    HoursTotal(Windows(startH, nextH, sz, feed), f);
    RunTotal(startH, nextH, sz, feed, f);
    RunTotal(start, next, sz, feed, f);
    CurveOfTotal(CurveWindows(Windowed(next), start, sz, feed), series, f);
    LastWindow(start, next, sz, feed, f);
  }

  lemma {:induction false} StridedOfCopy(l: Line, sz: Sizes, f: Field, n: nat)
    requires n <= Meters(sz, f)
    ensures Strided(DeepCopy(l, sz.nCons, sz.nProd), f, n) == Strided(l, f, n)
  {
    if n > 0 {
      StridedOfCopy(l, sz, f, n - 1);
    }
  }
}
