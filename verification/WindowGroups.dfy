/** What the windows hold on a feed without gaps: the lines of their own time, when the feed starts in
    the first two windows; a feed that starts later moves the cache on by one window for each line
    until it has caught up. The gap filler provides feeds without gaps. */
module WindowGroups {
  import opened SourceLines
  import opened GapFill
  import opened WindowCache
  import opened WindowTimes

  /** On a feed that starts at time `first`, line n belongs to the window it lies in, but to window
      n + 1 at most; lines before the start belong to window 0. */
  predicate Belongs(start: int, next: Next, first: int, t: int, w: nat) {
    && (w > 0 ==> QUARTER * (w - 1) <= t - first && Bound(start, next, w) <= t)
    && (t < Bound(start, next, w + 1) || t - first == QUARTER * (w - 1))
  }

  /** The times of the lines that belong to a window. */
  function Home(start: int, next: Next, first: int, w: nat): Span {
    t => Belongs(start, next, first, t, w)
  }

  // ---- The place of a line ----------------------------------------------------------------

  /** The number of windows that the first n lines hand on. */
  function HandedBy(start: int, next: Next, sz: Sizes, feed: seq<Line>, n: nat): nat
    requires WithIds(feed) && n <= |feed|
  {
    |Emitted(Opening(start, sz), next, sz, feed[..n])|
  }

  lemma {:induction false} TimeOfWindow(start: int, next: Next, sz: Sizes, feed: seq<Line>, n: nat)
    requires WithIds(feed) && n <= |feed|
    ensures After(Opening(start, sz), next, sz, feed[..n]).time ==
      Bound(start, next, HandedBy(start, next, sz, feed, n))
    ensures HandedBy(start, next, sz, feed, n) <= n
  {
    if n > 0 {
      TimeOfWindow(start, next, sz, feed, n - 1);
      NextLine(Opening(start, sz), next, sz, feed, n - 1);
    }
  }

  /** The place of a line follows from the window that is open after it. */
  lemma PlaceOfLine(start: int, next: Next, feed: seq<Line>, n: nat, k: nat, w: nat)
    requires WideEnough(next) && Contiguous(feed) && 1 <= n <= |feed| && k <= n
    requires Follows(start, next, feed, n, Bound(start, next, k))
    ensures Belongs(start, next, feed[0].id.time, feed[n - 1].id.time, w) <==> w == k
  {
    ContiguousTime(feed, n - 1);
    BoundGrows(start, next, k, n);
    if k < w {
      BoundGrows(start, next, k + 1, w);
    } else if w < k {
      BoundGrows(start, next, w + 1, k);
    }
    if !CaughtUp(start, next, feed, n) {
      assert !Meets(start, next, feed, n);
    } else {
      BoundGrows(start, next, 0, k);
    }
  }

  lemma LinePlaced(start: int, next: Next, sz: Sizes, feed: seq<Line>, n: nat, w: nat)
    requires WideEnough(next) && Contiguous(feed) && 1 <= n <= |feed|
    ensures Home(start, next, feed[0].id.time, w)(feed[n - 1].id.time) <==> w == HandedBy(start, next, sz, feed, n)
  {
    TimesFollow(start, next, sz, feed, n);
    TimeOfWindow(start, next, sz, feed, n);
    PlaceOfLine(start, next, feed, n, HandedBy(start, next, sz, feed, n), w);
  }

  lemma OnePlace(start: int, next: Next, sz: Sizes, feed: seq<Line>, n: nat)
    requires WideEnough(next) && Contiguous(feed) && 1 <= n <= |feed|
    ensures forall w: nat ::
      Home(start, next, feed[0].id.time, w)(feed[n - 1].id.time) <==> w == HandedBy(start, next, sz, feed, n)
  {
    forall w: nat
      ensures Home(start, next, feed[0].id.time, w)(feed[n - 1].id.time) <==> w == HandedBy(start, next, sz, feed, n)
    {
      LinePlaced(start, next, sz, feed, n, w);
    }
  }

  lemma {:induction false} HandedGrows(start: int, next: Next, sz: Sizes, feed: seq<Line>, j: nat, n: nat)
    requires WithIds(feed) && j <= n <= |feed|
    ensures HandedBy(start, next, sz, feed, j) <= HandedBy(start, next, sz, feed, n)
  {
    if j < n {
      HandedGrows(start, next, sz, feed, j, n - 1);
      NextLine(Opening(start, sz), next, sz, feed, n - 1);
    }
  }

  /** No line so far belongs to a window that is not open yet. */
  lemma NoneAhead(start: int, next: Next, sz: Sizes, feed: seq<Line>, n: nat, w: nat)
    requires WideEnough(next) && Contiguous(feed) && n <= |feed| && HandedBy(start, next, sz, feed, n) < w
    requires feed != []
    ensures NoneIn(feed[..n], Home(start, next, feed[0].id.time, w))
  {
    forall j | 0 <= j < n ensures !Home(start, next, feed[0].id.time, w)(feed[j].id.time) {
      LinePlaced(start, next, sz, feed, j + 1, w);
      HandedGrows(start, next, sz, feed, j + 1, n);
    }
  }

  /** A window behind the first is open because a line belongs to it. */
  lemma OpenedByLine(start: int, next: Next, sz: Sizes, feed: seq<Line>, n: nat, w: nat)
    requires WideEnough(next) && Contiguous(feed) && 1 <= n <= |feed| && w == HandedBy(start, next, sz, feed, n)
    ensures !NoneIn(feed[..n], Home(start, next, feed[0].id.time, w))
  {
    LinePlaced(start, next, sz, feed, n, w);
    assert feed[..n][n - 1] == feed[n - 1];
  }

  // ---- What the windows hold ----------------------------------------------------------------

  /** Every window starts at its bound and holds the lines that belong to it. */
  ghost predicate Grouped(ws: seq<Window>, lines: seq<Line>, start: int, next: Next, first: int, sz: Sizes)
    requires WithIds(lines)
  {
    forall w | 0 <= w < |ws| ::
      ws[w].time == Bound(start, next, w) && IsGroup(ws[w].line, lines, Home(start, next, first, w), w > 0, sz)
  }

  /** The open window after the first n lines, and the windows before it. */
  ghost predicate Current(start: int, next: Next, sz: Sizes, feed: seq<Line>, n: nat)
    requires WithIds(feed) && n <= |feed| && feed != []
  {
    var s, ws := After(Opening(start, sz), next, sz, feed[..n]), Emitted(Opening(start, sz), next, sz, feed[..n]);
    && FullSize(s.line, sz)
    && Grouped(ws + [Window(s.time, s.line)], feed[..n], start, next, feed[0].id.time, sz)
  }

  /** The windows that are closed keep their groups. */
  lemma ClosedStay(ws: seq<Window>, lines: seq<Line>, last: Line, start: int, next: Next, first: int, sz: Sizes)
    requires WithIds(lines) && HasId(last) && Grouped(ws, lines, start, next, first, sz)
    requires forall w: nat | w < |ws| :: !Home(start, next, first, w)(last.id.time)
    ensures WithIds(lines + [last]) && Grouped(ws, lines + [last], start, next, first, sz)
  {
    forall w | 0 <= w < |ws| ensures IsGroup(ws[w].line, lines + [last], Home(start, next, first, w), w > 0, sz) {
      KeepsGroup(ws[w].line, lines, last, Home(start, next, first, w), w > 0, sz);
    }
  }

  /** A line joins the open window. */
  lemma LineJoins(start: int, next: Next, sz: Sizes, ws: seq<Window>, s: Cached, lines: seq<Line>, last: Line,
                  first: int)
    requires WithIds(lines) && HasId(last) && FullSize(s.line, sz) && Fits(last, sz)
    requires Grouped(ws + [Window(s.time, s.line)], lines, start, next, first, sz)
    requires forall w: nat :: Home(start, next, first, w)(last.id.time) <==> w == |ws|
    requires |ws| > 0 ==> !NoneIn(lines, Home(start, next, first, |ws|))
    ensures WithIds(lines + [last])
    ensures Grouped(ws + [Window(s.time, Added(s.line, last))], lines + [last], start, next, first, sz)
  {
    var all := ws + [Window(s.time, s.line)];
    assert all[|ws|] == Window(s.time, s.line) && forall w: nat | w < |ws| :: all[w] == ws[w];
    ClosedStay(ws, lines, last, start, next, first, sz);
    JoinsGroup(s.line, lines, last, Home(start, next, first, |ws|), |ws| > 0, sz);
  }

  /** A line opens the next window. */
  lemma LineOpens(start: int, next: Next, sz: Sizes, ws: seq<Window>, lines: seq<Line>, last: Line, first: int)
    requires WithIds(lines) && HasId(last) && Fits(last, sz) && ws != []
    requires Grouped(ws, lines, start, next, first, sz)
    requires forall w: nat :: Home(start, next, first, w)(last.id.time) <==> w == |ws|
    requires NoneIn(lines, Home(start, next, first, |ws|))
    ensures WithIds(lines + [last])
    ensures Grouped(ws + [Window(Bound(start, next, |ws|), DeepCopy(last, sz.nCons, sz.nProd))], lines + [last],
                    start, next, first, sz)
  {
    ClosedStay(ws, lines, last, start, next, first, sz);
    OpensGroup(lines, last, Home(start, next, first, |ws|), sz);
  }

  lemma NextCurrent(start: int, next: Next, sz: Sizes, feed: seq<Line>, n: nat)
    requires WideEnough(next) && AllFit(feed, sz) && Contiguous(feed) && n < |feed| && Current(start, next, sz, feed, n)
    ensures Current(start, next, sz, feed, n + 1)
  {
    var s, ws := After(Opening(start, sz), next, sz, feed[..n]), Emitted(Opening(start, sz), next, sz, feed[..n]);
    var first, last := feed[0].id.time, feed[n];
    NextLine(Opening(start, sz), next, sz, feed, n);
    TimeOfWindow(start, next, sz, feed, n);
    StepKeepsSize(s, next, sz, last);
    assert feed[..n + 1] == feed[..n] + [last];
    OnePlace(start, next, sz, feed, n + 1);
    if last.id.time < next(s.time) {
      if |ws| > 0 {
        OpenedByLine(start, next, sz, feed, n, |ws|);
      }
      LineJoins(start, next, sz, ws, s, feed[..n], last, first);
      assert ws + [] == ws;
    } else {
      NoneAhead(start, next, sz, feed, n, |ws| + 1);
      LineOpens(start, next, sz, ws + [Window(s.time, s.line)], feed[..n], last, first);
    }
  }

  lemma {:induction false} RunGroups(start: int, next: Next, sz: Sizes, feed: seq<Line>, n: nat)
    requires WideEnough(next) && AllFit(feed, sz) && Contiguous(feed) && n <= |feed| && feed != []
    ensures Current(start, next, sz, feed, n)
  {
    if n == 0 {
      assert feed[..0] == [];
    } else {
      RunGroups(start, next, sz, feed, n - 1);
      NextCurrent(start, next, sz, feed, n - 1);
    }
  }

  /** Wherever a feed without gaps starts, and whatever the lengths of its lines: every window starts at
      its bound and holds exactly the sums and the marks of the lines that belong to it. */
  lemma WindowsOfAnyStart(start: int, next: Next, sz: Sizes, feed: seq<Line>)
    requires WideEnough(next) && AllFit(feed, sz) && Contiguous(feed) && feed != []
    ensures Grouped(Windows(start, next, sz, feed), feed, start, next, feed[0].id.time, sz)
  {
    RunGroups(start, next, sz, feed, |feed|);
    assert feed[..|feed|] == feed;
  }

  // ---- Grouping by time -----------------------------------------------------------------------

  /** On a feed that starts in the first two windows every line belongs to the window it lies in. */
  lemma OwnWindow(start: int, next: Next, first: int, t: int, n: nat, w: nat)
    requires WideEnough(next) && start <= first < next(next(start)) && t == first + QUARTER * n
    ensures Belongs(start, next, first, t, w) <==> Inside(t, Bound(start, next, w), Bound(start, next, w + 1))
  {
    assert Bound(start, next, 2) == next(Bound(start, next, 1)) == next(next(start));
    if w > 0 {
      BoundGrows(start, next, 2, w + 1);
    }
    if w > 1 {
      BoundGrows(start, next, 2, w);
    }
  }

  /** The window holds the sums of the rows and the marks of the feed at these times. */
  ghost predicate HoldsRows(l: Line, rows: seq<Line>, feed: seq<Line>, p: Span, copied: bool, sz: Sizes)
    requires WithIds(rows) && WithIds(feed)
  {
    forall dir, i: nat | i < Cells(sz, dir) ::
      CellOf(l, dir, i) == GroupCell(rows, p, dir, i) && MarkOf(l, dir, i) == GroupMark(feed, p, copied, dir, i)
  }

  /** Whole quarters of an hour from the first time on. */
  ghost predicate OnSteps(lines: seq<Line>, first: int)
    requires WithIds(lines)
  {
    forall k | 0 <= k < |lines| :: lines[k].id.time >= first && (lines[k].id.time - first) % QUARTER == 0
  }

  lemma FeedOnSteps(feed: seq<Line>)
    requires Contiguous(feed) && feed != []
    ensures OnSteps(feed, feed[0].id.time)
  {
    forall k | 0 <= k < |feed|
      ensures feed[k].id.time >= feed[0].id.time && (feed[k].id.time - feed[0].id.time) % QUARTER == 0
    {
      ContiguousTime(feed, k);
    }
  }

  lemma GridOnSteps(rows: seq<Line>)
    requires GapFill.OnGrid(rows) && rows != []
    ensures OnSteps(rows, rows[0].id.time)
  {
  }

  lemma OwnWindows(lines: seq<Line>, start: int, next: Next, first: int, w: nat)
    requires WideEnough(next) && start <= first < next(next(start)) && WithIds(lines)
    requires OnSteps(lines, first)
    ensures forall k | 0 <= k < |lines| :: Home(start, next, first, w)(lines[k].id.time) ==
                                           Between(Bound(start, next, w), Bound(start, next, w + 1))(lines[k].id.time)
  {
    forall k | 0 <= k < |lines|
      ensures Home(start, next, first, w)(lines[k].id.time) ==
              Between(Bound(start, next, w), Bound(start, next, w + 1))(lines[k].id.time)
    {
      OwnWindow(start, next, first, lines[k].id.time, (lines[k].id.time - first) / QUARTER, w);
    }
  }

  lemma HoldsAlike(l: Line, rows: seq<Line>, feed: seq<Line>, p: Span, q: Span, copied: bool, sz: Sizes)
    requires WithIds(rows) && WithIds(feed) && HoldsRows(l, rows, feed, p, copied, sz)
    requires forall k | 0 <= k < |rows| :: p(rows[k].id.time) == q(rows[k].id.time)
    requires forall k | 0 <= k < |feed| :: p(feed[k].id.time) == q(feed[k].id.time)
    ensures HoldsRows(l, rows, feed, q, copied, sz)
  {
    forall dir, i: nat | i < Cells(sz, dir)
      ensures CellOf(l, dir, i) == GroupCell(rows, q, dir, i) && MarkOf(l, dir, i) == GroupMark(feed, q, copied, dir, i)
    {
      SameGroup(rows, p, q, false, dir, i);
      SameGroup(feed, p, q, copied, dir, i);
      assert CellOf(l, dir, i) == GroupCell(rows, p, dir, i);
    }
  }

  lemma HoldsOwn(l: Line, rows: seq<Line>, feed: seq<Line>, start: int, next: Next, first: int, w: nat, sz: Sizes)
    requires WideEnough(next) && start <= first < next(next(start)) && WithIds(rows) && WithIds(feed)
    requires OnSteps(rows, first) && OnSteps(feed, first)
    requires HoldsRows(l, rows, feed, Home(start, next, first, w), w > 0, sz)
    ensures HoldsRows(l, rows, feed, Between(Bound(start, next, w), Bound(start, next, w + 1)), w > 0, sz)
  {
    OwnWindows(rows, start, next, first, w);
    OwnWindows(feed, start, next, first, w);
    HoldsAlike(l, rows, feed, Home(start, next, first, w), Between(Bound(start, next, w), Bound(start, next, w + 1)),
      w > 0, sz);
  }

  /** Every window holds the lines of its interval. */
  ghost predicate GroupedByTime(ws: seq<Window>, feed: seq<Line>, start: int, next: Next, sz: Sizes)
    requires WithIds(feed)
  {
    forall w | 0 <= w < |ws| ::
      && ws[w].time == Bound(start, next, w)
      && IsGroup(ws[w].line, feed, Between(Bound(start, next, w), Bound(start, next, w + 1)), w > 0, sz)
  }

  /** Group by time: on a contiguous feed of lines of any length that starts in the first two windows,
      the windows of a run, the last one included, are the groups of the lines by the window they lie
      in, values summed and qualities joined. */
  lemma WindowsGroupByTime(start: int, next: Next, sz: Sizes, feed: seq<Line>)
    requires WideEnough(next) && AllFit(feed, sz) && Contiguous(feed) && feed != [] && StartsRight(start, next, feed)
    ensures GroupedByTime(Windows(start, next, sz, feed), feed, start, next, sz)
  {
    var ws, first := Windows(start, next, sz, feed), feed[0].id.time;
    WindowsOfAnyStart(start, next, sz, feed);
    FeedOnSteps(feed);
    forall w: nat | w < |ws|
      ensures IsGroup(ws[w].line, feed, Between(Bound(start, next, w), Bound(start, next, w + 1)), w > 0, sz)
    {
      HoldsOwn(ws[w].line, feed, feed, start, next, first, w, sz);
    }
  }

  // ---- Together with the gap filler -------------------------------------------------------

  lemma {:induction false} GroupCellConcat(a: seq<Line>, b: seq<Line>, p: Span, dir: Direction, i: nat)
    requires WithIds(a) && WithIds(b)
    ensures WithIds(a + b)
    ensures GroupCell(a + b, p, dir, i) == GroupCell(a, p, dir, i) + GroupCell(b, p, dir, i)
  {
    if b == [] {
      assert a + b == a;
    } else {
      GroupCellConcat(a, b[..|b| - 1], p, dir, i);
      assert (a + b)[..|a + b| - 1] == a + b[..|b| - 1];
    }
  }

  lemma {:induction false} ZeroGroup(fills: seq<Line>, p: Span, dir: Direction, i: nat)
    requires WithIds(fills) && forall k | 0 <= k < |fills| :: CellOf(fills[k], dir, i) == 0.0
    ensures GroupCell(fills, p, dir, i) == 0.0
  {
    if fills != [] {
      ZeroGroup(fills[..|fills| - 1], p, dir, i);
    }
  }

  lemma GroupStep(g: seq<Line>, fills: seq<Line>, last: Line, p: Span, dir: Direction, i: nat)
    requires WithIds(g) && WithIds(fills) && HasId(last)
    requires forall k | 0 <= k < |fills| :: CellOf(fills[k], dir, i) == 0.0
    ensures GroupCell(g + fills + [last], p, dir, i) ==
            GroupCell(g, p, dir, i) + if p(last.id.time) then CellOf(last, dir, i) else 0.0
  {
    ZeroGroup(fills, p, dir, i);
    GroupCellConcat(g, fills, p, dir, i);
    assert (g + fills + [last])[..|g + fills|] == g + fills;
  }

  lemma NextRowGroup(rows: seq<Line>, k: nat, p: Span, dir: Direction, i: nat)
    requires WithIds(rows) && k < |rows|
    ensures GroupCell(rows[..k + 1], p, dir, i) ==
            GroupCell(rows[..k], p, dir, i) + if p(rows[k].id.time) then CellOf(rows[k], dir, i) else 0.0
  {
    assert rows[..k + 1][..k] == rows[..k];
  }

  lemma NextFedGroup(rows: seq<Line>, k: nat, shift: int, sz: Sizes, p: Span, dir: Direction, i: nat)
    requires WithIds(rows) && k < |rows|
    ensures GroupCell(Fed(rows[..k + 1], shift, sz.nCons, sz.nProd), p, dir, i) ==
            GroupCell(Fed(rows[..k], shift, sz.nCons, sz.nProd), p, dir, i) +
            if p(rows[k].id.time) then CellOf(rows[k], dir, i) else 0.0
  {
    FedNext(rows, k, shift, sz.nCons, sz.nProd);
    var pt, last := LastTime(rows[..k]), rows[k];
    var fills := if pt.NoTime? then []
      else FillLines(pt.time, MissingCount(pt, MinuteOf(last)), shift, sz.nCons, sz.nProd);
    GroupStep(Fed(rows[..k], shift, sz.nCons, sz.nProd), fills, last, p, dir, i);
  }

  /** Fill rows add nothing to any group. */
  lemma {:induction false} FillsAddNothing(rows: seq<Line>, k: nat, shift: int, sz: Sizes, p: Span, dir: Direction,
                                           i: nat)
    requires WithIds(rows) && k <= |rows|
    ensures GroupCell(Fed(rows[..k], shift, sz.nCons, sz.nProd), p, dir, i) == GroupCell(rows[..k], p, dir, i)
  {
    if k > 0 {
      FillsAddNothing(rows, k - 1, shift, sz, p, dir, i);
      NextFedGroup(rows, k - 1, shift, sz, p, dir, i);
      NextRowGroup(rows, k - 1, p, dir, i);
    }
  }

  lemma {:induction false} FedFits(rows: seq<Line>, shift: int, sz: Sizes)
    requires AllFit(rows, sz)
    ensures AllFit(Fed(rows, shift, sz.nCons, sz.nProd), sz)
  {
    if rows != [] {
      FedFits(rows[..|rows| - 1], shift, sz);
    }
  }

  lemma FeedOfQuery(rows: seq<Line>, feed: seq<Line>, sz: Sizes)
    requires AllFit(rows, sz) && GapFill.OnGrid(rows) && rows != [] && feed == Fed(rows, 0, sz.nCons, sz.nProd)
    ensures Contiguous(feed) && AllFit(feed, sz) && feed != [] && feed[0].id.time == rows[0].id.time
  {
    FedFits(rows, 0, sz);
    ShiftedFillExactly(rows, 0, sz.nCons, sz.nProd);
    FedNotEmpty(rows, 0, sz.nCons, sz.nProd);
    FedIsComplete(rows, sz.nCons, sz.nProd, 0, rows[0].id.time);
  }

  /** The query as a whole, wherever the first stored row lies: for stored rows of any length on the
      grid, read by an engine that prints its fill rows without a shift, every window of the result
      holds exactly the sums of the stored rows that belong to it, and the joined marks of these and of
      the fill rows. */
  lemma QueryOfAnyStart(start: int, next: Next, sz: Sizes, rows: seq<Line>, feed: seq<Line>, w: nat)
    requires WideEnough(next) && AllFit(rows, sz) && GapFill.OnGrid(rows) && rows != []
    requires feed == Fed(rows, 0, sz.nCons, sz.nProd) && w < |Windows(start, next, sz, feed)|
    ensures var win := Windows(start, next, sz, feed)[w];
      && win.time == Bound(start, next, w)
      && HoldsRows(win.line, rows, feed, Home(start, next, rows[0].id.time, w), w > 0, sz)
  {
    var p := Home(start, next, rows[0].id.time, w);
    var win := Windows(start, next, sz, feed)[w];
    FeedOfQuery(rows, feed, sz);
    WindowsOfAnyStart(start, next, sz, feed);
    assert rows[..|rows|] == rows;
    forall dir, i: nat | i < Cells(sz, dir)
      ensures CellOf(win.line, dir, i) == GroupCell(rows, p, dir, i)
      ensures MarkOf(win.line, dir, i) == GroupMark(feed, p, w > 0, dir, i)
    {
      FillsAddNothing(rows, |rows|, 0, sz, p, dir, i);
      assert IsGroup(win.line, feed, p, w > 0, sz);
    }
  }

  /** When the first stored row lies in the first two windows, these are the rows that lie in the
      window. */
  lemma QueryGroupsStoredRows(start: int, next: Next, sz: Sizes, rows: seq<Line>, feed: seq<Line>, w: nat)
    requires WideEnough(next) && AllFit(rows, sz) && GapFill.OnGrid(rows) && rows != [] &&
      StartsRight(start, next, rows)
    requires feed == Fed(rows, 0, sz.nCons, sz.nProd) && w < |Windows(start, next, sz, feed)|
    ensures var win := Windows(start, next, sz, feed)[w];
      && win.time == Bound(start, next, w)
      && HoldsRows(win.line, rows, feed, Between(Bound(start, next, w), Bound(start, next, w + 1)), w > 0, sz)
  {
    FeedOfQuery(rows, feed, sz);
    GridOnSteps(rows);
    FeedOnSteps(feed);
    QueryOfAnyStart(start, next, sz, rows, feed, w);
    HoldsOwn(Windows(start, next, sz, feed)[w].line, rows, feed, start, next, rows[0].id.time, w, sz);
  }
}
