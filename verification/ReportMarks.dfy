/** The quality marks that the reports show: joins over the marks of the meters, each mark taken from the
    first cell of its meter. */
module ReportMarks {
  import opened Numbers
  import opened SourceLines
  import opened WindowCache
  import opened EnergyReports
  import opened ReportContents

  // ---- Joins --------------------------------------------------------------------------------

  /** r joins q and the marks: the greatest of those other than 1, or 1 when there is none. */
  ghost predicate IsJoin(q: int, marks: seq<int>, r: int) {
    if q == 1 && forall i | 0 <= i < |marks| :: marks[i] == 1 then r == 1
    else
      && r != 1 && (r == q || r in marks) && (q != 1 ==> q <= r)
      && forall i | 0 <= i < |marks| && marks[i] != 1 :: marks[i] <= r
  }

  /** Marks have one join, whatever their order. */
  lemma OneJoin(q: int, a: seq<int>, b: seq<int>, r: int, t: int)
    requires multiset(a) == multiset(b) && IsJoin(q, a, r) && IsJoin(q, b, t)
    ensures r == t
  {
    forall i | 0 <= i < |a| ensures a[i] in b {
      assert a[i] in multiset(a);
    }
    forall i | 0 <= i < |b| ensures b[i] in a {
      assert b[i] in multiset(b);
    }
    if r in a {
      assert r in b;
    }
    if t in b {
      assert t in a;
    }
  }

  lemma JoinsOne(q: int, m: int)
    ensures IsJoin(q, [m], CalcQoV(q, m))
  {
    assert [m][0] == m;
  }

  lemma JoinsMore(q: int, a: seq<int>, b: seq<int>, r: int, t: int)
    requires IsJoin(q, a, r) && IsJoin(r, b, t)
    ensures IsJoin(q, a + b, t)
  {
    assert forall i | 0 <= i < |a| :: (a + b)[i] == a[i];
    assert forall i | 0 <= i < |b| :: (a + b)[|a| + i] == b[i];
    assert t in b || t == r;
  }

  // ---- One line -----------------------------------------------------------------------------

  /** The marks of the first cells of n meters of the given width. */
  function FirstMarks(marks: seq<int>, width: nat, n: nat): (ms: seq<int>)
    ensures |ms| == n
  {
    if n == 0 then [] else FirstMarks(marks, width, n - 1) + [SourceLines.At(marks, width * (n - 1), 0)]
  }

  /** How many of n meters have a mark behind their own cells. */
  function Followed(marks: seq<int>, width: nat, n: nat): nat
    requires width > 0
  {
    if marks == [] then 0 else Min(n, (|marks| - 1) / width)
  }

  /** What n meters make of a mark: the summary skips those without a mark behind them, and the load curve
      starts again from 0 when the last of them has no mark. */
  ghost predicate ShowsMark(p: Policy, q: int, marks: seq<int>, width: nat, n: nat, r: int)
    requires width > 0
  {
    match p
    case Plain => IsJoin(q, FirstMarks(marks, width, n), r)
    case Reset => if n > 0 && |marks| <= width * (n - 1) then r == 0 else IsJoin(q, FirstMarks(marks, width, n), r)
    case SkipLast => IsJoin(q, FirstMarks(marks, width, Followed(marks, width, n)), r)
  }

  lemma FollowedNext(marks: seq<int>, width: nat, n: nat)
    requires width in {2, 3} && n > 0
    ensures Followed(marks, width, n) ==
            if |marks| > width * (n - 1) + width then n else Followed(marks, width, n - 1)
    ensures |marks| > width * (n - 1) + width ==> Followed(marks, width, n - 1) == n - 1
  {
  }

  lemma NextShown(p: Policy, q: int, marks: seq<int>, width: nat, n: nat, r: int)
    requires width in {2, 3} && n > 0 && (p.Plain? ==> width * (n - 1) < |marks|)
    requires ShowsMark(p, q, marks, width, n - 1, r)
    ensures ShowsMark(p, q, marks, width, n, NextMark(p, r, marks, width * (n - 1), width))
  {
    var m := SourceLines.At(marks, width * (n - 1), 0);
    JoinsOne(r, m);
    match p
    case Plain => JoinsMore(q, FirstMarks(marks, width, n - 1), [m], r, CalcQoV(r, m));
    case Reset =>
      if |marks| > width * (n - 1) {
        JoinsMore(q, FirstMarks(marks, width, n - 1), [m], r, CalcQoV(r, m));
      }
    case SkipLast =>
      FollowedNext(marks, width, n);
      if |marks| > width * (n - 1) + width {
        JoinsMore(q, FirstMarks(marks, width, n - 1), [m], r, CalcQoV(r, m));
      }
  }

  lemma NothingShown(p: Policy, q: int, marks: seq<int>, width: nat)
    requires width in {2, 3}
    ensures ShowsMark(p, q, marks, width, 0, q)
  {
  }

  lemma {:induction false} ConsumerMark(p: Policy, r: ReportData, line: Line, n: nat)
    requires HasMarks(p, line) && 3 * n <= |line.consumers|
    ensures ShowsMark(p, r.qovConsumer, line.qovConsumers, 3, n, AddConsumers(p, r, line, n).qovConsumer)
    ensures AddConsumers(p, r, line, n).qovProducer == r.qovProducer
  {
    if n == 0 {
      NothingShown(p, r.qovConsumer, line.qovConsumers, 3);
    } else {
      ConsumerMark(p, r, line, n - 1);
      NextShown(p, r.qovConsumer, line.qovConsumers, 3, n, AddConsumers(p, r, line, n - 1).qovConsumer);
    }
  }

  lemma {:induction false} ProducerMark(p: Policy, r: ReportData, line: Line, n: nat)
    requires HasMarks(p, line) && 2 * n <= |line.producers|
    ensures ShowsMark(p, r.qovProducer, line.qovProducers, 2, n, AddProducers(p, r, line, n).qovProducer)
    ensures AddProducers(p, r, line, n).qovConsumer == r.qovConsumer
  {
    if n == 0 {
      NothingShown(p, r.qovProducer, line.qovProducers, 2);
    } else {
      ProducerMark(p, r, line, n - 1);
      NextShown(p, r.qovProducer, line.qovProducers, 2, n, AddProducers(p, r, line, n - 1).qovProducer);
    }
  }

  /** The marks of a report after a line. */
  lemma LineMarks(p: Policy, r: ReportData, line: Line)
    requires HasMarks(p, line)
    ensures ShowsMark(p, r.qovConsumer, line.qovConsumers, 3, |line.consumers| / 3, AddLine(p, r, line).qovConsumer)
    ensures ShowsMark(p, r.qovProducer, line.qovProducers, 2, |line.producers| / 2, AddLine(p, r, line).qovProducer)
  {
    ConsumerMark(p, r, line, |line.consumers| / 3);
    ProducerMark(p, AddConsumers(p, r, line, |line.consumers| / 3), line, |line.producers| / 2);
  }

  // ---- The summary --------------------------------------------------------------------------

  /** The marks that the summary joins, line by line. */
  function SummaryMarks(feed: seq<Line>, dir: Direction): seq<int> {
    if feed == [] then []
    else
      var last, width := feed[|feed| - 1], if dir.Consumer? then 3 else 2;
      SummaryMarks(feed[..|feed| - 1], dir) +
        FirstMarks(Qualities(last, dir), width, Followed(Qualities(last, dir), width, |Values(last, dir)| / width))
  }

  function MarkShown(r: ReportData, dir: Direction): int {
    if dir.Consumer? then r.qovConsumer else r.qovProducer
  }

  /** A summary shows the greatest mark other than 1 that it joins, and 0 when there is none. */
  lemma {:induction false} SummaryMark(feed: seq<Line>, dir: Direction)
    ensures IsJoin(0, SummaryMarks(feed, dir), MarkShown(Summed(feed), dir))
  {
    if feed != [] {
      var rest, last, width := feed[..|feed| - 1], feed[|feed| - 1], if dir.Consumer? then 3 else 2;
      SummaryMark(rest, dir);
      LineMarks(SkipLast, Summed(rest), last);
      JoinsMore(0, SummaryMarks(rest, dir),
        FirstMarks(Qualities(last, dir), width, Followed(Qualities(last, dir), width, |Values(last, dir)| / width)),
        MarkShown(Summed(rest), dir), MarkShown(Summed(feed), dir));
    }
  }

  // ---- Windows ------------------------------------------------------------------------------

  /** The marks of the windows of these times. */
  function MarksIn(ws: seq<Window>, p: Span, dir: Direction): seq<int> {
    if ws == [] then []
    else
      var last, width := ws[|ws| - 1], if dir.Consumer? then 3 else 2;
      MarksIn(ws[..|ws| - 1], p, dir) +
        if p(last.time) then FirstMarks(Qualities(last.line, dir), width, |Values(last.line, dir)| / width) else []
  }

  lemma MarksAppend(ws: seq<Window>, w: Window, p: Span, dir: Direction)
    ensures MarksIn(ws + [w], p, dir) == MarksIn(ws, p, dir) +
      if p(w.time)
      then
        var width := if dir.Consumer? then 3 else 2;
        FirstMarks(Qualities(w.line, dir), width, |Values(w.line, dir)| / width)
      else []
  {
    assert (ws + [w])[..|ws|] == ws;
  }

  /** A line with a mark for each of its values is joined in full, whether or not marks are reset. */
  lemma FullLineMarks(p: Policy, r: ReportData, line: Line, dir: Direction)
    requires HasMarks(Plain, line) && !p.SkipLast?
    ensures var width := if dir.Consumer? then 3 else 2;
      IsJoin(MarkShown(r, dir), FirstMarks(Qualities(line, dir), width, |Values(line, dir)| / width),
             MarkShown(AddLine(p, r, line), dir))
  {
    LineMarks(p, r, line);
  }

  lemma NextMarks(ws: seq<Window>, w: Window, span: Span, p: Policy, r: ReportData, dir: Direction)
    requires HasMarks(Plain, w.line) && !p.SkipLast? && span(w.time)
    requires IsJoin(0, MarksIn(ws, span, dir), MarkShown(r, dir))
    ensures IsJoin(0, MarksIn(ws + [w], span, dir), MarkShown(AddLine(p, r, w.line), dir))
  {
    var width := if dir.Consumer? then 3 else 2;
    FullLineMarks(p, r, w.line, dir);
    MarksAppend(ws, w, span, dir);
    JoinsMore(0, MarksIn(ws, span, dir), FirstMarks(Qualities(w.line, dir), width, |Values(w.line, dir)| / width),
      MarkShown(r, dir), MarkShown(AddLine(p, r, w.line), dir));
  }

  /** Each hour shows the greatest mark other than 1 of the windows that start in the hour behind it. */
  lemma {:induction false} HourMark(ws: seq<Window>, h: nat, dir: Direction)
    requires AllMarked(ws) && h < 24
    ensures IsJoin(0, MarksIn(ws, InHour((h + 1) % 24), dir), MarkShown(Bucket(HoursOf(ws), h), dir))
  {
    if ws != [] {
      var rest, last, span := ws[..|ws| - 1], ws[|ws| - 1], InHour((h + 1) % 24);
      HourMark(rest, h, dir);
      HourOfExactly(last.time, h);
      assert rest + [last] == ws;
      if span(last.time) {
        NextMarks(rest, last, span, Plain, Bucket(HoursOf(rest), h), dir);
      } else {
        MarksAppend(rest, last, span, dir);
        assert MarksIn(rest, span, dir) + [] == MarksIn(rest, span, dir);
      }
    }
  }

  /** So does each series of windows with all their marks, as the cache hands them on. */
  lemma {:induction false} SeriesMark(ws: seq<Window>, series: Series, name: string, dir: Direction)
    requires AllMarked(ws)
    ensures var c := CurveOf(ws, series);
      IsJoin(0, MarksIn(ws, Named(series, name), dir), MarkShown(if name in c then c[name] else ZERO, dir))
  {
    if ws != [] {
      var rest, last, span := ws[..|ws| - 1], ws[|ws| - 1], Named(series, name);
      var c := CurveOf(rest, series);
      SeriesMark(rest, series, name, dir);
      assert rest + [last] == ws;
      if span(last.time) {
        NextMarks(rest, last, span, Reset, if name in c then c[name] else ZERO, dir);
      } else {
        MarksAppend(rest, last, span, dir);
        assert MarksIn(rest, span, dir) + [] == MarksIn(rest, span, dir);
      }
    }
  }
}
