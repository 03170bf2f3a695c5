/** Three reports over the same feed: totals by hour of the day, one summary, and a load curve. */
module EnergyReports {
  import opened SourceLines
  import opened GapFill
  import opened MeterPeriods
  import opened WindowCache

  datatype ReportData = ReportData(
    consumed: real, alloc: real, distributed: real, produced: real, unused: real,
    qovConsumer: int, qovProducer: int, cntConsumer: nat, cntProducer: nat)

  const ZERO: ReportData := ReportData(0.0, 0.0, 0.0, 0.0, 0.0, 0, 0, 0, 0)

  /** The reports treat missing marks differently: IntraDay has none missing, LoadCurve resets the
      mark, and EnergySummary skips the mark of the last meter. */
  datatype Policy = Plain | Reset | SkipLast

  predicate HasMarks(p: Policy, line: Line) {
    p.Plain? ==> |line.consumers| <= |line.qovConsumers| && |line.producers| <= |line.qovProducers|
  }

  function NextMark(p: Policy, q: int, marks: seq<int>, i: nat, w: nat): int
    requires p.Plain? ==> i < |marks|
  {
    match p
    case Plain => CalcQoV(q, marks[i])
    case Reset => if |marks| > i then CalcQoV(q, marks[i]) else 0
    case SkipLast => if |marks| > i + w then CalcQoV(q, marks[i]) else CalcQoV(q, 1)
  }

  /** The first n consumer meters of a line added to a report. */
  function AddConsumers(p: Policy, r: ReportData, line: Line, n: nat): ReportData
    requires HasMarks(p, line) && 3 * n <= |line.consumers|
  {
    if n == 0 then r
    else
      var s, i := AddConsumers(p, r, line, n - 1), 3 * (n - 1);
      s.(consumed := s.consumed + line.consumers[i],
         alloc := s.alloc + line.consumers[i + 1],
         distributed := s.distributed + line.consumers[i + 2],
         qovConsumer := NextMark(p, s.qovConsumer, line.qovConsumers, i, 3))
  }

  /** The first n producer meters. The summary has no unused energy. */
  function AddProducers(p: Policy, r: ReportData, line: Line, n: nat): ReportData
    requires HasMarks(p, line) && 2 * n <= |line.producers|
  {
    if n == 0 then r
    else
      var s, i := AddProducers(p, r, line, n - 1), 2 * (n - 1);
      s.(produced := s.produced + line.producers[i],
         unused := if p.SkipLast? then s.unused else s.unused + line.producers[i + 1],
         qovProducer := NextMark(p, s.qovProducer, line.qovProducers, i, 2))
  }

  function AddLine(p: Policy, r: ReportData, line: Line): ReportData
    requires HasMarks(p, line)
  {
    AddProducers(p, AddConsumers(p, r, line, |line.consumers| / 3), line, |line.producers| / 2)
  }

  method AddConsumersTo(p: Policy, r: ReportData, line: Line) returns (s: ReportData)
    requires HasMarks(p, line)
    ensures s == AddConsumers(p, r, line, |line.consumers| / 3)
  {
    s := r;
    var cLen := |line.consumers| - |line.consumers| % 3;
    var i := 0;
    ghost var n: nat := 0;
    while i < cLen
      invariant i == 3 * n <= cLen && s == AddConsumers(p, r, line, n)
    {
      s := s.(consumed := s.consumed + line.consumers[i],
              alloc := s.alloc + line.consumers[i + 1],
              distributed := s.distributed + line.consumers[i + 2],
              qovConsumer := NextMark(p, s.qovConsumer, line.qovConsumers, i, 3));
      i, n := i + 3, n + 1;
    }
    assert n == |line.consumers| / 3;
  }

  method AddProducersTo(p: Policy, r: ReportData, line: Line) returns (s: ReportData)
    requires HasMarks(p, line)
    ensures s == AddProducers(p, r, line, |line.producers| / 2)
  {
    s := r;
    var pLen := |line.producers| - |line.producers| % 2;
    var i := 0;
    ghost var n: nat := 0;
    while i < pLen
      invariant i == 2 * n <= pLen && s == AddProducers(p, r, line, n)
    {
      s := s.(produced := s.produced + line.producers[i],
              unused := if p.SkipLast? then s.unused else s.unused + line.producers[i + 1],
              qovProducer := NextMark(p, s.qovProducer, line.qovProducers, i, 2));
      i, n := i + 2, n + 1;
    }
    assert n == |line.producers| / 2;
  }

  method AddLineTo(p: Policy, r: ReportData, line: Line) returns (s: ReportData)
    requires HasMarks(p, line)
    ensures s == AddLine(p, r, line)
  {
    s := AddConsumersTo(p, r, line);
    s := AddProducersTo(p, s, line);
  }

  // ---- The fields of a report -------------------------------------------------------------

  datatype Field = Consumed | Allocated | Distributed | Produced | Unused

  function Get(r: ReportData, f: Field): real {
    match f
    case Consumed => r.consumed
    case Allocated => r.alloc
    case Distributed => r.distributed
    case Produced => r.produced
    case Unused => r.unused
  }

  function DirOf(f: Field): Direction {
    if f.Produced? || f.Unused? then Producer else Consumer
  }

  /** The cell of meter k that a field collects. */
  function CellIndex(f: Field, k: nat): nat {
    match f
    case Consumed => 3 * k
    case Allocated => 3 * k + 1
    case Distributed => 3 * k + 2
    case Produced => 2 * k
    case Unused => 2 * k + 1
  }

  /** The cells of a field of the first n meters of a line. */
  function Strided(l: Line, f: Field, n: nat): real {
    if n == 0 then 0.0 else Strided(l, f, n - 1) + CellOf(l, DirOf(f), CellIndex(f, n - 1))
  }

  /** Meters with all their cells in the line. */
  function Whole(l: Line, f: Field): nat {
    if DirOf(f).Consumer? then |l.consumers| / 3 else |l.producers| / 2
  }

  /** What a report takes from a line: an incomplete last meter is left out. */
  function LineTotal(l: Line, f: Field): real {
    Strided(l, f, Whole(l, f))
  }

  /** The cell of the incomplete last meter. */
  function TailCell(l: Line, f: Field): real {
    CellOf(l, DirOf(f), CellIndex(f, Whole(l, f)))
  }

  lemma {:induction false} AddConsumersGets(p: Policy, r: ReportData, line: Line, n: nat, f: Field)
    requires HasMarks(p, line) && 3 * n <= |line.consumers|
    ensures Get(AddConsumers(p, r, line, n), f) == Get(r, f) + if DirOf(f).Consumer? then Strided(line, f, n) else 0.0
  {
    if n > 0 {
      AddConsumersGets(p, r, line, n - 1, f);
    }
  }

  lemma {:induction false} AddProducersGets(p: Policy, r: ReportData, line: Line, n: nat, f: Field)
    requires HasMarks(p, line) && 2 * n <= |line.producers| && !(p.SkipLast? && f.Unused?)
    ensures Get(AddProducers(p, r, line, n), f) == Get(r, f) + if DirOf(f).Producer? then Strided(line, f, n) else 0.0
  {
    if n > 0 {
      AddProducersGets(p, r, line, n - 1, f);
    }
  }

  lemma AddLineGets(p: Policy, r: ReportData, line: Line, f: Field)
    requires HasMarks(p, line) && !(p.SkipLast? && f.Unused?)
    ensures Get(AddLine(p, r, line), f) == Get(r, f) + LineTotal(line, f)
  {
    AddConsumersGets(p, r, line, |line.consumers| / 3, f);
    AddProducersGets(p, AddConsumers(p, r, line, |line.consumers| / 3), line, |line.producers| / 2, f);
  }

  // ---- Summary ----------------------------------------------------------------------------

  function Summed(feed: seq<Line>): ReportData {
    if feed == [] then ZERO else AddLine(SkipLast, Summed(feed[..|feed| - 1]), feed[|feed| - 1])
  }

  class EnergySummary {
    var result: ReportData

    constructor ()
      ensures result == ZERO
    {
      result := ZERO;
    }

    method Query(feed: seq<Line>)
      requires result == ZERO
      modifies this
      ensures result == Summed(feed)
    {
      for i := 0 to |feed|
        invariant result == Summed(feed[..i])
      {
        assert feed[..i + 1][..i] == feed[..i];
        result := AddLineTo(SkipLast, result, feed[i]);
      }
      assert feed[..|feed|] == feed;
    }
  }

  function FeedTotal(feed: seq<Line>, f: Field): real {
    if feed == [] then 0.0 else FeedTotal(feed[..|feed| - 1], f) + LineTotal(feed[|feed| - 1], f)
  }

  function TailTotal(feed: seq<Line>, f: Field): real {
    if feed == [] then 0.0 else TailTotal(feed[..|feed| - 1], f) + TailCell(feed[|feed| - 1], f)
  }

  lemma {:induction false} SummaryTotal(feed: seq<Line>, f: Field)
    requires !f.Unused?
    ensures Get(Summed(feed), f) == FeedTotal(feed, f)
  {
    if feed != [] {
      SummaryTotal(feed[..|feed| - 1], f);
      AddLineGets(SkipLast, Summed(feed[..|feed| - 1]), feed[|feed| - 1], f);
    }
  }

  // ---- Hours of the day -------------------------------------------------------------------

  const HOUR: int := 3600

  /** The bucket of a window: the hour before the one in which it starts. */
  function HourOf(t: int): (h: int)
    ensures 0 <= h < 24
  {
    (t - HOUR) % 86400 / HOUR
  }

  function NextHour(t: int): int {
    t + HOUR
  }

  type Hours = map<int, ReportData>

  function Bucket(hours: Hours, h: int): ReportData {
    if h in hours then hours[h] else ZERO
  }

  function AddHour(hours: Hours, t: int, line: Line): Hours
    requires HasMarks(Plain, line)
  {
    hours[HourOf(t) := AddLine(Plain, Bucket(hours, HourOf(t)), line)]
  }

  ghost predicate AllMarked(ws: seq<Window>) {
    forall i | 0 <= i < |ws| :: HasMarks(Plain, ws[i].line)
  }

  function HoursOf(ws: seq<Window>): Hours
    requires forall i | 0 <= i < |ws| :: HasMarks(Plain, ws[i].line)
  {
    if ws == [] then map[] else AddHour(HoursOf(ws[..|ws| - 1]), ws[|ws| - 1].time, ws[|ws| - 1].line)
  }

  /** A window that starts with an hour is reported one bucket earlier, around midnight in the last
      bucket. */
  lemma HourIsOneEarly(day: int, hour: nat)
    requires hour < 24
    ensures HourOf(day * 86400 + hour * HOUR) == if hour == 0 then 23 else hour - 1
  {
    var t := hour * HOUR - HOUR;
    if hour == 0 {
      assert day * 86400 + t == (day - 1) * 86400 + 23 * HOUR;
      assert (day * 86400 + t) % 86400 == 23 * HOUR;
    } else {
      assert (day * 86400 + t) % 86400 == t;
    }
  }

  /** The buckets 0 to n-1 together. */
  function BucketTotal(hours: Hours, f: Field, n: nat): real {
    if n == 0 then 0.0 else BucketTotal(hours, f, n - 1) + Get(Bucket(hours, n - 1), f)
  }

  /** The field of all shown reports together. */
  function ShownTotal(data: seq<ReportData>, f: Field): real {
    if data == [] then 0.0 else ShownTotal(data[..|data| - 1], f) + Get(data[|data| - 1], f)
  }

  lemma HoursAppend(ws: seq<Window>, w: Window)
    requires AllMarked(ws) && HasMarks(Plain, w.line)
    ensures AllMarked(ws + [w]) && HoursOf(ws + [w]) == AddHour(HoursOf(ws), w.time, w.line)
  {
    assert (ws + [w])[..|ws|] == ws;
  }

  class IntraDay {
    const cache: Cache
    var result: Hours

    constructor (sz: Sizes)
      ensures fresh(cache) && cache.shift == Windowed(NextHour) && cache.sz == sz && result == map[]
    {
      cache := new Cache(Windowed(NextHour), sz);
      result := map[];
    }

    method AddToResult(t: int, line: Line)
      requires HasMarks(Plain, line)
      modifies this`result
      ensures result == AddHour(old(result), t, line)
    {
      var hour := HourOf(t);
      if hour !in result {
        result := result[hour := ZERO];
      }
      var r := AddLineTo(Plain, result[hour], line);
      result := result[hour := r];
    }

    method Query(start: int, feed: seq<Line>)
      requires cache.shift.Windowed? && AllFit(feed, cache.sz) && result == map[]
      modifies this, cache
      ensures AllMarked(Windows(start, cache.shift.next, cache.sz, feed))
      ensures result == HoursOf(Windows(start, cache.shift.next, cache.sz, feed))
    {
      cache.InitCache(start);
      ghost var s0, next, sz := Opening(start, cache.sz), cache.shift.next, cache.sz;
      for i := 0 to |feed|
        invariant cache.Valid() && cache.State() == After(s0, next, sz, feed[..i])
        invariant AllMarked(Emitted(s0, next, sz, feed[..i]))
        invariant result == HoursOf(Emitted(s0, next, sz, feed[..i]))
      {
        NextLine(s0, next, sz, feed, i);
        ghost var ws, out := Emitted(s0, next, sz, feed[..i]), Step(cache.State(), next, sz, feed[i]).1;
        var handed := cache.CacheLine(feed[i]);
        if handed.Handed? {
          assert out == [Window(handed.time, handed.line)];
          HoursAppend(ws, out[0]);
          AddToResult(handed.time, handed.line);
        } else {
          assert ws + out == ws;
        }
      }
      assert feed[..|feed|] == feed;
      HoursAppend(Emitted(s0, next, sz, feed), Window(cache.cacheTime, cache.cache));
      AddToResult(cache.cacheTime, cache.cache);
    }

    /** The shown reports: 24 of them, in the order of the hours, that together hold what was
        counted. */
    method GetResult() returns (data: seq<ReportData>)
      ensures |data| == 24 && forall h | 0 <= h < 24 :: data[h] == if h in result then result[h] else ZERO
      ensures forall f :: ShownTotal(data, f) == BucketTotal(result, f, 24)
    {
      data := seq(24, _ => ZERO);
      for i := 0 to 24
        invariant |data| == 24 && forall h | 0 <= h < i :: data[h] == Bucket(result, h)
        invariant forall f :: ShownTotal(data[..i], f) == BucketTotal(result, f, i)
      {
        ghost var before := data[..i];
        if i in result {
          data := data[i := result[i]];
        } else {
          data := data[i := ZERO];
        }
        assert data[..i + 1][..i] == before;
      }
      assert data[..24] == data;
    }
  }

  // ---- Load curve -------------------------------------------------------------------------

  type Curve = map<string, ReportData>

  /** What a load curve needs besides the lines: the names of the series by the time of a window, and the
      periods of the meters. */
  datatype Series = Series(names: int -> string, consumers: seq<Range>, producers: seq<Range>)

  /** The members at the time of the window that is added last. */
  function Counted(r: ReportData, series: Series, t: int): ReportData {
    r.(cntConsumer := Members(series.consumers, t, t), cntProducer := Members(series.producers, t, t))
  }

  function AddNamed(curve: Curve, series: Series, t: int, line: Line): Curve {
    var name := series.names(t);
    curve[name := Counted(AddLine(Reset, if name in curve then curve[name] else ZERO, line), series, t)]
  }

  function CurveOf(ws: seq<Window>, series: Series): Curve {
    if ws == [] then map[]
    else AddNamed(CurveOf(ws[..|ws| - 1], series), series, ws[|ws| - 1].time, ws[|ws| - 1].line)
  }

  /** Every line as a window of its own. */
  function RawWindows(feed: seq<Line>): seq<Window>
    requires WithIds(feed)
  {
    if feed == [] then [] else RawWindows(feed[..|feed| - 1]) + [Window(feed[|feed| - 1].id.time, feed[|feed| - 1])]
  }

  /** What the load curve adds up: a last window without an id is skipped. */
  function CurveWindows(shift: Shift, start: int, sz: Sizes, feed: seq<Line>): seq<Window>
    requires WithIds(feed)
  {
    match shift
    case Raw => RawWindows(feed)
    case Windowed(next) =>
      var s := After(Opening(start, sz), next, sz, feed);
      Emitted(Opening(start, sz), next, sz, feed) + if s.line.id.NoRow? then [] else [Window(s.time, s.line)]
  }

  /** The windows handed on while the lines come in. */
  function HandedOn(shift: Shift, start: int, sz: Sizes, feed: seq<Line>): seq<Window>
    requires WithIds(feed)
  {
    if shift.Raw? then RawWindows(feed) else Emitted(Opening(start, sz), shift.next, sz, feed)
  }

  lemma CurveAppends(ws: seq<Window>, w: Window, series: Series)
    ensures CurveOf(ws + [w], series) == AddNamed(CurveOf(ws, series), series, w.time, w.line)
  {
    assert (ws + [w])[..|ws|] == ws;
  }

  /** What one more line hands on. */
  function NextHanded(shift: Shift, start: int, sz: Sizes, feed: seq<Line>, i: nat): seq<Window>
    requires WithIds(feed) && i < |feed|
  {
    if shift.Raw? then [Window(feed[i].id.time, feed[i])]
    else Step(After(Opening(start, sz), shift.next, sz, feed[..i]), shift.next, sz, feed[i]).1
  }

  lemma HandedOnNext(shift: Shift, start: int, sz: Sizes, feed: seq<Line>, i: nat)
    requires WithIds(feed) && i < |feed|
    ensures HandedOn(shift, start, sz, feed[..i + 1]) ==
            HandedOn(shift, start, sz, feed[..i]) + NextHanded(shift, start, sz, feed, i)
    ensures shift.Windowed? ==>
      After(Opening(start, sz), shift.next, sz, feed[..i + 1]) ==
      Step(After(Opening(start, sz), shift.next, sz, feed[..i]), shift.next, sz, feed[i]).0
  {
    assert feed[..i + 1][..i] == feed[..i];
    if shift.Windowed? {
      NextLine(Opening(start, sz), shift.next, sz, feed, i);
    }
  }

  class LoadCurve {
    const cache: Cache
    const series: Series
    var result: Curve

    constructor (shift: Shift, sz: Sizes, series: Series)
      ensures fresh(cache) && cache.shift == shift && cache.sz == sz && this.series == series && result == map[]
      ensures cache.cache.id == NoRow
    {
      cache := new Cache(shift, sz);
      this.series := series;
      result := map[];
    }

    method AddToResult(t: int, line: Line)
      modifies this`result
      ensures result == AddNamed(old(result), series, t, line)
    {
      var sn := series.names(t);
      if sn !in result {
        result := result[sn := ZERO];
      }
      var r := AddLineTo(Reset, result[sn], line);
      var consumers := CountMembers(series.consumers, t, t);
      var producers := CountMembers(series.producers, t, t);
      result := result[sn := r.(cntConsumer := consumers, cntProducer := producers)];
    }

    method HandleEnd()
      modifies this`result
      ensures result == if cache.cache.id.NoRow? then old(result)
        else AddNamed(old(result), series, cache.cacheTime, cache.cache)
    {
      if cache.cache.id.NoRow? {
        return;
      }
      AddToResult(cache.cacheTime, cache.cache);
    }

    method Query(start: int, feed: seq<Line>)
      requires WithIds(feed) && (cache.shift.Windowed? ==> AllFit(feed, cache.sz))
      requires result == map[] && cache.cache.id == NoRow
      modifies this, cache
      ensures result == CurveOf(CurveWindows(cache.shift, start, cache.sz, feed), series)
    {
      cache.InitCache(start);
      for i := 0 to |feed|
        invariant cache.Valid() && result == CurveOf(HandedOn(cache.shift, start, cache.sz, feed[..i]), series)
        invariant cache.shift.Raw? ==> cache.cache.id == NoRow
        invariant cache.shift.Windowed? ==>
          cache.State() == After(Opening(start, cache.sz), cache.shift.next, cache.sz, feed[..i])
      {
        HandedOnNext(cache.shift, start, cache.sz, feed, i);
        ghost var ws, out := HandedOn(cache.shift, start, cache.sz, feed[..i]),
          NextHanded(cache.shift, start, cache.sz, feed, i);
        var handed := cache.CacheLine(feed[i]);
        if handed.Handed? {
          AddToResult(handed.time, handed.line);
          assert out == [Window(handed.time, handed.line)];
          CurveAppends(ws, out[0], series);
        } else {
          assert ws + out == ws;
        }
      }
      assert feed[..|feed|] == feed;
      Finish(start, feed);
    }

    /** The last window is added when it has an id. */
    method Finish(start: int, ghost feed: seq<Line>)
      requires WithIds(feed) && result == CurveOf(HandedOn(cache.shift, start, cache.sz, feed), series)
      requires cache.shift.Raw? ==> cache.cache.id == NoRow
      requires cache.shift.Windowed? ==>
        cache.State() == After(Opening(start, cache.sz), cache.shift.next, cache.sz, feed)
      modifies this`result
      ensures result == CurveOf(CurveWindows(cache.shift, start, cache.sz, feed), series)
    {
      ghost var ws := HandedOn(cache.shift, start, cache.sz, feed);
      CurveAppends(ws, Window(cache.cacheTime, cache.cache), series);
      assert ws + [] == ws;
      HandleEnd();
    }
  }
}
