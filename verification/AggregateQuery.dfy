/** The aggregation of the raw data of requested metering points. */
module AggregateQuery {
  import opened Numbers
  import opened SourceLines
  import opened MeterRegistry
  import opened WindowCache

  datatype RawData = RawData(ts: int, value: seq<real>, qov: seq<int>)

  datatype RawDataResult = RawDataResult(direction: Direction, data: seq<RawData>)

  type Results = map<string, RawDataResult>

  function FirstCell(m: Meter): nat {
    FirstOf(m.dir, m.sourceIdx)
  }

  /** The slots of a meter in a line: missing values are zero, and marks count only where there are
      values. */
  function Entry(t: int, line: Line, m: Meter): RawData {
    var values, marks, b, w := Values(line, m.dir), Qualities(line, m.dir), FirstCell(m), Width(m.dir);
    RawData(t,
            if |values| > b then Resized(values[b..], w, 0.0) else Fill(w, 0.0),
            if |values| > b && |marks| > b then Resized(marks[b..], w, 0) else Fill(w, 0))
  }

  function DataOf(result: Results, mp: string): seq<RawData> {
    if mp in result then result[mp].data else []
  }

  function AddOne(result: Results, cp: string, meta: Registry, t: int, line: Line): Results {
    if cp !in meta then result
    else result[cp := RawDataResult(if cp in result then result[cp].direction else meta[cp].dir,
                                    DataOf(result, cp) + [Entry(t, line, meta[cp])])]
  }

  /** One entry for each requested point, in the order of the request. */
  function AddTo(result: Results, cps: seq<string>, meta: Registry, t: int, line: Line): Results {
    if cps == [] then result else AddOne(AddTo(result, cps[..|cps| - 1], meta, t, line), cps[|cps| - 1], meta, t, line)
  }

  function ResultOf(ws: seq<Window>, cps: seq<string>, meta: Registry): Results {
    if ws == [] then map[]
    else AddTo(ResultOf(ws[..|ws| - 1], cps, meta), cps, meta, ws[|ws| - 1].time, ws[|ws| - 1].line)
  }

  class Aggregate {
    const cps: seq<string>
    const meta: Registry
    const cache: Cache
    var result: Results

    ghost predicate Valid()
      reads this, cache
    {
      cache.Valid() && cache.shift.Windowed?
    }

    constructor (cps: seq<string>, meta: Registry, next: Next, sz: Sizes)
      ensures this.cps == cps && this.meta == meta && fresh(cache)
      ensures cache.shift == Windowed(next) && cache.sz == sz && result == map[]
    {
      this.cps, this.meta := cps, meta;
      this.cache := new Cache(Windowed(next), sz);
      this.result := map[];
    }

    method AddToResult(t: int, line: Line)
      modifies this`result
      ensures result == AddTo(old(result), cps, meta, t, line)
    {
      for i := 0 to |cps|
        invariant result == AddTo(old(result), cps[..i], meta, t, line)
      {
        assert cps[..i + 1][..i] == cps[..i];
        var cp := cps[i];
        if cp in meta {
          var m := meta[cp];
          if cp !in result {
            result := result[cp := RawDataResult(m.dir, [])];
          }
          result := result[cp := result[cp].(data := result[cp].data + [Entry(t, line, m)])];
        }
      }
      assert cps[..|cps|] == cps;
    }

    /** A whole run of the engine over its feed. */
    method Query(start: int, feed: seq<Line>)
      requires cache.shift.Windowed? && AllFit(feed, cache.sz)
      modifies this, cache
      ensures result == ResultOf(Windows(start, cache.shift.next, cache.sz, feed), cps, meta)
    {
      result := map[];
      cache.InitCache(start);
      ghost var s0, next, sz := Opening(start, cache.sz), cache.shift.next, cache.sz;
      for i := 0 to |feed|
        invariant Valid() && cache.State() == After(s0, next, sz, feed[..i])
        invariant result == ResultOf(Emitted(s0, next, sz, feed[..i]), cps, meta)
      {
        assert feed[..i + 1][..i] == feed[..i];
        ghost var ws := Emitted(s0, next, sz, feed[..i]);
        ghost var out := Step(cache.State(), next, sz, feed[i]).1;
        var handed := cache.CacheLine(feed[i]);
        if handed.Handed? {
          AddToResult(handed.time, handed.line);
          assert (ws + out)[..|ws|] == ws;
        } else {
          assert ws + out == ws;
        }
      }
      assert feed[..|feed|] == feed;
      AddToResult(cache.cacheTime, cache.cache);
      ghost var ws := Emitted(s0, next, sz, feed);
      assert Windows(start, next, sz, feed)[..|ws|] == ws;
    }
  }

  // ---- Conservation per slot --------------------------------------------------------------

  function Requests(cps: seq<string>, mp: string): nat {
    if cps == [] then 0 else Requests(cps[..|cps| - 1], mp) + if cps[|cps| - 1] == mp then 1 else 0
  }

  /** The sum of slot k over all entries. */
  function SlotSum(ds: seq<RawData>, k: nat): real {
    if ds == [] then 0.0 else SlotSum(ds[..|ds| - 1], k) + SourceLines.At(ds[|ds| - 1].value, k, 0.0)
  }

  lemma SlotIsCell(t: int, line: Line, m: Meter, k: nat)
    requires k < Width(m.dir)
    ensures SourceLines.At(Entry(t, line, m).value, k, 0.0) == CellOf(line, m.dir, FirstCell(m) + k)
  {
  }

  lemma SlotSumAppends(ds: seq<RawData>, d: RawData, k: nat)
    ensures SlotSum(ds + [d], k) == SlotSum(ds, k) + SourceLines.At(d.value, k, 0.0)
  {
    assert (ds + [d])[..|ds|] == ds;
  }

  /** One request adds the line's cell to the meter's slot, and to no other meter's. */
  lemma AddOneToSlots(result: Results, cp: string, meta: Registry, t: int, line: Line, mp: string, k: nat)
    requires mp in meta && k < Width(meta[mp].dir)
    ensures SlotSum(DataOf(AddOne(result, cp, meta, t, line), mp), k) == SlotSum(DataOf(result, mp), k) +
              if cp == mp then CellOf(line, meta[mp].dir, FirstCell(meta[mp]) + k) else 0.0
  {
    SlotIsCell(t, line, meta[mp], k);
    SlotSumAppends(DataOf(result, mp), Entry(t, line, meta[mp]), k);
  }

  lemma NextRequest(cps: seq<string>, mp: string, x: real)
    requires cps != []
    ensures Times(Requests(cps, mp), x) ==
            Times(Requests(cps[..|cps| - 1], mp), x) + if cps[|cps| - 1] == mp then x else 0.0
  {
  }

  lemma {:induction false} AddToSlots(result: Results, cps: seq<string>, meta: Registry, t: int, line: Line, mp: string,
                                      k: nat)
    requires mp in meta && k < Width(meta[mp].dir)
    ensures SlotSum(DataOf(AddTo(result, cps, meta, t, line), mp), k)
         == SlotSum(DataOf(result, mp), k) +
           Times(Requests(cps, mp), CellOf(line, meta[mp].dir, FirstCell(meta[mp]) + k))
  {
    if cps != [] {
      var x := CellOf(line, meta[mp].dir, FirstCell(meta[mp]) + k);
      AddToSlots(result, cps[..|cps| - 1], meta, t, line, mp, k);
      NextRequest(cps, mp, x);
      AddOneToSlots(AddTo(result, cps[..|cps| - 1], meta, t, line), cps[|cps| - 1], meta, t, line, mp, k);
    }
  }

  lemma {:induction false} ResultSlots(ws: seq<Window>, cps: seq<string>, meta: Registry, mp: string, k: nat)
    requires mp in meta && k < Width(meta[mp].dir)
    ensures SlotSum(DataOf(ResultOf(ws, cps, meta), mp), k)
         == Times(Requests(cps, mp), WindowsCell(ws, meta[mp].dir, FirstCell(meta[mp]) + k))
  {
    var c := FirstCell(meta[mp]) + k;
    if ws == [] {
      TimesZero(Requests(cps, mp));
    } else {
      var rest, last := ws[..|ws| - 1], ws[|ws| - 1];
      ResultSlots(rest, cps, meta, mp, k);
      AddToSlots(ResultOf(rest, cps, meta), cps, meta, last.time, last.line, mp, k);
      TimesAdds(Requests(cps, mp), WindowsCell(rest, meta[mp].dir, c), CellOf(last.line, meta[mp].dir, c));
    }
  }

  lemma {:induction false} TimesZero(n: nat)
    ensures Times(n, 0.0) == 0.0
  {
    if n > 0 {
      TimesZero(n - 1);
    }
  }

  /** Whatever the order and the times of the lines: over all emitted windows, the slots of a
      requested meter sum up to the cells of the meter over all lines, once for each request. */
  lemma AggregateConserves(start: int, next: Next, sz: Sizes, feed: seq<Line>, cps: seq<string>, meta: Registry,
                           mp: string, k: nat)
    requires AllFit(feed, sz) && mp in meta && k < Width(meta[mp].dir)
    ensures SlotSum(DataOf(ResultOf(Windows(start, next, sz, feed), cps, meta), mp), k)
         == Times(Requests(cps, mp), LinesCell(feed, meta[mp].dir, FirstCell(meta[mp]) + k))
  {
    ResultSlots(Windows(start, next, sz, feed), cps, meta, mp, k);
    WindowsConserve(start, next, sz, feed, meta[mp].dir, FirstCell(meta[mp]) + k);
  }

  // ---- The answer to a request ------------------------------------------------------------

  /** The entry answers for the window: its time, and the meter's three or two cells of it. Marks count
      where the line has a value for the meter. */
  ghost predicate Answers(d: RawData, w: Window, m: Meter) {
    var width := if m.dir.Consumer? then 3 else 2;
    var first := width * m.sourceIdx;
    && d.ts == w.time && |d.value| == |d.qov| == width
    && forall k: nat | k < width ::
      && d.value[k] == CellOf(w.line, m.dir, first + k)
      && d.qov[k] == if first < |Values(w.line, m.dir)| then MarkOf(w.line, m.dir, first + k) else 0
  }

  lemma EntryAnswers(w: Window, m: Meter)
    ensures Answers(Entry(w.time, w.line, m), w, m)
  {
  }

  lemma AddOneData(result: Results, cp: string, meta: Registry, t: int, line: Line, mp: string)
    requires mp in meta
    ensures DataOf(AddOne(result, cp, meta, t, line), mp) ==
            DataOf(result, mp) + if cp == mp then [Entry(t, line, meta[mp])] else []
  {
  }

  lemma FillNext(data: seq<RawData>, n: nat, e: RawData)
    ensures data + Fill(n, e) + [e] == data + Fill(n + 1, e) && data + Fill(0, e) == data
    ensures data + Fill(n, e) + [] == data + Fill(n, e)
  {
  }

  lemma {:induction false} AddToData(result: Results, cps: seq<string>, meta: Registry, t: int, line: Line, mp: string)
    requires mp in meta
    ensures DataOf(AddTo(result, cps, meta, t, line), mp) ==
            DataOf(result, mp) + Fill(Requests(cps, mp), Entry(t, line, meta[mp]))
  {
    var e := Entry(t, line, meta[mp]);
    if cps == [] {
      FillNext(DataOf(result, mp), 0, e);
    } else {
      var rest, last := cps[..|cps| - 1], cps[|cps| - 1];
      AddToData(result, rest, meta, t, line, mp);
      AddOneData(AddTo(result, rest, meta, t, line), last, meta, t, line, mp);
      FillNext(DataOf(result, mp), Requests(rest, mp), e);
    }
  }

  lemma {:induction false} AddToDirection(result: Results, cps: seq<string>, meta: Registry, t: int, line: Line,
                                          mp: string)
    requires mp in meta && (mp in result ==> result[mp].direction == meta[mp].dir)
    ensures var after := AddTo(result, cps, meta, t, line);
      && (mp in after <==> mp in result || Requests(cps, mp) > 0)
      && (mp in after ==> after[mp].direction == meta[mp].dir)
  {
    if cps != [] {
      AddToDirection(result, cps[..|cps| - 1], meta, t, line, mp);
    }
  }

  /** Entry j answers for window j / n. */
  ghost predicate AnswersInOrder(data: seq<RawData>, ws: seq<Window>, m: Meter, n: nat)
    requires n > 0
  {
    && |data| == n * |ws|
    && forall j: nat | j < |data| :: j / n < |ws| && Answers(data[j], ws[j / n], m)
  }

  lemma EarlierAnswer(data: seq<RawData>, ws: seq<Window>, more: seq<RawData>, w: Window, m: Meter, n: nat, j: nat)
    requires n > 0 && AnswersInOrder(data, ws, m, n) && j < |data|
    ensures j / n < |ws| + 1 && Answers((data + more)[j], (ws + [w])[j / n], m)
  {
    assert Answers(data[j], ws[j / n], m);
  }

  lemma NewAnswer(size: nat, count: nat, n: nat, j: nat)
    requires n > 0 && size == n * count && size <= j < size + n
    ensures j / n == count
  {
    QuotientOf(j, count, j - size, n);
  }

  lemma NextAnswers(data: seq<RawData>, ws: seq<Window>, w: Window, m: Meter, n: nat)
    requires n > 0 && AnswersInOrder(data, ws, m, n)
    ensures AnswersInOrder(data + Fill(n, Entry(w.time, w.line, m)), ws + [w], m, n)
  {
    var more, windows := Fill(n, Entry(w.time, w.line, m)), ws + [w];
    EntryAnswers(w, m);
    assert n * |windows| == n * |ws| + n;
    forall j: nat | j < |data| + n ensures j / n < |windows| && Answers((data + more)[j], windows[j / n], m) {
      if j < |data| {
        EarlierAnswer(data, ws, more, w, m, n, j);
      } else {
        NewAnswer(|data|, |ws|, n, j);
      }
    }
  }

  /** A known meter that is requested n times gets n equal entries for each window, in the order of the
      windows, and its own direction. */
  lemma {:induction false} RequestIsAnswered(ws: seq<Window>, cps: seq<string>, meta: Registry, mp: string)
    requires mp in meta && Requests(cps, mp) > 0
    ensures AnswersInOrder(DataOf(ResultOf(ws, cps, meta), mp), ws, meta[mp], Requests(cps, mp))
    ensures var result := ResultOf(ws, cps, meta);
      (mp in result <==> ws != []) && (mp in result ==> result[mp].direction == meta[mp].dir)
  {
    if ws != [] {
      var rest, last := ws[..|ws| - 1], ws[|ws| - 1];
      RequestIsAnswered(rest, cps, meta, mp);
      AddToData(ResultOf(rest, cps, meta), cps, meta, last.time, last.line, mp);
      AddToDirection(ResultOf(rest, cps, meta), cps, meta, last.time, last.line, mp);
      NextAnswers(DataOf(ResultOf(rest, cps, meta), mp), rest, last, meta[mp], Requests(cps, mp));
      assert rest + [last] == ws;
    }
  }

  /** Points that are unknown or not requested get no answer. */
  lemma {:induction false} NoOtherAnswers(ws: seq<Window>, cps: seq<string>, meta: Registry, mp: string)
    requires mp !in meta || Requests(cps, mp) == 0
    ensures mp !in ResultOf(ws, cps, meta)
  {
    if ws != [] {
      NoOtherAnswers(ws[..|ws| - 1], cps, meta, mp);
      NotAdded(ResultOf(ws[..|ws| - 1], cps, meta), cps, meta, ws[|ws| - 1].time, ws[|ws| - 1].line, mp);
    }
  }

  lemma {:induction false} NotAdded(result: Results, cps: seq<string>, meta: Registry, t: int, line: Line, mp: string)
    requires mp !in result && (mp !in meta || Requests(cps, mp) == 0)
    ensures mp !in AddTo(result, cps, meta, t, line)
  {
    if cps != [] {
      NotAdded(result, cps[..|cps| - 1], meta, t, line, mp);
    }
  }
}
