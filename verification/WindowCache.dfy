/** The cache that sums lines into windows. It looks one window ahead only: each line moves it on by
    one window at most, however late the line is. */
module WindowCache {
  import opened SourceLines
  import opened GapFill

  // ---- Qualities --------------------------------------------------------------------------

  /** Joins two quality marks: 1 gives way to the other mark, otherwise the greater one wins. */
  function CalcQoV(current: int, target: int): int {
    if current != 1 then (if target > current && target != 1 then target else current) else target
  }

  /** Joining is a commutative monoid with unit 1, so the order of the lines of a window does not
      matter. */
  lemma QoVMonoid(a: int, b: int, c: int)
    ensures CalcQoV(1, a) == a && CalcQoV(a, 1) == a
    ensures CalcQoV(a, b) == CalcQoV(b, a)
    ensures CalcQoV(CalcQoV(a, b), c) == CalcQoV(a, CalcQoV(b, c))
    ensures a != 1 && b != 1 ==> CalcQoV(a, b) == if a < b then b else a
  {
  }

  // ---- One window -------------------------------------------------------------------------

  /** Number of meters per direction. */
  datatype Sizes = Sizes(nCons: nat, nProd: nat)

  function Cells(sz: Sizes, dir: Direction): nat {
    if dir.Consumer? then sz.nCons * 3 else sz.nProd * 2
  }

  /** Lines may be shorter than the cache but not longer. */
  predicate Fits(l: Line, sz: Sizes) {
    |l.consumers| <= sz.nCons * 3 && |l.producers| <= sz.nProd * 2
  }

  predicate FullSize(l: Line, sz: Sizes) {
    |l.consumers| == |l.qovConsumers| == sz.nCons * 3 && |l.producers| == |l.qovProducers| == sz.nProd * 2
  }

  function EmptyCache(sz: Sizes): (l: Line)
    ensures FullSize(l, sz)
  {
    Line(NoRow, Fill(sz.nCons * 3, 0.0), Fill(sz.nProd * 2, 0.0), Fill(sz.nCons * 3, 1), Fill(sz.nProd * 2, 1))
  }

  function AddedValues(cache: seq<real>, line: seq<real>): seq<real> {
    seq(|cache|, i requires 0 <= i < |cache| => cache[i] + SourceLines.At(line, i, 0.0))
  }

  /** The first n marks are joined, with zero where the line has none. */
  function JoinedMarks(cache: seq<int>, line: seq<int>, n: nat): seq<int> {
    seq(|cache|, i requires 0 <= i < |cache| =>
      if i < n then CalcQoV(cache[i], SourceLines.At(line, i, 0)) else cache[i])
  }

  function Added(cache: Line, line: Line): Line {
    Line(line.id,
         AddedValues(cache.consumers, line.consumers), AddedValues(cache.producers, line.producers),
         JoinedMarks(cache.qovConsumers, line.qovConsumers, |line.consumers|),
         JoinedMarks(cache.qovProducers, line.qovProducers, |line.producers|))
  }

  type Next = int -> int

  datatype Window = Window(time: int, line: Line)

  datatype Cached = Cached(line: Line, time: int)

  /** One line into the cache: it joins the open window, or the window is handed on and the line
      starts the next one. */
  function Step(s: Cached, next: Next, sz: Sizes, line: Line): (Cached, seq<Window>)
    requires HasId(line)
  {
    if line.id.time < next(s.time) then (Cached(Added(s.line, line), s.time), [])
    else (Cached(DeepCopy(line, sz.nCons, sz.nProd), next(s.time)), [Window(s.time, s.line)])
  }

  function After(s: Cached, next: Next, sz: Sizes, feed: seq<Line>): Cached
    requires WithIds(feed)
  {
    if feed == [] then s else Step(After(s, next, sz, feed[..|feed| - 1]), next, sz, feed[|feed| - 1]).0
  }

  function Emitted(s: Cached, next: Next, sz: Sizes, feed: seq<Line>): seq<Window>
    requires WithIds(feed)
  {
    if feed == [] then []
    else
      var rest := feed[..|feed| - 1];
      Emitted(s, next, sz, rest) + Step(After(s, next, sz, rest), next, sz, feed[|feed| - 1]).1
  }

  function Opening(start: int, sz: Sizes): Cached {
    Cached(EmptyCache(sz), start)
  }

  /** One more line: the state takes a step and hands on what the step emits. */
  lemma NextLine(s: Cached, next: Next, sz: Sizes, feed: seq<Line>, i: nat)
    requires WithIds(feed) && i < |feed|
    ensures After(s, next, sz, feed[..i + 1]) == Step(After(s, next, sz, feed[..i]), next, sz, feed[i]).0
    ensures Emitted(s, next, sz, feed[..i + 1]) ==
            Emitted(s, next, sz, feed[..i]) + Step(After(s, next, sz, feed[..i]), next, sz, feed[i]).1
  {
    assert feed[..i + 1][..i] == feed[..i];
  }

  /** The windows of a whole run, the last one being what is left in the cache. */
  function Windows(start: int, next: Next, sz: Sizes, feed: seq<Line>): seq<Window>
    requires WithIds(feed)
  {
    var s := After(Opening(start, sz), next, sz, feed);
    Emitted(Opening(start, sz), next, sz, feed) + [Window(s.time, s.line)]
  }

  datatype Shift = Raw | Windowed(next: Next)

  datatype Handed = Nothing | Handed(time: int, line: Line)

  class Cache {
    const shift: Shift
    const sz: Sizes
    var cache: Line
    var cacheTime: int

    ghost predicate Valid()
      reads this
    {
      shift.Windowed? ==> FullSize(cache, sz)
    }

    function State(): Cached
      reads this
    {
      Cached(cache, cacheTime)
    }

    constructor (shift: Shift, sz: Sizes)
      ensures this.shift == shift && this.sz == sz && cache == Line(NoRow, [], [], [], [])
    {
      this.shift, this.sz := shift, sz;
      cache, cacheTime := Line(NoRow, [], [], [], []), 0;
    }

    /** Opens the first window. Without windows the cache stays as it is. */
    method InitCache(start: int)
      modifies this
      ensures Valid()
      ensures if shift.Windowed? then State() == Opening(start, sz) else State() == old(State())
    {
      if shift.Raw? {
        return;
      }
      cacheTime := start;
      cache := Line(NoRow, Fill(sz.nCons * 3, 0.0), Fill(sz.nProd * 2, 0.0), Fill(sz.nCons * 3, 1),
        Fill(sz.nProd * 2, 1));
    }

    method AddToCache(line: Line)
      requires FullSize(cache, sz) && Fits(line, sz)
      modifies this`cache
      ensures cache == Added(old(cache), line) && FullSize(cache, sz)
    {
      ghost var before := cache;
      cache := cache.(id := line.id);
      for i := 0 to |line.consumers|
        invariant FullSize(cache, sz) && cache.id == line.id
        invariant cache.producers == before.producers && cache.qovProducers == before.qovProducers
        invariant forall k | 0 <= k < |cache.consumers| :: cache.consumers[k] ==
                    if k < i then before.consumers[k] + line.consumers[k] else before.consumers[k]
        invariant cache.qovConsumers == JoinedMarks(before.qovConsumers, line.qovConsumers, i)
      {
        var mark := if |line.qovConsumers| > i then CalcQoV(cache.qovConsumers[i], line.qovConsumers[i])
                    else CalcQoV(cache.qovConsumers[i], 0);
        cache := cache.(consumers := cache.consumers[i := cache.consumers[i] + line.consumers[i]],
                        qovConsumers := cache.qovConsumers[i := mark]);
      }
      assert cache.consumers == AddedValues(before.consumers, line.consumers);
      for i := 0 to |line.producers|
        invariant FullSize(cache, sz) && cache.id == line.id
        invariant cache.consumers == AddedValues(before.consumers, line.consumers)
        invariant cache.qovConsumers == JoinedMarks(before.qovConsumers, line.qovConsumers, |line.consumers|)
        invariant forall k | 0 <= k < |cache.producers| :: cache.producers[k] ==
                    if k < i then before.producers[k] + line.producers[k] else before.producers[k]
        invariant cache.qovProducers == JoinedMarks(before.qovProducers, line.qovProducers, i)
      {
        var mark := if |line.qovProducers| > i then CalcQoV(cache.qovProducers[i], line.qovProducers[i])
                    else CalcQoV(cache.qovProducers[i], 0);
        cache := cache.(producers := cache.producers[i := cache.producers[i] + line.producers[i]],
                        qovProducers := cache.qovProducers[i := mark]);
      }
      assert cache.producers == AddedValues(before.producers, line.producers);
    }

    /** Takes one line and tells what has to be added to the result now, if anything. */
    method CacheLine(line: Line) returns (handed: Handed)
      requires Valid() && HasId(line) && (shift.Windowed? ==> Fits(line, sz))
      modifies this
      ensures Valid()
      ensures shift.Raw? ==> handed == Handed(line.id.time, line) && State() == old(State())
      ensures shift.Windowed? ==>
                var (s, out) := Step(old(State()), shift.next, sz, line);
                State() == s && handed == if out == [] then Nothing else Handed(out[0].time, out[0].line)
    {
      if shift.Raw? {
        return Handed(line.id.time, line);
      }
      if line.id.time < shift.next(cacheTime) {
        AddToCache(line);
        return Nothing;
      }
      handed := Handed(cacheTime, cache);
      cache := DeepCopy(line, sz.nCons, sz.nProd);
      cacheTime := shift.next(cacheTime);
    }
  }

  // ---- Conservation -----------------------------------------------------------------------

  function CellOf(l: Line, dir: Direction, i: nat): real {
    SourceLines.At(Values(l, dir), i, 0.0)
  }

  function MarkOf(l: Line, dir: Direction, i: nat): int {
    SourceLines.At(Qualities(l, dir), i, 0)
  }

  function LinesCell(ls: seq<Line>, dir: Direction, i: nat): real {
    if ls == [] then 0.0 else LinesCell(ls[..|ls| - 1], dir, i) + CellOf(ls[|ls| - 1], dir, i)
  }

  function WindowsCell(ws: seq<Window>, dir: Direction, i: nat): real {
    if ws == [] then 0.0 else WindowsCell(ws[..|ws| - 1], dir, i) + CellOf(ws[|ws| - 1].line, dir, i)
  }

  ghost predicate AllFit(feed: seq<Line>, sz: Sizes) {
    WithIds(feed) && forall i | 0 <= i < |feed| :: Fits(feed[i], sz)
  }

  lemma StepKeepsSize(s: Cached, next: Next, sz: Sizes, line: Line)
    requires HasId(line) && FullSize(s.line, sz)
    ensures FullSize(Step(s, next, sz, line).0.line, sz)
  {
  }

  lemma {:induction false} AfterFullSize(s: Cached, next: Next, sz: Sizes, feed: seq<Line>)
    requires WithIds(feed) && FullSize(s.line, sz)
    ensures FullSize(After(s, next, sz, feed).line, sz)
  {
    if feed != [] {
      AfterFullSize(s, next, sz, feed[..|feed| - 1]);
      StepKeepsSize(After(s, next, sz, feed[..|feed| - 1]), next, sz, feed[|feed| - 1]);
    }
  }

  lemma StepConserves(s: Cached, next: Next, sz: Sizes, line: Line, dir: Direction, i: nat)
    requires HasId(line) && FullSize(s.line, sz) && Fits(line, sz)
    ensures WindowsCell(Step(s, next, sz, line).1, dir, i) + CellOf(Step(s, next, sz, line).0.line, dir, i)
         == CellOf(s.line, dir, i) + CellOf(line, dir, i)
  {
    if !(line.id.time < next(s.time)) {
      assert [Window(s.time, s.line)][..0] == [];
    }
  }

  lemma WindowsCellAppend(a: seq<Window>, b: seq<Window>, dir: Direction, i: nat)
    requires |b| <= 1
    ensures WindowsCell(a + b, dir, i) == WindowsCell(a, dir, i) + WindowsCell(b, dir, i)
  {
    if b == [] {
      assert a + b == a;
    } else {
      assert (a + b)[..|a|] == a && b[..0] == [];
    }
  }

  lemma {:induction false} RunConserves(s: Cached, next: Next, sz: Sizes, feed: seq<Line>, dir: Direction, i: nat)
    requires AllFit(feed, sz) && FullSize(s.line, sz)
    ensures WindowsCell(Emitted(s, next, sz, feed), dir, i) + CellOf(After(s, next, sz, feed).line, dir, i)
         == CellOf(s.line, dir, i) + LinesCell(feed, dir, i)
  {
    if feed != [] {
      var rest, last := feed[..|feed| - 1], feed[|feed| - 1];
      var t := After(s, next, sz, rest);
      RunConserves(s, next, sz, rest, dir, i);
      AfterFullSize(s, next, sz, rest);
      StepConserves(t, next, sz, last, dir, i);
      WindowsCellAppend(Emitted(s, next, sz, rest), Step(t, next, sz, last).1, dir, i);
    }
  }

  /** Conservation: whatever the times of the lines and the lengths of the windows, every cell of
      all windows together sums up to that cell of all lines. */
  lemma WindowsConserve(start: int, next: Next, sz: Sizes, feed: seq<Line>, dir: Direction, i: nat)
    requires AllFit(feed, sz)
    ensures WindowsCell(Windows(start, next, sz, feed), dir, i) == LinesCell(feed, dir, i)
  {
    var s := After(Opening(start, sz), next, sz, feed);
    RunConserves(Opening(start, sz), next, sz, feed, dir, i);
    WindowsCellAppend(Emitted(Opening(start, sz), next, sz, feed), [Window(s.time, s.line)], dir, i);
    assert [Window(s.time, s.line)][..0] == [];
  }

  // ---- Grouping by time -------------------------------------------------------------------

  /** The start of window k. */
  function Bound(start: int, next: Next, k: nat): int {
    if k == 0 then start else next(Bound(start, next, k - 1))
  }

  /** Windows of a quarter of an hour or more. */
  ghost predicate WideEnough(next: Next) {
    forall t: int :: t + QUARTER <= next(t)
  }

  predicate Inside(t: int, lo: int, hi: int) {
    lo <= t < hi
  }

  /** The times that a group collects. */
  type Span = int -> bool

  function Between(lo: int, hi: int): Span {
    t => Inside(t, lo, hi)
  }

  /** The sum of a cell over the lines of these times. */
  function GroupCell(feed: seq<Line>, p: Span, dir: Direction, i: nat): real
    requires WithIds(feed)
  {
    if feed == [] then 0.0
    else
      var last := feed[|feed| - 1];
      GroupCell(feed[..|feed| - 1], p, dir, i) + if p(last.id.time) then CellOf(last, dir, i) else 0.0
  }

  ghost predicate NoneIn(feed: seq<Line>, p: Span)
    requires WithIds(feed)
  {
    forall k | 0 <= k < |feed| :: !p(feed[k].id.time)
  }

  /** What adding a line joins to a mark: nothing behind its values, and zero where only the mark is
      missing. */
  function MarkAdded(l: Line, dir: Direction, i: nat): int {
    if i < |Values(l, dir)| then MarkOf(l, dir, i) else 1
  }

  /** The mark of a window: its lines are joined one by one, but a window that was opened by copying a
      line takes all marks of this line, with zero for the missing ones. */
  ghost function GroupMark(feed: seq<Line>, p: Span, copied: bool, dir: Direction, i: nat): int
    requires WithIds(feed)
  {
    if feed == [] then 1
    else
      var rest, last := feed[..|feed| - 1], feed[|feed| - 1];
      if !p(last.id.time) then GroupMark(rest, p, copied, dir, i)
      else if copied && NoneIn(rest, p) then MarkOf(last, dir, i)
      else CalcQoV(GroupMark(rest, p, copied, dir, i), MarkAdded(last, dir, i))
  }

  /** The plain join of a mark over the lines of these times. */
  function JoinedMark(feed: seq<Line>, p: Span, dir: Direction, i: nat): int
    requires WithIds(feed)
  {
    if feed == [] then 1
    else
      var last, rest := feed[|feed| - 1], JoinedMark(feed[..|feed| - 1], p, dir, i);
      if p(last.id.time) then CalcQoV(rest, MarkOf(last, dir, i)) else rest
  }

  /** The line holds the group of these times. */
  ghost predicate IsGroup(l: Line, feed: seq<Line>, p: Span, copied: bool, sz: Sizes)
    requires WithIds(feed)
  {
    forall dir, i: nat | i < Cells(sz, dir) ::
      CellOf(l, dir, i) == GroupCell(feed, p, dir, i) && MarkOf(l, dir, i) == GroupMark(feed, p, copied, dir, i)
  }

  /** Lines with a value for every cell. Marks may be missing. */
  ghost predicate AllFull(feed: seq<Line>, sz: Sizes) {
    WithIds(feed) &&
    forall i | 0 <= i < |feed| :: |feed[i].consumers| == sz.nCons * 3 && |feed[i].producers| == sz.nProd * 2
  }

  lemma {:induction false} EmptyGroup(feed: seq<Line>, p: Span, copied: bool, dir: Direction, i: nat)
    requires WithIds(feed) && NoneIn(feed, p)
    ensures GroupCell(feed, p, dir, i) == 0.0 && GroupMark(feed, p, copied, dir, i) == 1
    ensures JoinedMark(feed, p, dir, i) == 1
  {
    if feed != [] {
      EmptyGroup(feed[..|feed| - 1], p, copied, dir, i);
    }
  }

  /** For lines with all values the mark of a window is the plain join of the marks in it. */
  lemma {:induction false} FullLinesJoin(feed: seq<Line>, sz: Sizes, p: Span, copied: bool, dir: Direction, i: nat)
    requires AllFull(feed, sz) && i < Cells(sz, dir)
    ensures GroupMark(feed, p, copied, dir, i) == JoinedMark(feed, p, dir, i)
  {
    if feed != [] {
      var rest := feed[..|feed| - 1];
      FullLinesJoin(rest, sz, p, copied, dir, i);
      if NoneIn(rest, p) {
        EmptyGroup(rest, p, copied, dir, i);
      }
    }
  }

  /** Groups depend on which lines are collected only. */
  lemma {:induction false} SameGroup(feed: seq<Line>, p: Span, q: Span, copied: bool, dir: Direction, i: nat)
    requires WithIds(feed) && forall k | 0 <= k < |feed| :: p(feed[k].id.time) == q(feed[k].id.time)
    ensures GroupCell(feed, p, dir, i) == GroupCell(feed, q, dir, i)
    ensures GroupMark(feed, p, copied, dir, i) == GroupMark(feed, q, copied, dir, i)
  {
    if feed != [] {
      SameGroup(feed[..|feed| - 1], p, q, copied, dir, i);
      assert NoneIn(feed[..|feed| - 1], p) <==> NoneIn(feed[..|feed| - 1], q);
    }
  }

  // ---- One line and a group -----------------------------------------------------------------

  lemma JoinsGroup(l: Line, feed: seq<Line>, last: Line, p: Span, copied: bool, sz: Sizes)
    requires WithIds(feed) && HasId(last) && FullSize(l, sz) && Fits(last, sz)
    requires IsGroup(l, feed, p, copied, sz) && p(last.id.time) && (copied ==> !NoneIn(feed, p))
    ensures WithIds(feed + [last]) && IsGroup(Added(l, last), feed + [last], p, copied, sz)
  {
    assert (feed + [last])[..|feed|] == feed;
    forall dir, i: nat | i < Cells(sz, dir)
      ensures CellOf(Added(l, last), dir, i) == GroupCell(feed + [last], p, dir, i)
      ensures MarkOf(Added(l, last), dir, i) == GroupMark(feed + [last], p, copied, dir, i)
    {
      assert CellOf(l, dir, i) == GroupCell(feed, p, dir, i);
    }
  }

  lemma OpensGroup(feed: seq<Line>, last: Line, p: Span, sz: Sizes)
    requires WithIds(feed) && HasId(last) && Fits(last, sz) && p(last.id.time) && NoneIn(feed, p)
    ensures WithIds(feed + [last]) && IsGroup(DeepCopy(last, sz.nCons, sz.nProd), feed + [last], p, true, sz)
  {
    assert (feed + [last])[..|feed|] == feed;
    forall dir, i: nat | i < Cells(sz, dir)
      ensures CellOf(DeepCopy(last, sz.nCons, sz.nProd), dir, i) == GroupCell(feed + [last], p, dir, i)
      ensures MarkOf(DeepCopy(last, sz.nCons, sz.nProd), dir, i) == GroupMark(feed + [last], p, true, dir, i)
    {
      EmptyGroup(feed, p, true, dir, i);
    }
  }

  lemma KeepsGroup(l: Line, feed: seq<Line>, last: Line, p: Span, copied: bool, sz: Sizes)
    requires WithIds(feed) && HasId(last) && IsGroup(l, feed, p, copied, sz) && !p(last.id.time)
    ensures WithIds(feed + [last]) && IsGroup(l, feed + [last], p, copied, sz)
  {
    assert (feed + [last])[..|feed|] == feed;
    forall dir, i: nat | i < Cells(sz, dir)
      ensures CellOf(l, dir, i) == GroupCell(feed + [last], p, dir, i)
      ensures MarkOf(l, dir, i) == GroupMark(feed + [last], p, copied, dir, i)
    {
      assert CellOf(l, dir, i) == GroupCell(feed, p, dir, i);
    }
  }
}
