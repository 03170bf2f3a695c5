/** Moving a consumer meter to the producers: its cells are cut out of every row, its first two
    values reappear as a producer, and the metadata is numbered anew. */
module MeterMove {
  import opened Numbers
  import opened SourceLines
  import opened MeterMetadata

  /** The slice without the cells from `from` up to `until`. */
  function Cut<T(!new)>(s: seq<T>, from: nat, until: nat): (r: seq<T>)
    requires from <= |s| && from <= until <= |s|
    ensures |r| == |s| - (until - from)
    ensures forall i: nat, zero: T :: At(r, i, zero) == At(s, if i < from then i else i + (until - from), zero)
  {
    s[..from] + s[until..]
  }

  /** Where the quality marks are cut: the bound is taken from the consumers that are already cut. */
  function MarksUntil(size: nat, s: nat): (u: nat)
    requires 3 * s + 2 <= size
    ensures 3 * s <= u <= 3 * s + 3 && u <= size
    ensures u == 3 * s + 3 <==> size >= 3 * s + 6
  {
    Min(3 * s + 3, size - (Min(3 * s + 3, size) - 3 * s))
  }

  /** What the row becomes. */
  function MovedLine(line: Line, s: nat, t: nat): (r: Line)
    requires 3 * s + 2 <= |line.consumers| && 3 * s + 2 <= |line.qovConsumers|
  {
    var l := Copy(line);
    Line(l.id,
         Cut(l.consumers, 3 * s, Min(3 * s + 3, |l.consumers|)),
         Insert(Insert(l.producers, 2 * t, line.consumers[3 * s], 0.0), 2 * t + 1, line.consumers[3 * s + 1], 0.0),
         Cut(l.qovConsumers, 3 * s, MarksUntil(|l.consumers|, s)),
         Insert(Insert(l.qovProducers, 2 * t, line.qovConsumers[3 * s], 0), 2 * t + 1, line.qovConsumers[3 * s + 1], 0))
  }

  /** The first two cells and marks of the moved meter must be stored. */
  method MoveToProducer(line: Line, sourceIdx: nat, targetIdx: nat) returns (target: Line)
    requires 3 * sourceIdx + 2 <= |line.consumers| && 3 * sourceIdx + 2 <= |line.qovConsumers|
    ensures target == MovedLine(line, sourceIdx, targetIdx)
  {
    target := Copy(line);
    var s, t := sourceIdx * 3, targetIdx * 2;
    target := target.(producers := Insert(target.producers, t, line.consumers[s], 0.0));
    target := target.(producers := Insert(target.producers, t + 1, line.consumers[s + 1], 0.0));
    var until := MinOf([s + 3, |target.consumers|]);
    assert until == Min(s + 3, |target.consumers|) by { TwoMin(s + 3, |target.consumers|, until); }
    target := target.(consumers := target.consumers[..s] + target.consumers[until..]);
    target := target.(qovProducers := Insert(target.qovProducers, t, line.qovConsumers[s], 0));
    target := target.(qovProducers := Insert(target.qovProducers, t + 1, line.qovConsumers[s + 1], 0));
    until := MinOf([s + 3, |target.consumers|]);
    assert until == Min(s + 3, |target.consumers|) by { TwoMin(s + 3, |target.consumers|, until); }
    target := target.(qovConsumers := target.qovConsumers[..s] + target.qovConsumers[until..]);
  }

  lemma TwoMin(a: nat, b: nat, m: int)
    requires m in [a, b] && forall v | v in [a, b] :: m <= v
    ensures m == Min(a, b)
  {
    assert [a, b][0] == a && [a, b][1] == b;
    assert a in [a, b] && b in [a, b];
  }

  // ---- Rows -----------------------------------------------------------------------------

  predicate Movable(line: Line, s: nat) {
    3 * s + 2 <= |line.consumers| && 3 * s + 2 <= |line.qovConsumers|
  }

  /** The cell of a meter. */
  function Reading(line: Line, dir: Direction, idx: nat, k: nat): real {
    At(Values(line, dir), FirstOf(dir, idx) + k, 0.0)
  }

  function Mark(line: Line, dir: Direction, idx: nat, k: nat): int {
    At(Qualities(line, dir), FirstOf(dir, idx) + k, 0)
  }

  /** Index u of the other consumers finds its cells one meter further down. */
  function Closed(u: nat, s: nat): nat {
    if u > s then u - 1 else u
  }

  lemma ConsumersClose(line: Line, s: nat, t: nat, u: nat, k: nat)
    requires Movable(line, s) && u != s && k < 3
    ensures Reading(MovedLine(line, s, t), Consumer, Closed(u, s), k) == Reading(line, Consumer, u, k)
  {
    var until := Min(3 * s + 3, |line.consumers|);
    var cut := Cut(line.consumers, 3 * s, until);
    assert cut == MovedLine(line, s, t).consumers;
    assert At(cut, Closed(u, s) * 3 + k, 0.0) == At(line.consumers, u * 3 + k, 0.0);
  }

  lemma InsertTwo<T(!new)>(s: seq<T>, at: nat, a: T, b: T, zero: T)
    ensures var r := Insert(Insert(s, at, a, zero), at + 1, b, zero);
      At(r, at, zero) == a && At(r, at + 1, zero) == b
  {
  }

  /** The moved meter's first two values and marks are what the new producer reads. */
  lemma ProducerReads(line: Line, s: nat, t: nat, k: nat)
    requires Movable(line, s) && k < 2
    ensures Reading(MovedLine(line, s, t), Producer, t, k) == Reading(line, Consumer, s, k)
    ensures Mark(MovedLine(line, s, t), Producer, t, k) == Mark(line, Consumer, s, k)
  {
    var l := Copy(line);
    InsertTwo(l.producers, 2 * t, line.consumers[3 * s], line.consumers[3 * s + 1], 0.0);
    InsertTwo(l.qovProducers, 2 * t, line.qovConsumers[3 * s], line.qovConsumers[3 * s + 1], 0);
  }

  lemma ProducersStay(line: Line, s: nat, t: nat, v: nat, k: nat)
    requires Movable(line, s) && v != t && k < 2
    ensures Reading(MovedLine(line, s, t), Producer, v, k) == Reading(line, Producer, v, k)
    ensures Covered(line) ==> Mark(MovedLine(line, s, t), Producer, v, k) == Mark(line, Producer, v, k)
  {
    CopyKeepsCells(line, Producer, v * 2 + k);
    assert v * 2 + k != t * 2 && v * 2 + k != t * 2 + 1;
  }

  /** Quality marks before the moved meter stay; the ones behind it close up only in rows that hold
      another whole meter behind it. */
  lemma MarksClose(line: Line, s: nat, t: nat, u: nat, k: nat)
    requires Movable(line, s) && Covered(line) && u != s && k < 3
    requires u < s || |line.consumers| >= 3 * s + 6
    ensures Mark(MovedLine(line, s, t), Consumer, Closed(u, s), k) == Mark(line, Consumer, u, k)
  {
    CopyKeepsCells(line, Consumer, u * 3 + k);
    var marks := Copy(line).qovConsumers;
    var cut := Cut(marks, 3 * s, MarksUntil(|line.consumers|, s));
    assert cut == MovedLine(line, s, t).qovConsumers;
    assert At(cut, Closed(u, s) * 3 + k, 0) == At(marks, u * 3 + k, 0);
  }

  /** A row of the given size with one mark set. */
  function MarkedLine(size: nat, at: nat): (l: Line)
    requires at < size
    ensures Covered(l) && |l.consumers| == |l.qovConsumers| == size
    ensures forall i: nat :: At(l.qovConsumers, i, 0) == if i == at then 1 else 0
  {
    Line(NoRow, Fill(size, 0.0), [], Fill(size, 0)[at := 1], [])
  }

  /** In a shorter row a mark moves to the wrong cell of the next meter. */
  lemma MarksSlip(size: nat, s: nat, t: nat)
    requires 3 * s + 2 <= size < 3 * s + 6
    ensures var line := MarkedLine(size, MarksUntil(size, s));
      && Movable(line, s)
      && Mark(MovedLine(line, s, t), Consumer, s, 0) == 1
      && Mark(line, Consumer, s + 1, 0) == 0
  {
    var at := MarksUntil(size, s);
    var line := MarkedLine(size, at);
    var cut := Cut(Copy(line).qovConsumers, 3 * s, at);
    assert cut == MovedLine(line, s, t).qovConsumers;
    assert At(cut, 3 * s, 0) == At(line.qovConsumers, at, 0);
  }

  /** In a row of the first meter alone no other meter has a mark, before and after. */
  lemma ShortMarks(line: Line, t: nat, u: nat, k: nat)
    requires Movable(line, 0) && Covered(line) && |line.consumers| <= 3 && u > 0 && k < 3
    ensures Mark(MovedLine(line, 0, t), Consumer, u, k) == Mark(line, Consumer, u, k) == 0
  {
    assert At(Qualities(line, Consumer), u * 3 + k, 0) == 0;
  }

  /** In a longer row the mark of the second meter is lost when the first is moved. */
  lemma FirstMarkSlips(size: nat, t: nat)
    requires size >= 4
    ensures var line := MarkedLine(size, 3);
      && Movable(line, 0)
      && Mark(MovedLine(line, 0, t), Consumer, 1, 0) == 0
      && Mark(line, Consumer, 1, 0) == 1
  {
    var line, until := MarkedLine(size, 3), MarksUntil(size, 0);
    var cut := Cut(Copy(line).qovConsumers, 0, until);
    assert cut == MovedLine(line, 0, t).qovConsumers;
    assert At(cut, 3, 0) == At(Copy(line).qovConsumers, 3 + until, 0);
  }

  // ---- Coverage -------------------------------------------------------------------------

  /** The number of marks that are cut. */
  function MarksCut(size: nat, s: nat): nat
    requires 3 * s + 2 <= size
  {
    MarksUntil(size, s) - 3 * s
  }

  /** The number of values that are cut. */
  function ValuesCut(size: nat, s: nat): nat
    requires 3 * s + 2 <= size
  {
    Min(3 * s + 3, size) - 3 * s
  }

  /** The marks that lie behind the remaining values when fewer marks than values are cut. */
  predicate LeftBehind(line: Line, s: nat, i: nat)
    requires 3 * s + 2 <= |line.consumers|
  {
    |line.consumers| - ValuesCut(|line.consumers|, s) + MarksCut(|line.consumers|, s) <= i < |line.consumers|
  }

  lemma ConsumersCovered(line: Line, s: nat, t: nat, i: nat)
    requires Movable(line, s) && Covered(line) && i >= |line.consumers| - ValuesCut(|line.consumers|, s)
    ensures At(MovedLine(line, s, t).qovConsumers, i, 0) ==
            At(line.qovConsumers, i + MarksCut(|line.consumers|, s), 0)
  {
    var c := MarksCut(|line.consumers|, s);
    var cut := Cut(Copy(line).qovConsumers, 3 * s, MarksUntil(|line.consumers|, s));
    assert cut == MovedLine(line, s, t).qovConsumers;
    assert At(cut, i, 0) == At(Copy(line).qovConsumers, i + c, 0);
    CopyKeepsCells(line, Consumer, i + c);
  }

  lemma ProducersCovered(line: Line, s: nat, t: nat, i: nat)
    requires Movable(line, s) && Covered(line) && i >= |MovedLine(line, s, t).producers|
    ensures At(MovedLine(line, s, t).qovProducers, i, 0) == 0
  {
    CopyKeepsCells(line, Producer, i);
  }

  /** A moved row keeps its marks inside its values exactly when no mark is left behind them. */
  lemma MoveKeepsCoverage(line: Line, s: nat, t: nat)
    requires Movable(line, s) && Covered(line)
    ensures Covered(MovedLine(line, s, t)) <==> forall i: nat | LeftBehind(line, s, i) ::
      At(line.qovConsumers, i, 0) == 0
  {
    var after, size := MovedLine(line, s, t), |line.consumers|;
    var c := MarksCut(size, s);
    assert |after.consumers| == size - ValuesCut(size, s);
    if forall i: nat | LeftBehind(line, s, i) :: At(line.qovConsumers, i, 0) == 0 {
      forall dir, i: nat | |Values(after, dir)| <= i ensures At(Qualities(after, dir), i, 0) == 0 {
        if dir.Consumer? {
          ConsumersCovered(line, s, t, i);
          assert i + c < size ==> LeftBehind(line, s, i + c);
          assert i + c >= size ==> At(Qualities(line, Consumer), i + c, 0) == 0;
        } else {
          ProducersCovered(line, s, t, i);
        }
      }
    } else {
      var i: nat :| LeftBehind(line, s, i) && At(line.qovConsumers, i, 0) != 0;
      ConsumersCovered(line, s, t, i - c);
      assert At(Qualities(after, Consumer), i - c, 0) != 0;
    }
  }

  /** So rows of a size keep it, whatever their marks, exactly when they hold another whole meter behind
      the moved one. */
  lemma CoverageKeptExactly(s: nat, t: nat, size: nat)
    requires size >= 3 * s + 2
    ensures (forall line | Movable(line, s) && Covered(line) && |line.consumers| == size ::
      Covered(MovedLine(line, s, t)))
       <==> size >= 3 * s + 6
  {
    if size >= 3 * s + 6 {
      forall line | Movable(line, s) && Covered(line) && |line.consumers| == size
        ensures Covered(MovedLine(line, s, t))
      {
        MoveKeepsCoverage(line, s, t);
      }
    } else {
      var line := MarkedLine(size, size - 1);
      MoveKeepsCoverage(line, s, t);
      assert LeftBehind(line, s, size - 1) && At(line.qovConsumers, size - 1, 0) == 1;
    }
  }

  // ---- Rows and metadata together -------------------------------------------------------

  /** Metadata with dense indices and distinct names, in which consumer x is moved. */
  ghost predicate Ready(meta: seq<Entry>, x: nat) {
    AllDense(meta) && x < |meta| && meta[x].dir.Consumer?
  }

  /** Everyone else reads the moved row through the new metadata as before. */
  ghost predicate OthersRead(meta: seq<Entry>, x: nat, r: seq<Entry>, line: Line, after: Line)
    requires |r| == |meta|
  {
    forall j, k: nat | 0 <= j < |meta| && j != x && k < Width(meta[j].dir) ::
      Reading(after, r[j].dir, r[j].sourceIdx, k) == Reading(line, meta[j].dir, meta[j].sourceIdx, k)
  }

  /** Everyone else reads the quality marks of the moved row as before. */
  ghost predicate OthersMarked(meta: seq<Entry>, x: nat, r: seq<Entry>, line: Line, after: Line)
    requires |r| == |meta|
  {
    forall j, k: nat | 0 <= j < |meta| && j != x && k < Width(meta[j].dir) ::
      Mark(after, r[j].dir, r[j].sourceIdx, k) == Mark(line, meta[j].dir, meta[j].sourceIdx, k)
  }

  predicate OnlyConsumer(meta: seq<Entry>, x: nat) {
    forall j | 0 <= j < |meta| && j != x :: meta[j].dir.Producer?
  }

  /** What moving meter x does to every entry. */
  ghost predicate Shifts(meta: seq<Entry>, x: nat, m: nat, r: seq<Entry>) {
    && x < |meta| == |r|
    && (forall j | 0 <= j < |meta| :: r[j] == Renamed(meta[j], meta[x].dir, meta[x].sourceIdx, m, j == x))
    && (forall j | 0 <= j < |meta| && j != x ::
         meta[j].sourceIdx != if meta[j].dir == meta[x].dir then meta[x].sourceIdx else m)
  }

  lemma MoveShifts(meta: seq<Entry>, x: nat, m: nat, r: seq<Entry>)
    requires AllDense(meta) && x < |meta| && Moved(meta, x, m, r)
    ensures Shifts(meta, x, m, r)
  {
    forall j: nat | j < |meta|
      ensures |r| == |meta| && r[j] == Renamed(meta[j], meta[x].dir, meta[x].sourceIdx, m, j == x)
      ensures j != x ==> meta[j].sourceIdx != if meta[j].dir == meta[x].dir then meta[x].sourceIdx else m
    {
      MovedIndices(meta, x, m, r, j);
      DenseBothWays(meta, meta[x].dir);
      assert j < x || x <= j;
    }
  }

  lemma OtherReads(e: Entry, s: nat, m: nat, line: Line, k: nat)
    requires Movable(line, s) && e.sourceIdx != (if e.dir.Consumer? then s else m) && k < Width(e.dir)
    requires s > 0 || e.dir.Producer?
    ensures Reading(MovedLine(line, s, m), e.dir, Renamed(e, Consumer, s, m, false).sourceIdx, k) ==
      Reading(line, e.dir, e.sourceIdx, k)
  {
    if e.dir.Consumer? {
      ConsumersClose(line, s, m, e.sourceIdx, k);
    } else {
      ProducersStay(line, s, m, e.sourceIdx, k);
    }
  }

  /** Moving a meter that is not the first consumer changes no other reading. */
  lemma MoveKeepsOthers(meta: seq<Entry>, x: nat, m: nat, r: seq<Entry>, line: Line)
    requires Shifts(meta, x, m, r) && meta[x].dir.Consumer? && Movable(line, meta[x].sourceIdx)
    requires meta[x].sourceIdx > 0 || OnlyConsumer(meta, x)
    ensures OthersRead(meta, x, r, line, MovedLine(line, meta[x].sourceIdx, m))
  {
    forall j, k: nat | 0 <= j < |meta| && j != x && k < Width(meta[j].dir)
      ensures Reading(MovedLine(line, meta[x].sourceIdx, m), r[j].dir, r[j].sourceIdx, k) ==
              Reading(line, meta[j].dir, meta[j].sourceIdx, k)
    {
      OtherReads(meta[j], meta[x].sourceIdx, m, line, k);
    }
  }

  /** The moved meter reads its first two values at its new index, with their marks. */
  lemma MovedMeterReads(meta: seq<Entry>, x: nat, m: nat, r: seq<Entry>, line: Line, k: nat)
    requires Ready(meta, x) && Moved(meta, x, m, r) && Movable(line, meta[x].sourceIdx) && k < 2
    ensures |r| == |meta| && r[x] == Entry(meta[x].name, Producer, m)
    ensures var after := MovedLine(line, meta[x].sourceIdx, m);
      && Reading(after, Producer, r[x].sourceIdx, k) == Reading(line, Consumer, meta[x].sourceIdx, k)
      && Mark(after, Producer, r[x].sourceIdx, k) == Mark(line, Consumer, meta[x].sourceIdx, k)
  {
    MovedIndices(meta, x, m, r, x);
    ProducerReads(line, meta[x].sourceIdx, m, k);
  }

  /** A row of the given size with one value set. */
  function ValuedLine(size: nat, at: nat): (l: Line)
    requires at < size
    ensures |l.consumers| == |l.qovConsumers| == size
    ensures forall i: nat :: At(l.consumers, i, 0.0) == if i == at then 1.0 else 0.0
  {
    Line(NoRow, Fill(size, 0.0)[at := 1.0], [], Fill(size, 0), [])
  }

  /** The first consumer's cells are cut, but the others keep their indices: each reads its neighbour. */
  lemma FirstSlips(u: nat, t: nat)
    requires u > 0
    ensures var line := ValuedLine(3 * u + 3, 3 * u);
      && Movable(line, 0)
      && Reading(line, Consumer, u, 0) == 1.0
      && Reading(MovedLine(line, 0, t), Consumer, u, 0) == 0.0
  {
    var line := ValuedLine(3 * u + 3, 3 * u);
    var cut := Cut(line.consumers, 0, 3);
    assert cut == MovedLine(line, 0, t).consumers;
    assert At(cut, u * 3, 0.0) == At(line.consumers, u * 3 + 3, 0.0);
  }

  /** A consumer behind a moved first one misreads some row. */
  lemma FirstMisread(meta: seq<Entry>, x: nat, m: nat, r: seq<Entry>, j: nat) returns (line: Line)
    requires Shifts(meta, x, m, r) && meta[x].dir.Consumer? && j < |meta| && j != x && meta[j].dir.Consumer? &&
      meta[x].sourceIdx == 0
    ensures Movable(line, 0) && !OthersRead(meta, x, r, line, MovedLine(line, 0, m))
  {
    var u := meta[j].sourceIdx;
    line := ValuedLine(3 * u + 3, 3 * u);
    FirstSlips(u, m);
    assert r[j] == meta[j];
    assert Reading(MovedLine(line, 0, m), r[j].dir, r[j].sourceIdx, 0) != Reading(line, meta[j].dir, u, 0);
  }

  /** Every row in which the moved meter is stored is read rightly by all others afterwards. */
  ghost predicate KeepsReadings(meta: seq<Entry>, x: nat, m: nat, r: seq<Entry>)
    requires x < |meta| == |r|
  {
    forall line | Movable(line, meta[x].sourceIdx) ::
      OthersRead(meta, x, r, line, MovedLine(line, meta[x].sourceIdx, m))
  }

  /** Moving a consumer keeps every other meter's readings in every row exactly when it is not the
      first consumer, or the only one. */
  lemma MoveKeepsOthersExactly(meta: seq<Entry>, x: nat, m: nat, r: seq<Entry>)
    requires Ready(meta, x) && Moved(meta, x, m, r) && |r| == |meta|
    ensures KeepsReadings(meta, x, m, r) <==> meta[x].sourceIdx > 0 || OnlyConsumer(meta, x)
  {
    MoveShifts(meta, x, m, r);
    if meta[x].sourceIdx > 0 || OnlyConsumer(meta, x) {
      forall line | Movable(line, meta[x].sourceIdx)
        ensures OthersRead(meta, x, r, line, MovedLine(line, meta[x].sourceIdx, m))
      {
        MoveKeepsOthers(meta, x, m, r, line);
      }
    } else {
      var j: nat :| j < |meta| && j != x && meta[j].dir.Consumer?;
      var line := FirstMisread(meta, x, m, r, j);
    }
  }

  /** The sizes of rows in which every other meter keeps its marks: another whole meter lies behind the
      moved one, and when the first meter is moved, whose followers keep their indices, no meter. */
  predicate KeepsSize(s: nat, size: nat) {
    if s == 0 then size <= 3 else size >= 3 * s + 6
  }

  lemma OtherMarks(e: Entry, s: nat, m: nat, line: Line, k: nat)
    requires Movable(line, s) && Covered(line) && e.sourceIdx != (if e.dir.Consumer? then s else m) && k < Width(e.dir)
    requires e.dir.Producer? || e.sourceIdx < s || KeepsSize(s, |line.consumers|)
    ensures Mark(MovedLine(line, s, m), e.dir, Renamed(e, Consumer, s, m, false).sourceIdx, k) ==
      Mark(line, e.dir, e.sourceIdx, k)
  {
    if e.dir.Consumer? {
      if s > 0 {
        MarksClose(line, s, m, e.sourceIdx, k);
      } else {
        ShortMarks(line, m, e.sourceIdx, k);
      }
    } else {
      ProducersStay(line, s, m, e.sourceIdx, k);
    }
  }

  /** No meter of its direction stands behind it. */
  predicate LastOfItsKind(meta: seq<Entry>, x: nat)
    requires x < |meta|
  {
    forall j | 0 <= j < |meta| && meta[j].dir == meta[x].dir :: meta[j].sourceIdx <= meta[x].sourceIdx
  }

  /** With dense indices a meter that is not the last has a next one. */
  lemma NextOfItsKind(meta: seq<Entry>, x: nat) returns (j: nat)
    requires AllDense(meta) && x < |meta| && !LastOfItsKind(meta, x)
    ensures j < |meta| && meta[j].dir == meta[x].dir && meta[j].sourceIdx == meta[x].sourceIdx + 1
  {
    DenseBothWays(meta, meta[x].dir);
    j := DenseHas(meta, meta[x].dir, meta[x].sourceIdx + 1);
  }

  /** Moving keeps all other quality marks of rows of such a size. */
  lemma MoveKeepsMarks(meta: seq<Entry>, x: nat, m: nat, r: seq<Entry>, line: Line)
    requires Shifts(meta, x, m, r) && meta[x].dir.Consumer? && Movable(line, meta[x].sourceIdx) && Covered(line)
    requires KeepsSize(meta[x].sourceIdx, |line.consumers|) || LastOfItsKind(meta, x)
    ensures OthersMarked(meta, x, r, line, MovedLine(line, meta[x].sourceIdx, m))
  {
    forall j, k: nat | 0 <= j < |meta| && j != x && k < Width(meta[j].dir)
      ensures Mark(MovedLine(line, meta[x].sourceIdx, m), r[j].dir, r[j].sourceIdx, k) ==
              Mark(line, meta[j].dir, meta[j].sourceIdx, k)
    {
      OtherMarks(meta[j], meta[x].sourceIdx, m, line, k);
    }
  }

  /** The consumer behind the moved one misreads the marks of some row of any other size. */
  lemma NextMisread(meta: seq<Entry>, x: nat, m: nat, r: seq<Entry>, size: nat, j: nat) returns (line: Line)
    requires Shifts(meta, x, m, r) && meta[x].dir.Consumer? && j < |meta| && meta[j].dir.Consumer?
    requires meta[j].sourceIdx == meta[x].sourceIdx + 1
    requires 3 * meta[x].sourceIdx + 2 <= size && !KeepsSize(meta[x].sourceIdx, size)
    ensures Movable(line, meta[x].sourceIdx) && Covered(line) && |line.consumers| == size
    ensures !OthersMarked(meta, x, r, line, MovedLine(line, meta[x].sourceIdx, m))
  {
    var s := meta[x].sourceIdx;
    if s == 0 {
      line := MarkedLine(size, 3);
      FirstMarkSlips(size, m);
    } else {
      line := MarkedLine(size, MarksUntil(size, s));
      MarksSlip(size, s, m);
    }
    assert Mark(MovedLine(line, s, m), r[j].dir, r[j].sourceIdx, 0) != Mark(line, meta[j].dir, s + 1, 0);
  }

  /** Every covered row of this size keeps the quality marks of all others. */
  ghost predicate KeepsMarks(meta: seq<Entry>, x: nat, m: nat, r: seq<Entry>, size: nat)
    requires x < |meta| == |r|
  {
    forall line | Movable(line, meta[x].sourceIdx) && Covered(line) && |line.consumers| == size ::
      OthersMarked(meta, x, r, line, MovedLine(line, meta[x].sourceIdx, m))
  }

  /** Quality marks survive, whatever they are, exactly when the moved meter is the last consumer, or in
      rows that hold another whole meter behind it; when it is the first one, in rows that hold no other
      meter. */
  lemma MoveKeepsMarksExactly(meta: seq<Entry>, x: nat, m: nat, r: seq<Entry>, size: nat)
    requires Ready(meta, x) && Moved(meta, x, m, r) && |r| == |meta|
    requires size >= 3 * meta[x].sourceIdx + 2
    ensures KeepsMarks(meta, x, m, r, size) <==> KeepsSize(meta[x].sourceIdx, size) || LastOfItsKind(meta, x)
  {
    MoveShifts(meta, x, m, r);
    if KeepsSize(meta[x].sourceIdx, size) || LastOfItsKind(meta, x) {
      forall line | Movable(line, meta[x].sourceIdx) && Covered(line) && |line.consumers| == size
        ensures OthersMarked(meta, x, r, line, MovedLine(line, meta[x].sourceIdx, m))
      {
        MoveKeepsMarks(meta, x, m, r, line);
      }
    } else {
      var j := NextOfItsKind(meta, x);
      var line := NextMisread(meta, x, m, r, size, j);
    }
  }

  /** Rows that stay as they are, are read through the new metadata as before. */
  ghost predicate OldRowsRead(meta: seq<Entry>, x: nat, r: seq<Entry>)
    requires |r| == |meta|
  {
    forall line :: OthersRead(meta, x, r, line, line)
  }

  /** A row of one direction with one value set. */
  function LineWith(dir: Direction, size: nat, at: nat): (l: Line)
    requires at < size
    ensures forall i: nat :: At(Values(l, dir), i, 0.0) == if i == at then 1.0 else 0.0
  {
    var values := Fill(size, 0.0)[at := 1.0];
    if dir.Consumer? then Line(NoRow, values, [], [], []) else Line(NoRow, [], values, [], [])
  }

  lemma CellsApart(dir: Direction, s: nat)
    ensures FirstOf(dir, s) < FirstOf(dir, s + 1)
  {
  }

  /** The meter behind the moved one reads its neighbour in the old rows. */
  lemma OldRowMisread(meta: seq<Entry>, x: nat, m: nat, r: seq<Entry>, j: nat)
    requires Shifts(meta, x, m, r) && j < |meta| && meta[j].dir == meta[x].dir
    requires 0 < meta[x].sourceIdx && meta[j].sourceIdx == meta[x].sourceIdx + 1
    ensures !OldRowsRead(meta, x, r)
  {
    var dir, s := meta[x].dir, meta[x].sourceIdx;
    CellsApart(dir, s);
    var line := LineWith(dir, FirstOf(dir, s + 1) + 1, FirstOf(dir, s + 1));
    assert Reading(line, r[j].dir, r[j].sourceIdx, 0) != Reading(line, meta[j].dir, s + 1, 0);
    assert !OthersRead(meta, x, r, line, line);
  }

  lemma SameEntriesReadAlike(meta: seq<Entry>, x: nat, r: seq<Entry>)
    requires |r| == |meta| && forall j | 0 <= j < |meta| && j != x :: r[j] == meta[j]
    ensures OldRowsRead(meta, x, r)
  {
  }

  /** Only the rows of a consumer's period are rewritten, and no row of a producer. The rows that stay
      as they are, are read rightly by all other meters through the new metadata exactly when the moved
      meter was the first or the last of its direction. */
  lemma UnmovedRowsExactly(meta: seq<Entry>, x: nat, m: nat, r: seq<Entry>)
    requires AllDense(meta) && x < |meta| && Moved(meta, x, m, r) && |r| == |meta|
    ensures OldRowsRead(meta, x, r) <==> meta[x].sourceIdx == 0 || LastOfItsKind(meta, x)
  {
    MoveShifts(meta, x, m, r);
    if meta[x].sourceIdx == 0 || LastOfItsKind(meta, x) {
      SameEntriesReadAlike(meta, x, r);
    } else {
      var j := NextOfItsKind(meta, x);
      OldRowMisread(meta, x, m, r, j);
    }
  }

  /** A moved producer reads zeros in every row that is not longer than the consumers before the move:
      its values stay behind in its old cells. */
  lemma MovedProducerIsEmpty(meta: seq<Entry>, x: nat, m: nat, r: seq<Entry>, line: Line, k: nat)
    requires AllDense(meta) && x < |meta| && meta[x].dir.Producer? && Moved(meta, x, m, r)
    requires |line.consumers| <= 3 * m
    ensures |r| == |meta| && r[x] == Entry(meta[x].name, Consumer, m)
    ensures Reading(line, Consumer, r[x].sourceIdx, k) == 0.0
  {
    MovedIndices(meta, x, m, r, x);
  }

  // ---- The command ----------------------------------------------------------------------

  /** The first entry with the name. */
  method GetMetaOf(meta: seq<Entry>, meter: string) returns (found: bool, x: nat)
    ensures found <==> exists k :: 0 <= k < |meta| && meta[k].name == meter
    ensures found ==> x < |meta| && meta[x].name == meter && forall k | 0 <= k < x :: meta[k].name != meter
  {
    for n := 0 to |meta|
      invariant forall k | 0 <= k < n :: meta[k].name != meter
    {
      if meta[n].name == meter {
        return true, n;
      }
    }
    return false, 0;
  }

  predicate AllMovable(lines: seq<Line>, s: nat) {
    forall i | 0 <= i < |lines| :: Movable(lines[i], s)
  }

  /** Lines are the rows of the meter's period. A consumer's rows are rewritten; for a producer only
      the metadata changes. */
  method HandleMove(lines: seq<Line>, meta: seq<Entry>, meter: string)
    returns (ok: bool, x: nat, cache: seq<Line>, r: seq<Entry>)
    requires forall k | 0 <= k < |meta| && meta[k].name == meter && meta[k].dir.Consumer? ::
      AllMovable(lines, meta[k].sourceIdx)
    ensures ok <==> exists k :: 0 <= k < |meta| && meta[k].name == meter
    ensures !ok ==> cache == [] && r == meta
    ensures ok ==> x < |meta| && meta[x].name == meter && |r| == |meta|
    ensures ok && meta[x].dir.Consumer? ==>
      && Moved(meta, x, NextIdx(meta, Producer), r) && |cache| == |lines| && AllMovable(lines, meta[x].sourceIdx)
      && forall i | 0 <= i < |lines| :: cache[i] == MovedLine(lines[i], meta[x].sourceIdx, NextIdx(meta, Producer))
    ensures ok && meta[x].dir.Producer? ==> cache == [] && Moved(meta, x, NextIdx(meta, Consumer), r)
  {
    cache, r := [], meta;
    ok, x := GetMetaOf(meta, meter);
    if !ok {
      return;
    }
    var dir := Other(meta[x].dir);
    var target := NextIdx(meta, dir);
    if meta[x].dir.Consumer? {
      for i := 0 to |lines|
        invariant |cache| == i
        invariant forall j | 0 <= j < i :: cache[j] == MovedLine(lines[j], meta[x].sourceIdx, target)
      {
        var line := MoveToProducer(lines[i], meta[x].sourceIdx, target);
        cache := cache + [line];
      }
    }
    r := UpdateMeta(meta, meter, dir, target);
  }
}
