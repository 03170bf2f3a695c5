/** The loops that read stored rows in order and hand a zero row to their consumer for every missing
    quarter of an hour. */
module GapFill {
  import opened Numbers
  import opened SourceLines

  const QUARTER: int := 900

  datatype Previous = NoTime | At(time: int)

  predicate HasId(l: Line) {
    l.id.Row?
  }

  predicate WithIds(rows: seq<Line>) {
    forall i | 0 <= i < |rows| :: HasId(rows[i])
  }

  /** The time of a row as these loops read it: the seconds of the id are dropped. */
  function MinuteOf(l: Line): int
    requires HasId(l)
  {
    l.id.time - l.id.time % 60
  }

  predicate CheckTime(pt: Previous, t: int) {
    pt.NoTime? || pt.time + QUARTER == t
  }

  /** The row handed over for a missing time: full size, all values and qualities zero. */
  function FillLine(time: int, nCons: nat, nProd: nat): Line {
    Copy(MakeLine(Row(time), nCons * 3, nProd * 2))
  }

  /** The n fill rows behind time pt, printed `shift` seconds later than they are meant. */
  function FillLines(pt: int, n: nat, shift: int, nCons: nat, nProd: nat): (f: seq<Line>)
    ensures |f| == n
    ensures forall i | 0 <= i < n :: f[i] == FillLine(pt + QUARTER * (i + 1) + shift, nCons, nProd)
  {
    seq(n, i => FillLine(pt + QUARTER * (i + 1) + shift, nCons, nProd))
  }

  function MissingCount(pt: Previous, t: int): nat {
    if CheckTime(pt, t) then 0
    else
      var diff := TruncDiv(t - pt.time, QUARTER) - 1;
      if diff > 0 then diff else 0
  }

  function LastTime(rows: seq<Line>): Previous
    requires WithIds(rows)
  {
    if rows == [] then NoTime else At(MinuteOf(rows[|rows| - 1]))
  }

  /** Everything the consumer is given for the rows. */
  function Fed(rows: seq<Line>, shift: int, nCons: nat, nProd: nat): (f: seq<Line>)
    requires WithIds(rows)
    ensures WithIds(f)
  {
    if rows == [] then []
    else
      var rest, last := rows[..|rows| - 1], rows[|rows| - 1];
      var pt := LastTime(rest);
      Fed(rest, shift, nCons, nProd)
      + (if pt.NoTime? then [] else FillLines(pt.time, MissingCount(pt, MinuteOf(last)), shift, nCons, nProd))
      + [last]
  }

  /** One more row: its predecessors' feed, the fill rows and the row. */
  lemma FedNext(rows: seq<Line>, k: nat, shift: int, nCons: nat, nProd: nat)
    requires WithIds(rows) && k < |rows|
    ensures var pt := LastTime(rows[..k]);
      Fed(rows[..k + 1], shift, nCons, nProd) == Fed(rows[..k], shift, nCons, nProd) +
        (if pt.NoTime? then [] else FillLines(pt.time, MissingCount(pt, MinuteOf(rows[k])), shift, nCons, nProd)) +
          [rows[k]]
    ensures LastTime(rows[..k + 1]) == At(MinuteOf(rows[k]))
  {
    assert rows[..k + 1][..k] == rows[..k];
  }

  /** The inner loop: hands over the rows missing between two times. */
  method FillGap(pt: int, t: int, shift: int, nCons: nat, nProd: nat) returns (fills: seq<Line>)
    ensures fills == FillLines(pt, MissingCount(At(pt), t), shift, nCons, nProd)
  {
    fills := [];
    if !CheckTime(At(pt), t) {
      var diff := TruncDiv(t - pt, QUARTER) - 1;
      if diff > 0 {
        var i := 0;
        while i < diff
          invariant 0 <= i <= diff && fills == FillLines(pt, i, shift, nCons, nProd)
        {
          fills := fills + [FillLine(pt + QUARTER * (i + 1) + shift, nCons, nProd)];
          i := i + 1;
        }
      }
    }
  }

  /** The reading loop. The export prints its fill rows as they are meant (shift 0); the query
      engine converts them to local time first (shift is the zone offset). */
  method Run(rows: seq<Line>, shift: int, nCons: nat, nProd: nat) returns (fed: seq<Line>)
    requires WithIds(rows)
    ensures fed == Fed(rows, shift, nCons, nProd)
  {
    fed := [];
    var pt := NoTime;
    for k := 0 to |rows|
      invariant fed == Fed(rows[..k], shift, nCons, nProd)
      invariant pt == LastTime(rows[..k])
    {
      FedNext(rows, k, shift, nCons, nProd);
      var t := MinuteOf(rows[k]);
      if pt.At? {
        var fills := FillGap(pt.time, t, shift, nCons, nProd);
        fed := fed + fills;
      }
      pt := At(t);
      fed := fed + [rows[k]];
    }
    assert rows[..|rows|] == rows;
  }

  // ---- Complete and minimal ---------------------------------------------------------------

  /** Rows on the grid in strictly ascending order. */
  ghost predicate OnGrid(rows: seq<Line>) {
    && WithIds(rows)
    && (forall i | 0 <= i < |rows| :: rows[i].id.time % QUARTER == 0)
    && (forall i, j | 0 <= i < j < |rows| :: rows[i].id.time < rows[j].id.time)
  }

  lemma GridTime(l: Line)
    requires HasId(l) && l.id.time % QUARTER == 0
    ensures MinuteOf(l) == l.id.time
  {
  }

  lemma MissingExactly(pt: int, t: int)
    requires pt % QUARTER == 0 && t % QUARTER == 0 && pt < t
    ensures t == pt + QUARTER * (MissingCount(At(pt), t) + 1)
  {
  }

  /** How many rows are missing between two rows of any times: both are read in whole minutes. */
  lemma MissingIs(a: Line, b: Line)
    requires HasId(a) && HasId(b)
    ensures var minutes := b.id.time / 60 - a.id.time / 60;
      MissingCount(At(MinuteOf(a)), MinuteOf(b)) == if minutes >= 15 then minutes / 15 - 1 else 0
  {
    MinutesApart(a.id.time / 60, b.id.time / 60);
    assert MinuteOf(a) == a.id.time / 60 * 60 && MinuteOf(b) == b.id.time / 60 * 60;
  }

  lemma MinutesApart(a: int, b: int)
    ensures MissingCount(At(a * 60), b * 60) == if b - a >= 15 then (b - a) / 15 - 1 else 0
  {
    if b - a >= 15 {
      var q, r := (b - a) / 15, (b - a) % 15;
      QuotientOf(b * 60 - a * 60, q, r * 60, QUARTER);
    }
  }

  /** A fill row has every cell of every registered meter, all values and marks zero. */
  lemma FillLineIsZero(time: int, nCons: nat, nProd: nat, dir: Direction)
    ensures var l, cells := FillLine(time, nCons, nProd), if dir.Consumer? then 3 * nCons else 2 * nProd;
      && l.id == Row(time) && |Values(l, dir)| == |Qualities(l, dir)| == cells
      && forall i | 0 <= i < cells :: Values(l, dir)[i] == 0.0 && Qualities(l, dir)[i] == 0
  {
  }

  /** The element the complete series has at a time: the stored row of this time, or a zero row. */
  ghost predicate RightLine(rows: seq<Line>, l: Line, time: int, nCons: nat, nProd: nat) {
    if exists j :: 0 <= j < |rows| && rows[j].id == Row(time)
    then exists j :: 0 <= j < |rows| && rows[j].id == Row(time) && l == rows[j]
    else l == FillLine(time, nCons, nProd)
  }

  /** One more row on the grid: exactly the missing quarters lie between it and the row before. */
  lemma FedStep(rows: seq<Line>, nCons: nat, nProd: nat) returns (n: nat)
    requires OnGrid(rows) && |rows| >= 2
    ensures rows[|rows| - 1].id.time == rows[|rows| - 2].id.time + QUARTER * (n + 1)
    ensures Fed(rows, 0, nCons, nProd)
         == Fed(rows[..|rows| - 1], 0, nCons, nProd) + FillLines(rows[|rows| - 2].id.time, n, 0, nCons, nProd) +
           [rows[|rows| - 1]]
  {
    var prev, last := rows[|rows| - 2], rows[|rows| - 1];
    assert rows[..|rows| - 1][|rows| - 2] == prev;
    GridTime(last);
    GridTime(prev);
    MissingExactly(prev.id.time, last.id.time);
    n := MissingCount(At(prev.id.time), last.id.time);
  }

  lemma {:induction false} FedLength(rows: seq<Line>, nCons: nat, nProd: nat)
    requires OnGrid(rows) && rows != []
    ensures rows[|rows| - 1].id.time == rows[0].id.time + QUARTER * (|Fed(rows, 0, nCons, nProd)| - 1)
  {
    if |rows| == 1 {
      assert Fed(rows[..0], 0, nCons, nProd) == [];
    } else {
      FedLength(rows[..|rows| - 1], nCons, nProd);
      var n := FedStep(rows, nCons, nProd);
    }
  }

  /** Complete and minimal: from the first row to the last the consumer gets exactly one line for
      each quarter of an hour in order, the stored row where there is one and a zero row
      otherwise. */
  lemma {:induction false} FedIsComplete(rows: seq<Line>, nCons: nat, nProd: nat, i: nat, time: int)
    requires OnGrid(rows) && rows != [] && i < |Fed(rows, 0, nCons, nProd)|
    requires time == rows[0].id.time + 900 * i
    ensures rows[|rows| - 1].id.time == rows[0].id.time + 900 * (|Fed(rows, 0, nCons, nProd)| - 1)
    ensures Fed(rows, 0, nCons, nProd)[i].id == Row(time)
    ensures RightLine(rows, Fed(rows, 0, nCons, nProd)[i], time, nCons, nProd)
  {
    FedLength(rows, nCons, nProd);
    if |rows| == 1 {
      assert Fed(rows, 0, nCons, nProd) == rows;
    } else {
      var rest, prev, last := rows[..|rows| - 1], rows[|rows| - 2], rows[|rows| - 1];
      var g := Fed(rest, 0, nCons, nProd);
      var n := FedStep(rows, nCons, nProd);
      var fills := FillLines(prev.id.time, n, 0, nCons, nProd);
      FedLength(rest, nCons, nProd);
      Joined(g, fills, last, i);
      if i < |g| {
        FedIsComplete(rest, nCons, nProd, i, time);
        RightLineInPrefix(rows, g[i], time, nCons, nProd);
      } else if i < |g| + n {
        assert prev.id.time < time < last.id.time;
        BetweenRows(rows, time);
      }
    }
  }

  lemma Joined(g: seq<Line>, fills: seq<Line>, last: Line, i: nat)
    requires i <= |g| + |fills|
    ensures (g + fills + [last])[i] == if i < |g| then g[i] else if i < |g| + |fills| then fills[i - |g|] else last
  {
  }

  lemma BetweenRows(rows: seq<Line>, time: int)
    requires OnGrid(rows) && |rows| >= 2 && rows[|rows| - 2].id.time < time < rows[|rows| - 1].id.time
    ensures !exists j :: 0 <= j < |rows| && rows[j].id == Row(time)
  {
  }

  lemma FedNotEmpty(rows: seq<Line>, shift: int, nCons: nat, nProd: nat)
    requires WithIds(rows) && rows != []
    ensures var f := Fed(rows, shift, nCons, nProd); f != [] && f[|f| - 1] == rows[|rows| - 1]
  {
  }

  lemma RightLineInPrefix(rows: seq<Line>, l: Line, time: int, nCons: nat, nProd: nat)
    requires OnGrid(rows) && rows != [] && time < rows[|rows| - 1].id.time
    requires RightLine(rows[..|rows| - 1], l, time, nCons, nProd)
    ensures RightLine(rows, l, time, nCons, nProd)
  {
    var rest := rows[..|rows| - 1];
    if exists j :: 0 <= j < |rows| && rows[j].id == Row(time) {
      var j :| 0 <= j < |rows| && rows[j].id == Row(time);
      assert rest[j].id == Row(time);
      var k :| 0 <= k < |rest| && rest[k].id == Row(time) && l == rest[k];
      assert rows[k].id == Row(time);
    }
  }

  // ---- The zone offset --------------------------------------------------------------------

  ghost predicate StepAt(lines: seq<Line>, i: nat)
    requires WithIds(lines) && i + 1 < |lines|
  {
    lines[i + 1].id.time == lines[i].id.time + QUARTER
  }

  ghost predicate Contiguous(lines: seq<Line>) {
    WithIds(lines) && forall i: nat | i + 1 < |lines| :: StepAt(lines, i)
  }

  lemma {:induction false} FedPrefix(rows: seq<Line>, shift: int, nCons: nat, nProd: nat, k: nat)
    requires WithIds(rows) && k <= |rows|
    ensures Fed(rows[..k], shift, nCons, nProd) <= Fed(rows, shift, nCons, nProd)
    decreases |rows| - k
  {
    if k < |rows| {
      FedPrefix(rows, shift, nCons, nProd, k + 1);
      assert rows[..k + 1][..k] == rows[..k];
    } else {
      assert rows[..k] == rows;
    }
  }

  lemma NoGapStep(rows: seq<Line>, shift: int, nCons: nat, nProd: nat)
    requires OnGrid(rows) && |rows| >= 2 && StepAt(rows, |rows| - 2)
    ensures Fed(rows, shift, nCons, nProd) == Fed(rows[..|rows| - 1], shift, nCons, nProd) + [rows[|rows| - 1]]
  {
    GridTime(rows[|rows| - 1]);
    GridTime(rows[|rows| - 2]);
    assert rows[..|rows| - 1][|rows| - 2] == rows[|rows| - 2];
  }

  lemma ContiguousPrefix(rows: seq<Line>)
    requires Contiguous(rows) && rows != []
    ensures Contiguous(rows[..|rows| - 1])
  {
    var rest := rows[..|rows| - 1];
    forall i: nat | i + 1 < |rest| ensures StepAt(rest, i) {
      assert StepAt(rows, i);
    }
  }

  lemma {:induction false} ContiguousIsFedUnchanged(rows: seq<Line>, shift: int, nCons: nat, nProd: nat)
    requires OnGrid(rows) && Contiguous(rows)
    ensures Fed(rows, shift, nCons, nProd) == rows
  {
    if rows != [] {
      var rest := rows[..|rows| - 1];
      ContiguousPrefix(rows);
      ContiguousIsFedUnchanged(rest, shift, nCons, nProd);
      if rest == [] {
        assert Fed(rows, shift, nCons, nProd) == [rows[0]];
      } else {
        assert StepAt(rows, |rows| - 2);
        NoGapStep(rows, shift, nCons, nProd);
      }
    }
  }

  lemma UnshiftedIsContiguous(rows: seq<Line>, nCons: nat, nProd: nat)
    requires OnGrid(rows) && rows != []
    ensures Contiguous(Fed(rows, 0, nCons, nProd))
  {
    var f := Fed(rows, 0, nCons, nProd);
    forall i: nat | i + 1 < |f| ensures StepAt(f, i) {
      FedIsComplete(rows, nCons, nProd, i, rows[0].id.time + QUARTER * i);
      FedIsComplete(rows, nCons, nProd, i + 1, rows[0].id.time + QUARTER * (i + 1));
    }
  }

  /** Behind a row before a gap follows the first fill row, at its shifted time. */
  lemma GapStep(rows: seq<Line>, shift: int, nCons: nat, nProd: nat)
    requires OnGrid(rows) && |rows| >= 2 && !StepAt(rows, |rows| - 2)
    ensures var g, h := Fed(rows[..|rows| - 1], shift, nCons, nProd), Fed(rows, shift, nCons, nProd);
      && 0 < |g| < |h| && h[|g| - 1] == rows[|rows| - 2]
      && h[|g|] == FillLine(rows[|rows| - 2].id.time + QUARTER + shift, nCons, nProd)
  {
    var rest, prev, last := rows[..|rows| - 1], rows[|rows| - 2], rows[|rows| - 1];
    assert rest[|rest| - 1] == prev;
    FedNotEmpty(rest, shift, nCons, nProd);
    GridTime(prev);
    GridTime(last);
    MissingExactly(prev.id.time, last.id.time);
    var n := MissingCount(At(prev.id.time), last.id.time);
    assert n > 0;
    assert FillLines(prev.id.time, n, shift, nCons, nProd)[0] == FillLine(prev.id.time + QUARTER + shift, nCons, nProd);
  }

  lemma GapBreaksFeed(rows: seq<Line>, shift: int, nCons: nat, nProd: nat, f: seq<Line>)
    requires OnGrid(rows) && |rows| >= 2 && !StepAt(rows, |rows| - 2) && shift != 0
    requires Fed(rows, shift, nCons, nProd) <= f && WithIds(f)
    ensures !Contiguous(f)
  {
    GapStep(rows, shift, nCons, nProd);
    NotContiguous(f, |Fed(rows[..|rows| - 1], shift, nCons, nProd)|, rows[|rows| - 2].id.time, shift);
  }

  lemma FirstFillIsShifted(rows: seq<Line>, shift: int, nCons: nat, nProd: nat, k: nat)
    requires OnGrid(rows) && shift != 0
    requires k + 1 < |rows| && !StepAt(rows, k)
    ensures !Contiguous(Fed(rows, shift, nCons, nProd))
  {
    var b := rows[..k + 2];
    assert !StepAt(b, k);
    FedPrefix(rows, shift, nCons, nProd, k + 2);
    GapBreaksFeed(b, shift, nCons, nProd, Fed(rows, shift, nCons, nProd));
  }

  lemma NotContiguous(f: seq<Line>, n: nat, time: int, shift: int)
    requires WithIds(f) && 0 < n < |f| && shift != 0
    requires f[n - 1].id == Row(time) && f[n].id == Row(time + QUARTER + shift)
    ensures !Contiguous(f)
  {
    assert !StepAt(f, n - 1);
  }

  /** The query engine feeds a contiguous series exactly when the zone offset is zero or there was
      nothing to fill. */
  lemma ShiftedFillExactly(rows: seq<Line>, shift: int, nCons: nat, nProd: nat)
    requires OnGrid(rows)
    ensures Contiguous(Fed(rows, shift, nCons, nProd)) <==> shift == 0 || Contiguous(rows)
  {
    if Contiguous(rows) {
      ContiguousIsFedUnchanged(rows, shift, nCons, nProd);
    } else if shift == 0 {
      UnshiftedIsContiguous(rows, nCons, nProd);
    } else {
      var k: nat :| k + 1 < |rows| && !StepAt(rows, k);
      FirstFillIsShifted(rows, shift, nCons, nProd, k);
    }
  }
}
