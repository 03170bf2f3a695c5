/** Stored rows: one flat list of cells per direction, three cells per consumer meter and two per
    producer meter, with a quality mark for every cell. */
module SourceLines {

  datatype Direction = Consumer | Producer

  /** Cells of one meter. */
  function Width(dir: Direction): nat {
    if dir.Consumer? then 3 else 2
  }

  /** The first cell of the meter with this index. */
  function FirstOf(dir: Direction, idx: nat): nat {
    if dir.Consumer? then idx * 3 else idx * 2
  }

  /** Row ids, identified with the local second they print (see RowIds.RowIdOrder). NoRow is the
      empty id. */
  datatype RowKey = NoRow | Row(time: int)

  datatype Line = Line(
    id: RowKey,
    consumers: seq<real>,
    producers: seq<real>,
    qovConsumers: seq<int>,
    qovProducers: seq<int>)

  function Values(l: Line, dir: Direction): seq<real> {
    if dir.Consumer? then l.consumers else l.producers
  }

  function Qualities(l: Line, dir: Direction): seq<int> {
    if dir.Consumer? then l.qovConsumers else l.qovProducers
  }

  /** Slices are read with missing cells taken as zero. */
  function At<T>(s: seq<T>, i: nat, zero: T): T {
    if i < |s| then s[i] else zero
  }

  function Fill<T>(n: nat, value: T): (s: seq<T>)
    ensures |s| == n && forall i | 0 <= i < n :: s[i] == value
  {
    seq(n, i => value)
  }

  /** Go's make-and-copy: cut or filled up with zeros to length n. */
  function Resized<T>(s: seq<T>, n: nat, zero: T): (r: seq<T>)
    ensures |r| == n && forall i | 0 <= i < n :: r[i] == At(s, i, zero)
  {
    seq(n, i requires 0 <= i < n => At(s, i, zero))
  }

  /** Writes a cell and grows the slice just enough when the cell is missing. */
  function Insert<T>(s: seq<T>, index: nat, value: T, zero: T): (r: seq<T>)
    ensures |r| == if index < |s| then |s| else index + 1
    ensures forall i: nat :: At(r, i, zero) == if i == index then value else At(s, i, zero)
  {
    if index < |s| then s[index := value] else Resized(s, index + 1, zero)[index := value]
  }

  /** The copy made when a row is fetched: the quality marks take the length of the values. */
  function Copy(l: Line): Line {
    l.(qovConsumers := Resized(l.qovConsumers, |l.consumers|, 0),
       qovProducers := Resized(l.qovProducers, |l.producers|, 0))
  }

  /** The copy kept as the start of a new window: full size for the given meter counts, and
      without the id. */
  function DeepCopy(l: Line, nConsumer: nat, nProducer: nat): Line {
    Line(NoRow, Resized(l.consumers, nConsumer * 3, 0.0), Resized(l.producers, nProducer * 2, 0.0),
         Resized(l.qovConsumers, nConsumer * 3, 0), Resized(l.qovProducers, nProducer * 2, 0))
  }

  /** A new row. The quality marks of the producers take the size of the consumers. */
  function MakeLine(id: RowKey, consumerSize: nat, producerSize: nat): Line {
    Line(id, Fill(consumerSize, 0.0), Fill(producerSize, 0.0), Fill(consumerSize, 0), Fill(consumerSize, 0))
  }

  /** No quality mark lies behind the values, so that Copy loses none. */
  ghost predicate Covered(l: Line) {
    forall dir, i: nat | |Values(l, dir)| <= i :: At(Qualities(l, dir), i, 0) == 0
  }

  /** Fetching keeps every cell of a covered row and covers it again. */
  lemma CopyKeepsCells(l: Line, dir: Direction, i: nat)
    ensures At(Values(Copy(l), dir), i, 0.0) == At(Values(l, dir), i, 0.0)
    ensures Covered(l) ==> At(Qualities(Copy(l), dir), i, 0) == At(Qualities(l, dir), i, 0)
    ensures Covered(Copy(l))
  {
    if Covered(l) && |Values(l, dir)| <= i {
      assert At(Qualities(l, dir), i, 0) == 0;
    }
  }

  /** Copy changes a cell of an uncovered row: coverage is exactly what fetching needs. */
  lemma CopyKeepsQualitiesExactly(l: Line)
    ensures Covered(l) <==> forall dir, i: nat :: At(Qualities(Copy(l), dir), i, 0) == At(Qualities(l, dir), i, 0)
  {
    if Covered(l) {
      forall dir, i: nat ensures At(Qualities(Copy(l), dir), i, 0) == At(Qualities(l, dir), i, 0) {
        CopyKeepsCells(l, dir, i);
      }
    } else {
      var dir, i: nat :| |Values(l, dir)| <= i && At(Qualities(l, dir), i, 0) != 0;
      assert At(Qualities(Copy(l), dir), i, 0) == 0;
    }
  }
}
