/** Growable matrices stored as one flat list, row after row. */
module Matrices {
  import opened Numbers
  import opened SourceLines
  import opened Decimals

  /** Flat position of a cell. */
  function Index(row: nat, col: nat, step: nat): nat {
    row * step + col
  }

  lemma RowsInOrder(a: nat, b: nat, step: nat)
    ensures a < b ==> a * step + step <= b * step
  {
    if a < b {
      assert (a + 1) * step <= b * step;
    }
  }

  lemma IndexInside(row: nat, col: nat, rows: nat, step: nat)
    requires row < rows && col < step
    ensures Index(row, col, step) < rows * step
  {
    RowsInOrder(row, rows, step);
  }

  lemma IndexDistinct(r0: nat, c0: nat, r1: nat, c1: nat, step: nat)
    requires c0 < step && c1 < step
    ensures Index(r0, c0, step) == Index(r1, c1, step) <==> r0 == r1 && c0 == c1
  {
    RowsInOrder(r0, r1, step);
    RowsInOrder(r1, r0, step);
  }

  /** A row holds exactly the indices that divide to its number. */
  lemma RowsBelow(rows: nat, index: nat, step: nat, size: nat)
    requires step > 0 && rows * step <= size <= index
    ensures rows <= index / step
  {
    RowsInOrder(index / step, rows, step);
  }

  /** The size ensureSize asks for: up to the end of the row that holds the index. */
  function GrownSize(index: nat, step: nat): (n: nat)
    requires step > 0
    ensures n == (index / step + 1) * step && index < n
  {
    index - index % step + step
  }

  function Pick(done: bool, x: real, y: real): real {
    if done then x else y
  }

  /** The first n summands of row i of A times column j of B. */
  function Dot(a: Matrix, b: Matrix, i: nat, j: nat, n: nat): real
    reads a, b
  {
    if n == 0 then 0.0 else Dot(a, b, i, j, n - 1) + a.GetElm(i, n - 1) * b.GetElm(n - 1, j)
  }

  class Matrix {
    var rows: nat
    var cols: nat
    var step: nat
    var elements: seq<real>

    /** Rows lie next to each other, and every declared cell is stored. */
    ghost predicate Valid()
      reads this
    {
      step == cols && step > 0 && rows * step <= |elements|
    }

    /** The zero value: a result that nothing was added to yet. */
    ghost predicate Undefined()
      reads this
    {
      rows == 0 && cols == 0 && step == 0 && elements == []
    }

    /** Nothing but the declared cells is stored. */
    ghost predicate Exact()
      reads this
    {
      Valid() && rows * step == |elements|
    }

    /** GetElm: cells behind the stored ones read as zero. */
    function GetElm(row: nat, col: nat): real
      reads this
    {
      At(elements, Index(row, col, step), 0.0)
    }

    /** MakeMatrix. The stored cells are the given ones, filled up to whole rows with zeros. */
    constructor (elements: seq<real>, rows: nat, cols: nat)
      requires cols > 0
      ensures Valid() && this.rows == rows && this.cols == cols
      ensures |this.elements| == Max(|elements|, rows * cols)
      ensures forall i: nat :: At(this.elements, i, 0.0) == At(elements, i, 0.0)
    {
      this.rows, this.cols, this.step, this.elements := rows, cols, cols, elements;
      new;
      var size := rows * cols;
      if rows > 0 {
        RowsInOrder(0, rows, cols);
        assert size - 1 == (rows - 1) * cols + (cols - 1);
        QuotientOf(size - 1, rows - 1, cols - 1, cols);
        EnsureSize(size - 1);
      }
    }

    constructor Zero()
      ensures Undefined()
    {
      rows, cols, step, elements := 0, 0, 0, [];
    }

    /** Grows the storage to whole rows when the index is missing, and counts the rows anew. */
    method EnsureSize(index: nat)
      requires step > 0
      modifies this
      ensures step == old(step) && cols == old(cols)
      ensures |elements| == if index >= |old(elements)| then GrownSize(index, step) else |old(elements)|
      ensures rows == if index >= |old(elements)| then index / step + 1 else old(rows)
      ensures index < |elements|
      ensures forall i: nat :: At(elements, i, 0.0) == At(old(elements), i, 0.0)
      ensures old(Valid()) ==> Valid() && rows >= old(rows)
    {
      if index >= |elements| {
        var newSize := GrownSize(index, step);
        QuotientOf(newSize, index / step + 1, 0, step);
        if rows * step <= |elements| {
          RowsBelow(rows, index, step, |elements|);
        }
        elements := Resized(elements, newSize, 0.0);
        rows := newSize / step;
      }
    }

    method SetElm(row: nat, col: nat, v: real)
      requires step > 0
      modifies this
      ensures step == old(step) && cols == old(cols)
      ensures forall i: nat ::
        At(elements, i, 0.0) == if i == Index(row, col, step) then v else At(old(elements), i, 0.0)
      ensures Index(row, col, step) < |old(elements)| ==> rows == old(rows) && |elements| == |old(elements)|
      ensures old(Valid()) ==> Valid() && rows >= old(rows)
    {
      var index := Index(row, col, step);
      EnsureSize(index);
      elements := elements[index := v];
    }

    /** The zero value takes the shape of another matrix. */
    method TakeShape(b: Matrix)
      requires Undefined()
      modifies this
      ensures rows == old(b.rows) && cols == old(b.cols) && step == old(b.step)
      ensures elements == Fill(cols * rows, 0.0)
    {
      elements := Fill(b.cols * b.rows, 0.0);
      rows := b.rows;
      cols := b.cols;
      step := b.step;
    }

    /** Adds B cell by cell. A zero value first takes the shape of B. Operands of different shape are
        brought to the larger shape, which works when their rows are equally wide and is refused
        otherwise. */
    method Add(b: Matrix) returns (ok: bool)
      requires (Valid() || Undefined()) && (b.Valid() || b.Undefined())
      modifies this, b
      ensures ok <==> old(Undefined() || cols == b.cols)
      ensures !ok ==> unchanged(this) && unchanged(b)
      ensures ok && old(b.Valid()) ==> Valid() && b.Valid()
      ensures ok && old(b.Undefined()) ==> Undefined() && b.Undefined()
      ensures ok ==> cols == old(b.cols) && rows == Max(old(rows), old(b.rows))
      ensures ok && old(Exact() || Undefined()) && old(b.Exact()) ==> Exact() && b.Exact()
      ensures ok ==> forall i: nat, j: nat | i < rows && j < cols ::
        GetElm(i, j) == old(GetElm(i, j)) + old(b.GetElm(i, j))
      ensures ok && b != this ==> forall i: nat, j: nat | i < rows && j < cols ::
        b.GetElm(i, j) == old(b.GetElm(i, j))
    {
      if elements == [] && rows == 0 && cols == 0 {
        TakeShape(b);
      }
      ok := AddShaped(b);
    }

    /** Add once a zero value has taken its shape. */
    method AddShaped(b: Matrix) returns (ok: bool)
      requires (Valid() && (b.Valid() || b.Undefined())) || (Undefined() && b.Undefined())
      modifies this, b
      ensures ok <==> old(cols == b.cols)
      ensures !ok ==> unchanged(this) && unchanged(b)
      ensures ok && old(b.Valid()) ==> Valid() && b.Valid()
      ensures ok && old(b.Undefined()) ==> Undefined() && b.Undefined()
      ensures ok ==> cols == old(cols) && rows == Max(old(rows), old(b.rows))
      ensures ok && old(Exact()) && old(b.Exact()) ==> Exact() && b.Exact()
      ensures ok ==> forall i: nat, j: nat | i < rows && j < cols ::
        GetElm(i, j) == old(GetElm(i, j)) + old(b.GetElm(i, j))
      ensures ok && b != this ==> forall i: nat, j: nat | i < rows && j < cols ::
        b.GetElm(i, j) == old(b.GetElm(i, j))
    {
      ghost var was, wasB := elements, b.elements;
      if cols != b.cols || rows != b.rows {
        if step != b.step {
          return false;
        }
        var maxRow := Max(rows, b.rows);
        var maxCol := Max(cols, b.cols);
        var targetB := Resized(b.elements, maxRow * maxCol, 0.0);
        b.elements := targetB;
        var targetA := Resized(elements, maxRow * maxCol, 0.0);
        elements := targetA;
        b.cols, b.rows := maxCol, maxRow;
        cols, rows := maxCol, maxRow;
      }
      forall i: nat, j: nat | i < rows && j < cols
        ensures At(elements, Index(i, j, step), 0.0) == At(was, Index(i, j, step), 0.0)
        ensures At(b.elements, Index(i, j, step), 0.0) == At(wasB, Index(i, j, step), 0.0)
      {
        IndexInside(i, j, rows, step);
      }
      AddCells(b);
      ok := true;
    }

    /** The cell loop of Add, on operands of the same shape. */
    method AddCells(b: Matrix)
      requires (Valid() && b.Valid() && cols == b.cols && rows == b.rows) || rows == 0
      modifies this
      ensures step == old(step) && cols == old(cols) && rows == old(rows) && |elements| == |old(elements)|
      ensures forall i: nat, j: nat | i < rows && j < cols ::
        GetElm(i, j) == old(GetElm(i, j)) + old(b.GetElm(i, j))
    {
      ghost var was, wasB := elements, b.elements;
      for i := 0 to rows
        invariant step == old(step) && cols == old(cols) && rows == old(rows) && |elements| == |was|
        invariant b != this ==> b.elements == wasB
        invariant forall r: nat, c: nat | r < rows && c < cols ::
            var p := Index(r, c, step);
            At(elements, p, 0.0) == Pick(r < i, At(was, p, 0.0) + At(wasB, p, 0.0), At(was, p, 0.0))
      {
        for j := 0 to cols
          invariant step == old(step) && cols == old(cols) && rows == old(rows) && |elements| == |was|
          invariant b != this ==> b.elements == wasB
          invariant forall r: nat, c: nat | r < rows && c < cols ::
              var p := Index(r, c, step);
              At(elements, p, 0.0) ==
                Pick(r < i || (r == i && c < j), At(was, p, 0.0) + At(wasB, p, 0.0), At(was, p, 0.0))
        {
          IndexInside(i, j, rows, step);
          forall r: nat, c: nat | r < rows && c < cols
            ensures Index(r, c, step) == Index(i, j, step) <==> r == i && c == j
          {
            IndexDistinct(r, c, i, j, step);
          }
          SetElm(i, j, GetElm(i, j) + b.GetElm(i, j));
        }
      }
    }

    /** Rounds every declared cell to six digits, in place. */
    method RoundToFixed()
      requires Valid()
      modifies this
      ensures step == old(step) && cols == old(cols) && rows == old(rows) && |elements| == |old(elements)|
      ensures forall i: nat, j: nat | i < rows && j < cols :: GetElm(i, j) == Round6(old(GetElm(i, j)))
      ensures forall p: nat | rows * step <= p :: At(elements, p, 0.0) == At(old(elements), p, 0.0)
    {
      ghost var was, end := elements, rows * step;
      for i := 0 to rows
        invariant step == old(step) && cols == old(cols) && rows == old(rows) && |elements| == |was|
        invariant forall p: nat | end <= p :: At(elements, p, 0.0) == At(was, p, 0.0)
        invariant forall r: nat, c: nat | r < rows && c < cols ::
            var p := Index(r, c, step);
            At(elements, p, 0.0) == Pick(r < i, Round6(At(was, p, 0.0)), At(was, p, 0.0))
      {
        for j := 0 to cols
          invariant step == old(step) && cols == old(cols) && rows == old(rows) && |elements| == |was|
          invariant forall p: nat | end <= p :: At(elements, p, 0.0) == At(was, p, 0.0)
          invariant forall r: nat, c: nat | r < rows && c < cols ::
              var p := Index(r, c, step);
              At(elements, p, 0.0) ==
                Pick(r < i || (r == i && c < j), Round6(At(was, p, 0.0)), At(was, p, 0.0))
        {
          IndexInside(i, j, rows, step);
          forall r: nat, c: nat | r < rows && c < cols
            ensures Index(r, c, step) == Index(i, j, step) <==> r == i && c == j
          {
            IndexDistinct(r, c, i, j, step);
          }
          SetElm(i, j, Round6(GetElm(i, j)));
        }
      }
    }
  }

  /** The product of two matrices, cell by cell. */
  method Multiply(a: Matrix, b: Matrix) returns (result: Matrix)
    requires a.Valid() && b.Valid()
    ensures fresh(result) && result.Exact() && result.rows == a.rows && result.cols == b.cols
    ensures forall i: nat, j: nat | i < a.rows && j < b.cols :: result.GetElm(i, j) == Dot(a, b, i, j, a.cols)
  {
    result := new Matrix(Fill(b.cols * a.rows, 0.0), a.rows, b.cols);
    for i := 0 to a.rows
      invariant fresh(result) && result.Exact() && result.rows == a.rows && result.cols == b.cols
      invariant forall r: nat, c: nat | r < i && c < b.cols :: result.GetElm(r, c) == Dot(a, b, r, c, a.cols)
    {
      for j := 0 to b.cols
        invariant fresh(result) && result.Exact() && result.rows == a.rows && result.cols == b.cols
        invariant forall r: nat, c: nat | r < i && c < b.cols :: result.GetElm(r, c) == Dot(a, b, r, c, a.cols)
        invariant forall c: nat | c < j :: result.GetElm(i, c) == Dot(a, b, i, c, a.cols)
      {
        var sum := 0.0;
        for k := 0 to a.cols
          invariant sum == Dot(a, b, i, j, k)
        {
          sum := sum + a.GetElm(i, k) * b.GetElm(k, j);
        }
        IndexInside(i, j, result.rows, result.step);
        forall r: nat, c: nat | c < b.cols
          ensures Index(r, c, result.step) == Index(i, j, result.step) <==> r == i && c == j
        {
          IndexDistinct(r, c, i, j, result.step);
        }
        result.SetElm(i, j, sum);
      }
    }
  }
}
