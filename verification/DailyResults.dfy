/** Daily totals per meter, summed row by row with matrices: unit columns pick the cells, and
    size-changing additions accumulate them. */
module DailyResults {
  import opened Numbers
  import opened SourceLines
  import opened Matrices

  /** Rows that a list of cells fills, at least one. */
  function RowsFor(size: nat, width: nat): (rows: nat)
    requires width == 2 || width == 3
    ensures rows >= 1 && size <= rows * width
    ensures size > width ==> (rows - 1) * width < size
  {
    var len := Max(size - 1, 1);
    (len + width - len % width) / width
  }

  /** The cells of a row as two matrices, one meter per matrix row. */
  method ConvertLineToMatrix(line: Line) returns (c: Matrix, p: Matrix)
    ensures fresh(c) && fresh(p) && c != p && c.Exact() && p.Exact() && c.cols == 3 && p.cols == 2
    ensures |line.consumers| <= c.rows * 3 && |line.producers| <= p.rows * 2
    ensures forall s: nat, k: nat :: c.GetElm(s, k) == At(line.consumers, s * 3 + k, 0.0)
    ensures forall s: nat, k: nat :: p.GetElm(s, k) == At(line.producers, s * 2 + k, 0.0)
  {
    c := new Matrix(line.consumers, RowsFor(|line.consumers|, 3), 3);
    p := new Matrix(line.producers, RowsFor(|line.producers|, 2), 2);
  }

  /** A matrix with a single column, and nothing stored behind it. */
  ghost predicate Column(m: Matrix)
    reads m
  {
    m.Exact() && m.cols == 1
  }

  /** Cell s of a column; cells behind it read as zero. */
  ghost function Cell(m: Matrix, s: nat): real
    reads m
  {
    At(m.elements, s, 0.0)
  }

  lemma ColumnCell(m: Matrix, s: nat)
    requires m.step == 1
    ensures Index(s, 0, 1) == s && m.GetElm(s, 0) == Cell(m, s)
  {
  }

  ghost predicate IsUnit(u: Matrix, k: nat, n: nat)
    reads u
  {
    Column(u) && u.rows == n && forall r: nat | r < n :: Cell(u, r) == if r == k then 1.0 else 0.0
  }

  /** Multiplying by a unit column selects a column. */
  lemma {:induction false} UnitSelects(a: Matrix, u: Matrix, i: nat, k: nat, n: nat, m: nat)
    requires IsUnit(u, k, n) && m <= n
    ensures Dot(a, u, i, 0, m) == if k < m then a.GetElm(i, k) else 0.0
  {
    if m > 0 {
      ColumnCell(u, m - 1);
      UnitSelects(a, u, i, k, n, m - 1);
    }
  }

  /** A fresh n by 1 column of zeros. */
  method ZeroColumn(n: nat) returns (u: Matrix)
    ensures fresh(u) && Column(u) && u.rows == n && forall s: nat :: Cell(u, s) == 0.0
  {
    u := new Matrix(Fill(n, 0.0), n, 1);
  }

  /** The unit column that selects column k of n. */
  method SetUnit(u: Matrix, k: nat, v: real)
    requires Column(u) && k < u.rows
    modifies u
    ensures Column(u) && u.rows == old(u.rows)
    ensures forall s: nat :: Cell(u, s) == if s == k then v else old(Cell(u, s))
  {
    ColumnCell(u, k);
    u.SetElm(k, 0, v);
  }

  /** One column of A, as a product with a unit column. */
  method SelectColumn(a: Matrix, u: Matrix, ghost k: nat) returns (r: Matrix)
    requires a.Exact() && IsUnit(u, k, a.cols) && k < a.cols
    ensures fresh(r) && Column(r) && r.rows == a.rows
    ensures forall s: nat :: Cell(r, s) == if s < a.rows then a.GetElm(s, k) else 0.0
  {
    r := Multiply(a, u);
    forall s: nat | s < a.rows ensures Cell(r, s) == a.GetElm(s, k) {
      UnitSelects(a, u, s, k, a.cols, a.cols);
      ColumnCell(r, s);
    }
  }

  /** Picks the allocated, the shared and the distributed column, rewriting one unit column. */
  method AllocDynamicV2(c: Matrix, p: Matrix) returns (alloc: Matrix, share: Matrix, dist: Matrix)
    requires c.Exact() && p.Exact() && c.cols == 3 && p.cols == 2
    ensures fresh(alloc) && fresh(share) && fresh(dist) && alloc != share && alloc != dist && share != dist
    ensures Column(alloc) && Column(share) && Column(dist)
    ensures forall s: nat :: Cell(alloc, s) == if s < c.rows then c.GetElm(s, 2) else 0.0
    ensures forall s: nat :: Cell(share, s) == if s < c.rows then c.GetElm(s, 1) else 0.0
    ensures forall s: nat :: Cell(dist, s) == if s < p.rows then p.GetElm(s, 1) else 0.0
  {
    var unit := ZeroColumn(3);
    SetUnit(unit, 2, 1.0);
    alloc := SelectColumn(c, unit, 2);
    SetUnit(unit, 2, 0.0);
    SetUnit(unit, 1, 1.0);
    share := SelectColumn(c, unit, 1);
    var producerUnit := ZeroColumn(2);
    SetUnit(producerUnit, 1, 1.0);
    dist := SelectColumn(p, producerUnit, 1);
  }

  /** The five columns of a row: what each meter consumed, shared, was allocated, produced and
      distributed. */
  method LineColumns(line: Line)
    returns (cons: Matrix, share: Matrix, alloc: Matrix, prod: Matrix, dist: Matrix)
    ensures fresh({cons, share, alloc, prod, dist}) && Distinct(cons, share, alloc, prod, dist)
    ensures Column(cons) && Column(share) && Column(alloc) && Column(prod) && Column(dist)
    ensures forall s: nat :: Cell(cons, s) == At(line.consumers, s * 3, 0.0)
    ensures forall s: nat :: Cell(share, s) == At(line.consumers, s * 3 + 1, 0.0)
    ensures forall s: nat :: Cell(alloc, s) == At(line.consumers, s * 3 + 2, 0.0)
    ensures forall s: nat :: Cell(prod, s) == At(line.producers, s * 2, 0.0)
    ensures forall s: nat :: Cell(dist, s) == At(line.producers, s * 2 + 1, 0.0)
  {
    var c, p := ConvertLineToMatrix(line);
    alloc, share, dist := AllocDynamicV2(c, p);
    var consumerUnit := ZeroColumn(3);
    SetUnit(consumerUnit, 0, 1.0);
    var producerUnit := ZeroColumn(2);
    SetUnit(producerUnit, 0, 1.0);
    cons := SelectColumn(c, consumerUnit, 0);
    prod := SelectColumn(p, producerUnit, 0);
  }

  predicate Distinct(a: Matrix, b: Matrix, c: Matrix, d: Matrix, e: Matrix) {
    a != b && a != c && a != d && a != e && b != c && b != d && b != e && c != d && c != e && d != e
  }

  /** The first n cells of a list, added up. */
  function SumAt(s: seq<real>, n: nat): real {
    if n == 0 then 0.0 else SumAt(s, n - 1) + At(s, n - 1, 0.0)
  }

  method Sum(s: seq<real>) returns (sum: real)
    ensures sum == SumAt(s, |s|)
  {
    sum := 0.0;
    for i := 0 to |s|
      invariant sum == SumAt(s, i)
    {
      sum := sum + s[i];
    }
  }

  lemma {:induction false} SumsAdd(a: seq<real>, b: seq<real>, c: seq<real>, n: nat)
    requires forall i: nat :: At(c, i, 0.0) == At(a, i, 0.0) + At(b, i, 0.0)
    ensures SumAt(c, n) == SumAt(a, n) + SumAt(b, n)
  {
    if n > 0 {
      SumsAdd(a, b, c, n - 1);
    }
  }

  /** Counting on behind the end of a list adds nothing. */
  lemma {:induction false} SumStops(a: seq<real>, n: nat)
    requires |a| <= n
    ensures SumAt(a, n) == SumAt(a, |a|)
  {
    if |a| < n {
      SumStops(a, n - 1);
    }
  }

  /** Adds a column to a running column; cells that one of them lacks count as zero. */
  method AddColumn(total: Matrix, column: Matrix)
    requires total != column && Column(total) && Column(column)
    modifies total, column
    ensures Column(total)
    ensures forall s: nat :: Cell(total, s) == old(Cell(total, s)) + old(Cell(column, s))
    ensures SumAt(total.elements, |total.elements|) ==
            SumAt(old(total.elements), |old(total.elements)|) + SumAt(old(column.elements), |old(column.elements)|)
  {
    ghost var a, b := total.elements, column.elements;
    var ok := total.Add(column);
    ghost var c := total.elements;
    forall s: nat ensures At(c, s, 0.0) == At(a, s, 0.0) + At(b, s, 0.0) {
      ColumnCell(total, s);
      assert old(total.GetElm(s, 0)) == At(a, s, 0.0) && old(column.GetElm(s, 0)) == At(b, s, 0.0);
      if s < total.rows {
        assert total.GetElm(s, 0) == At(a, s, 0.0) + At(b, s, 0.0);
      }
    }
    SumsAdd(a, b, c, |c|);
    SumStops(a, |c|);
    SumStops(b, |c|);
  }

  class CalcResults {
    const rCons: Matrix
    const rShar: Matrix
    const rAlloc: Matrix
    const rProd: Matrix
    const rDist: Matrix
    var pSum: real

    ghost function Repr(): set<Matrix> {
      {rCons, rShar, rAlloc, rProd, rDist}
    }

    /** The results are five separate columns, and pSum is the total of the produced one. */
    ghost predicate Valid()
      reads this, Repr()
    {
      && Distinct(rCons, rShar, rAlloc, rProd, rDist)
      && Column(rCons) && Column(rShar) && Column(rAlloc) && Column(rProd) && Column(rDist)
      && pSum == SumAt(rProd.elements, |rProd.elements|)
    }

    constructor (consumerCount: nat, producerCount: nat)
      ensures Valid() && fresh(Repr())
      ensures forall m, s: nat | m in Repr() :: Cell(m, s) == 0.0
    {
      var c := ZeroColumn(consumerCount);
      var a := ZeroColumn(consumerCount);
      var p := ZeroColumn(producerCount);
      var d := ZeroColumn(producerCount);
      var h := ZeroColumn(consumerCount);
      rCons, rAlloc, rProd, rDist, rShar, pSum := c, a, p, d, h, 0.0;
      ZeroSum(p, producerCount);
    }

    /** Adds the cells of one row: at every index the results grow by that meter's own cells. */
    method AppendResults(line: Line)
      requires Valid()
      modifies this, Repr()
      ensures Valid()
      ensures forall s: nat :: Cell(rCons, s) == old(Cell(rCons, s)) + At(line.consumers, s * 3, 0.0)
      ensures forall s: nat :: Cell(rShar, s) == old(Cell(rShar, s)) + At(line.consumers, s * 3 + 1, 0.0)
      ensures forall s: nat :: Cell(rAlloc, s) == old(Cell(rAlloc, s)) + At(line.consumers, s * 3 + 2, 0.0)
      ensures forall s: nat :: Cell(rProd, s) == old(Cell(rProd, s)) + At(line.producers, s * 2, 0.0)
      ensures forall s: nat :: Cell(rDist, s) == old(Cell(rDist, s)) + At(line.producers, s * 2 + 1, 0.0)
    {
      var cons, share, alloc, prod, dist := LineColumns(line);
      var more := Sum(prod.elements);
      AddColumn(rCons, cons);
      AddColumn(rProd, prod);
      AddColumn(rAlloc, alloc);
      AddColumn(rDist, dist);
      AddColumn(rShar, share);
      pSum := pSum + more;
    }
  }

  lemma {:induction false} ZeroSum(m: Matrix, n: nat)
    requires forall s: nat :: Cell(m, s) == 0.0
    ensures SumAt(m.elements, n) == 0.0
  {
    if n > 0 {
      ZeroSum(m, n - 1);
      assert Cell(m, n - 1) == 0.0;
    }
  }
}
