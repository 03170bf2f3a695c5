/** The metadata side of moving a meter to the other direction: it takes the next free index there,
    and the indices of both directions are numbered anew. */
module MeterMetadata {
  import opened SourceLines

  datatype Entry = Entry(name: string, dir: Direction, sourceIdx: nat)

  method MinOf(vars: seq<int>) returns (min: int)
    requires vars != []
    ensures min in vars && forall v | v in vars :: min <= v
  {
    min := vars[0];
    for i := 0 to |vars|
      invariant min in vars && forall k | 0 <= k < i :: min <= vars[k]
    {
      if min > vars[i] {
        min := vars[i];
      }
    }
  }

  ghost predicate Inside(ps: seq<nat>, meta: seq<Entry>) {
    forall i | 0 <= i < |ps| :: ps[i] < |meta|
  }

  /** Positions of the entries of one direction: the slice of pointers that is sorted. */
  function Positions(meta: seq<Entry>, dir: Direction, n: nat): (ps: seq<nat>)
    requires n <= |meta|
    ensures Inside(ps, meta)
  {
    if n == 0 then []
    else Positions(meta, dir, n - 1) + (if meta[n - 1].dir == dir then [n - 1] else [])
  }

  lemma {:induction false} PositionsListAll(meta: seq<Entry>, dir: Direction, n: nat)
    requires n <= |meta|
    ensures var ps := Positions(meta, dir, n);
      && (forall i | 0 <= i < |ps| :: ps[i] < n && meta[ps[i]].dir == dir)
      && (forall i, j | 0 <= i < j < |ps| :: ps[i] < ps[j])
      && (forall k | 0 <= k < n && meta[k].dir == dir :: k in ps)
  {
    if n > 0 {
      PositionsListAll(meta, dir, n - 1);
      var rest, ps := Positions(meta, dir, n - 1), Positions(meta, dir, n);
      assert meta[n - 1].dir == dir ==> ps[|rest|] == n - 1;
      forall k | 0 <= k < n - 1 && meta[k].dir == dir ensures k in ps {
        assert k in rest;
      }
    }
  }

  ghost predicate Ascending(ps: seq<nat>, meta: seq<Entry>)
    requires Inside(ps, meta)
  {
    forall i, j | 0 <= i < j < |ps| :: meta[ps[i]].sourceIdx <= meta[ps[j]].sourceIdx
  }

  /** Puts p behind every entry that is not greater. */
  function Place(ps: seq<nat>, p: nat, meta: seq<Entry>): (r: seq<nat>)
    requires Inside(ps, meta) && p < |meta|
    ensures Inside(r, meta)
  {
    if ps == [] then [p]
    else if meta[ps[|ps| - 1]].sourceIdx <= meta[p].sourceIdx then ps + [p]
    else Place(ps[..|ps| - 1], p, meta) + [ps[|ps| - 1]]
  }

  lemma {:induction false} PlacePermutes(ps: seq<nat>, p: nat, meta: seq<Entry>)
    requires Inside(ps, meta) && p < |meta|
    ensures multiset(Place(ps, p, meta)) == multiset(ps) + multiset{p}
  {
    if ps != [] && meta[ps[|ps| - 1]].sourceIdx > meta[p].sourceIdx {
      PlacePermutes(ps[..|ps| - 1], p, meta);
      assert ps == ps[..|ps| - 1] + [ps[|ps| - 1]];
    }
  }

  lemma AppendAscends(ps: seq<nat>, p: nat, meta: seq<Entry>)
    requires Inside(ps, meta) && p < |meta| && Ascending(ps, meta)
    requires forall i | 0 <= i < |ps| :: meta[ps[i]].sourceIdx <= meta[p].sourceIdx
    ensures Ascending(ps + [p], meta)
  {
  }

  lemma {:induction false} PlaceAscends(ps: seq<nat>, p: nat, meta: seq<Entry>, bound: nat)
    requires Inside(ps, meta) && p < |meta| && Ascending(ps, meta) && meta[p].sourceIdx <= bound
    requires forall i | 0 <= i < |ps| :: meta[ps[i]].sourceIdx <= bound
    ensures Ascending(Place(ps, p, meta), meta)
    ensures forall i | 0 <= i < |Place(ps, p, meta)| :: meta[Place(ps, p, meta)[i]].sourceIdx <= bound
  {
    if ps != [] && meta[ps[|ps| - 1]].sourceIdx > meta[p].sourceIdx {
      PlaceAscends(ps[..|ps| - 1], p, meta, meta[ps[|ps| - 1]].sourceIdx);
      AppendAscends(Place(ps[..|ps| - 1], p, meta), ps[|ps| - 1], meta);
    } else {
      AppendAscends(ps, p, meta);
    }
  }

  /** The stable sort by source index. */
  function SortedBy(ps: seq<nat>, meta: seq<Entry>): (r: seq<nat>)
    requires Inside(ps, meta)
    ensures Inside(r, meta)
  {
    if ps == [] then [] else Place(SortedBy(ps[..|ps| - 1], meta), ps[|ps| - 1], meta)
  }

  /** A bound for the indices of a slice. */
  function Greatest(ps: seq<nat>, meta: seq<Entry>): (b: nat)
    requires Inside(ps, meta)
    ensures forall i | 0 <= i < |ps| :: meta[ps[i]].sourceIdx <= b
  {
    if ps == [] then 0
    else
      var rest, last := Greatest(ps[..|ps| - 1], meta), meta[ps[|ps| - 1]].sourceIdx;
      if rest < last then last else rest
  }

  lemma PlaceInOrder(ps: seq<nat>, p: nat, meta: seq<Entry>)
    requires Inside(ps, meta) && p < |meta| && Ascending(ps, meta)
    ensures Ascending(Place(ps, p, meta), meta)
  {
    var b, c := Greatest(ps, meta), meta[p].sourceIdx;
    PlaceAscends(ps, p, meta, if b < c then c else b);
  }

  lemma {:induction false} SortSorts(ps: seq<nat>, meta: seq<Entry>)
    requires Inside(ps, meta)
    ensures multiset(SortedBy(ps, meta)) == multiset(ps) && Ascending(SortedBy(ps, meta), meta)
  {
    if ps != [] {
      var n := |ps| - 1;
      SortSorts(ps[..n], meta);
      PlacePermutes(SortedBy(ps[..n], meta), ps[n], meta);
      PlaceInOrder(SortedBy(ps[..n], meta), ps[n], meta);
      assert ps == ps[..n] + [ps[n]];
    }
  }

  function Order(meta: seq<Entry>, dir: Direction): (r: seq<nat>)
    ensures Inside(r, meta)
  {
    SortedBy(Positions(meta, dir, |meta|), meta)
  }

  lemma {:induction false} NoDuplicates(ps: seq<nat>, r: seq<nat>)
    requires multiset(ps) == multiset(r) && forall i, j | 0 <= i < j < |ps| :: ps[i] != ps[j]
    ensures forall i, j | 0 <= i < j < |r| :: r[i] != r[j]
  {
    forall i, j | 0 <= i < j < |r| ensures r[i] != r[j] {
      assert r == r[..i] + [r[i]] + r[i + 1..j] + [r[j]] + r[j + 1..];
      if r[i] == r[j] {
        assert multiset(r)[r[i]] >= 2;
        OnlyOnce(ps, r[i]);
      }
    }
  }

  lemma {:induction false} OnlyOnce(ps: seq<nat>, p: nat)
    requires forall i, j | 0 <= i < j < |ps| :: ps[i] != ps[j]
    ensures multiset(ps)[p] <= 1
  {
    if ps != [] {
      var n := |ps| - 1;
      assert ps == ps[..n] + [ps[n]];
      OnlyOnce(ps[..n], p);
      if ps[n] == p {
        assert p !in ps[..n];
        assert p !in multiset(ps[..n]);
      }
    }
  }

  /** The order lists every entry of the direction once. */
  lemma OrderListsAll(meta: seq<Entry>, dir: Direction)
    ensures var o := Order(meta, dir);
      && Ascending(o, meta) && |o| == |Positions(meta, dir, |meta|)|
      && (forall i, j | 0 <= i < j < |o| :: o[i] != o[j])
      && (forall k | 0 <= k < |meta| :: k in o <==> meta[k].dir == dir)
  {
    var ps, o := Positions(meta, dir, |meta|), Order(meta, dir);
    PositionsListAll(meta, dir, |meta|);
    SortSorts(ps, meta);
    NoDuplicates(ps, o);
    assert |multiset(ps)| == |multiset(o)|;
    forall k | 0 <= k < |meta| ensures k in o <==> meta[k].dir == dir {
      assert k in o <==> k in multiset(o);
      assert k in ps <==> k in multiset(ps);
    }
  }

  /** Numbered anew: in the order of the old indices, each entry of a direction follows the one
      before it by one, and the first keeps its index. */
  ghost predicate Renumbered(meta: seq<Entry>, r: seq<Entry>, dir: Direction) {
    |r| == |meta| &&
    var o := Order(meta, dir);
    forall i | 0 <= i < |o| :: r[o[i]].sourceIdx == meta[o[0]].sourceIdx + i
  }

  ghost predicate SameMeters(meta: seq<Entry>, r: seq<Entry>) {
    |r| == |meta| && forall k | 0 <= k < |meta| :: r[k].name == meta[k].name && r[k].dir == meta[k].dir
  }

  ghost predicate SliceRenumbered(meta: seq<Entry>, r: seq<Entry>, slice: seq<nat>) {
    && SameMeters(meta, r) && Inside(slice, meta)
    && (forall i | 0 <= i < |slice| :: r[slice[i]].sourceIdx == meta[slice[0]].sourceIdx + i)
    && (forall k | 0 <= k < |meta| && k !in slice :: r[k] == meta[k])
  }

  method RenumberSlice(meta: seq<Entry>, slice: seq<nat>) returns (r: seq<Entry>)
    requires Inside(slice, meta) && forall i, j | 0 <= i < j < |slice| :: slice[i] != slice[j]
    ensures SliceRenumbered(meta, r, slice)
  {
    r := meta;
    var i := 1;
    while i < |slice|
      invariant 1 <= i && SameMeters(meta, r)
      invariant forall j | 0 <= j < i && j < |slice| :: r[slice[j]].sourceIdx == meta[slice[0]].sourceIdx + j
      invariant forall j | i <= j < |slice| :: r[slice[j]] == meta[slice[j]]
      invariant forall k | 0 <= k < |meta| && k !in slice :: r[k] == meta[k]
    {
      if r[slice[i]].sourceIdx != r[slice[i - 1]].sourceIdx + 1 {
        r := r[slice[i] := r[slice[i]].(sourceIdx := r[slice[i - 1]].sourceIdx + 1)];
      }
      i := i + 1;
    }
  }

  /** The slices of the two directions have no entry in common. */
  lemma SlicesApart(meta: seq<Entry>)
    ensures forall k | k in Order(meta, Consumer) :: k !in Order(meta, Producer)
  {
    OrderListsAll(meta, Consumer);
    OrderListsAll(meta, Producer);
  }

  ghost predicate Reorganized(meta: seq<Entry>, r: seq<Entry>) {
    SameMeters(meta, r) && Renumbered(meta, r, Consumer) && Renumbered(meta, r, Producer)
  }

  lemma BothRenumbered(meta: seq<Entry>, half: seq<Entry>, r: seq<Entry>)
    requires SliceRenumbered(meta, half, Order(meta, Consumer)) && SliceRenumbered(half, r, Order(meta, Producer))
    ensures Reorganized(meta, r)
  {
    SlicesApart(meta);
    var c, p := Order(meta, Consumer), Order(meta, Producer);
    forall i | 0 <= i < |c| ensures r[c[i]].sourceIdx == meta[c[0]].sourceIdx + i {
      assert c[i] in c;
      assert r[c[i]] == half[c[i]];
    }
    forall i | 0 <= i < |p| ensures r[p[i]].sourceIdx == meta[p[0]].sourceIdx + i {
      assert p[0] in p;
      assert half[p[0]] == meta[p[0]];
    }
  }

  /** The entries of both directions, as they are stored. */
  method SplitByDirection(meta: seq<Entry>) returns (consumers: seq<nat>, producers: seq<nat>)
    ensures consumers == Positions(meta, Consumer, |meta|) && producers == Positions(meta, Producer, |meta|)
  {
    consumers, producers := [], [];
    for n := 0 to |meta|
      invariant consumers == Positions(meta, Consumer, n)
      invariant producers == Positions(meta, Producer, n)
    {
      if meta[n].dir == Producer {
        producers := producers + [n];
      } else {
        consumers := consumers + [n];
      }
    }
  }

  method SortSlice(meta: seq<Entry>, ps: seq<nat>, ghost dir: Direction) returns (o: seq<nat>)
    requires ps == Positions(meta, dir, |meta|)
    ensures o == Order(meta, dir) && forall i, j | 0 <= i < j < |o| :: o[i] != o[j]
  {
    o := SortedBy(ps, meta);
    OrderListsAll(meta, dir);
  }

  method ReorganizeMeta(meta: seq<Entry>) returns (r: seq<Entry>)
    ensures Reorganized(meta, r)
  {
    var consumers, producers := SplitByDirection(meta);
    consumers := SortSlice(meta, consumers, Consumer);
    producers := SortSlice(meta, producers, Producer);
    var half := RenumberSlice(meta, consumers);
    r := RenumberSlice(half, producers);
    BothRenumbered(meta, half, r);
  }

  /** The greatest index of a direction, -1 when it has no meter. */
  function MaxIdx(meta: seq<Entry>, dir: Direction, n: nat): (m: int)
    requires n <= |meta|
    ensures m >= -1 && forall k | 0 <= k < n && meta[k].dir == dir :: meta[k].sourceIdx <= m
    ensures m >= 0 ==> exists k :: 0 <= k < n && meta[k].dir == dir && meta[k].sourceIdx == m
  {
    if n == 0 then -1
    else
      var m := MaxIdx(meta, dir, n - 1);
      if meta[n - 1].dir == dir && meta[n - 1].sourceIdx > m then meta[n - 1].sourceIdx else m
  }

  /** The index a meter gets that is new in a direction. */
  function NextIdx(meta: seq<Entry>, dir: Direction): nat {
    MaxIdx(meta, dir, |meta|) + 1
  }

  function Other(dir: Direction): Direction {
    if dir.Producer? then Consumer else Producer
  }

  /** Gives the named meter its new direction and index, and numbers everything anew. */
  method UpdateMeta(meta: seq<Entry>, meter: string, dir: Direction, idx: nat) returns (r: seq<Entry>)
    ensures Reorganized(Retargeted(meta, meter, dir, idx), r)
  {
    r := meta;
    for n := 0 to |meta|
      invariant |r| == |meta| && forall k | 0 <= k < n :: r[k] == Retargeted(meta, meter, dir, idx)[k]
      invariant forall k | n <= k < |meta| :: r[k] == meta[k]
    {
      if r[n].name == meter {
        r := r[n := Entry(meter, dir, idx)];
      }
    }
    assert r == Retargeted(meta, meter, dir, idx);
    r := ReorganizeMeta(r);
  }

  function Retargeted(meta: seq<Entry>, meter: string, dir: Direction, idx: nat): (r: seq<Entry>)
    ensures |r| == |meta|
  {
    seq(|meta|, k requires 0 <= k < |meta| => if meta[k].name == meter then Entry(meter, dir, idx) else meta[k])
  }

  // ---- Dense indices --------------------------------------------------------------------

  /** The indices of a direction are 0 to n - 1, each once. */
  ghost predicate Dense(meta: seq<Entry>, dir: Direction) {
    && (forall k | 0 <= k < |meta| && meta[k].dir == dir :: meta[k].sourceIdx < |Positions(meta, dir, |meta|)|)
    && (forall j, k | 0 <= j < k < |meta| && meta[j].dir == meta[k].dir == dir ::
      meta[j].sourceIdx != meta[k].sourceIdx)
  }

  /** Increasing numbers below n that leave out just s. */
  lemma {:induction false} LowerBound(xs: seq<nat>, s: nat, i: nat)
    requires forall a, b | 0 <= a < b < |xs| :: xs[a] < xs[b]
    requires i < |xs| && forall a | 0 <= a < |xs| :: xs[a] != s
    ensures xs[i] >= i && (i >= s ==> xs[i] > i)
  {
    if i > 0 {
      LowerBound(xs, s, i - 1);
    }
  }

  lemma {:induction false} UpperBound(xs: seq<nat>, n: nat, s: nat, i: nat)
    requires forall a, b | 0 <= a < b < |xs| :: xs[a] < xs[b]
    requires i < |xs| == n - 1 && forall a | 0 <= a < |xs| :: xs[a] != s && xs[a] < n
    ensures xs[i] <= i + 1 && (i < s < n ==> xs[i] <= i)
    decreases n - i
  {
    if i + 1 < |xs| {
      UpperBound(xs, n, s, i + 1);
    }
  }

  /** Values of a direction: distinct numbers below n, with s left out. */
  ghost predicate Gapped(meta: seq<Entry>, dir: Direction, n: nat, s: nat) {
    && |Positions(meta, dir, |meta|)| == n - 1 && s < n
    && (forall k | 0 <= k < |meta| && meta[k].dir == dir :: meta[k].sourceIdx < n && meta[k].sourceIdx != s)
    && (forall j, k | 0 <= j < k < |meta| && meta[j].dir == meta[k].dir == dir ::
      meta[j].sourceIdx != meta[k].sourceIdx)
  }

  function OrderedValues(meta: seq<Entry>, o: seq<nat>): (xs: seq<nat>)
    requires forall i | 0 <= i < |o| :: o[i] < |meta|
    ensures |xs| == |o| && forall i | 0 <= i < |o| :: xs[i] == meta[o[i]].sourceIdx
  {
    seq(|o|, i requires 0 <= i < |o| => meta[o[i]].sourceIdx)
  }

  /** Sorted, the values step by one, with one jump over the gap. */
  lemma GappedOrder(meta: seq<Entry>, dir: Direction, n: nat, s: nat, i: nat)
    requires Gapped(meta, dir, n, s) && i < |Order(meta, dir)|
    ensures meta[Order(meta, dir)[i]].sourceIdx == if i < s then i else i + 1
  {
    OrderListsAll(meta, dir);
    var o := Order(meta, dir);
    var xs := OrderedValues(meta, o);
    forall a | 0 <= a < |xs| ensures xs[a] != s && xs[a] < n {
      assert o[a] in o;
    }
    forall a, b | 0 <= a < b < |xs| ensures xs[a] < xs[b] {
      assert o[a] in o && o[b] in o;
      assert meta[o[a]].sourceIdx != meta[o[b]].sourceIdx;
    }
    LowerBound(xs, s, i);
    UpperBound(xs, n, s, i);
  }

  /** Where an index goes when index s of the direction has been given up. */
  function Shifted(idx: nat, s: nat): nat {
    if 0 < s < idx then idx - 1 else idx
  }

  /** Renumbering closes the gap, unless the gap is at 0: then the first entry keeps its index and
      all others follow it. */
  lemma GapCloses(meta: seq<Entry>, r: seq<Entry>, dir: Direction, n: nat, s: nat, k: nat)
    requires Gapped(meta, dir, n, s) && Renumbered(meta, r, dir) && k < |meta| && meta[k].dir == dir
    ensures r[k].sourceIdx == Shifted(meta[k].sourceIdx, s)
  {
    OrderListsAll(meta, dir);
    var o := Order(meta, dir);
    assert k in o;
    var i :| 0 <= i < |o| && o[i] == k;
    GappedOrder(meta, dir, n, s, i);
    GappedOrder(meta, dir, n, s, 0);
  }

  ghost predicate DistinctNames(meta: seq<Entry>) {
    forall j, k | 0 <= j < k < |meta| :: meta[j].name != meta[k].name
  }

  function Count(meta: seq<Entry>, dir: Direction): nat {
    |Positions(meta, dir, |meta|)|
  }

  function CountTo(meta: seq<Entry>, dir: Direction, n: nat): nat
    requires n <= |meta|
  {
    if n == 0 then 0 else CountTo(meta, dir, n - 1) + if meta[n - 1].dir == dir then 1 else 0
  }

  lemma {:induction false} CountToIsCount(meta: seq<Entry>, dir: Direction, n: nat)
    requires n <= |meta|
    ensures |Positions(meta, dir, n)| == CountTo(meta, dir, n)
  {
    if n > 0 {
      CountToIsCount(meta, dir, n - 1);
    }
  }

  /** Changing the direction of one meter takes it off one count and adds it to the other. */
  lemma {:induction false} CountMoves(meta: seq<Entry>, x: nat, idx: nat, n: nat)
    requires DistinctNames(meta) && x < |meta| && n <= |meta|
    ensures var dir := meta[x].dir; var moved := Retargeted(meta, meta[x].name, Other(dir), idx);
      var one := if x < n then 1 else 0;
      && CountTo(moved, dir, n) == CountTo(meta, dir, n) - one
      && CountTo(moved, Other(dir), n) == CountTo(meta, Other(dir), n) + one
  {
    if n > 0 {
      CountMoves(meta, x, idx, n - 1);
    }
  }

  lemma DenseIsGapped(meta: seq<Entry>, dir: Direction)
    requires Dense(meta, dir)
    ensures Gapped(meta, dir, Count(meta, dir) + 1, Count(meta, dir))
  {
  }

  /** Every number below the count is in use. */
  lemma DenseHas(meta: seq<Entry>, dir: Direction, i: nat) returns (k: nat)
    requires Dense(meta, dir) && i < Count(meta, dir)
    ensures k < |meta| && meta[k].dir == dir && meta[k].sourceIdx == i
  {
    var n := Count(meta, dir);
    OrderListsAll(meta, dir);
    DenseIsGapped(meta, dir);
    GappedOrder(meta, dir, n + 1, n, i);
    k := Order(meta, dir)[i];
    assert k in Order(meta, dir);
  }

  /** With dense indices the next free index is the number of meters. */
  lemma NextIndexIsCount(meta: seq<Entry>, dir: Direction)
    requires Dense(meta, dir)
    ensures NextIdx(meta, dir) == Count(meta, dir)
  {
    var n, m := Count(meta, dir), MaxIdx(meta, dir, |meta|);
    assert m >= 0 ==> m < n;
    if n > 0 {
      var k := DenseHas(meta, dir, n - 1);
    }
  }

  /** The metadata after meter x has become meter m of the other direction. */
  ghost predicate Moved(meta: seq<Entry>, x: nat, m: nat, r: seq<Entry>)
    requires x < |meta|
  {
    var to := Other(meta[x].dir);
    m == NextIdx(meta, to) && Reorganized(Retargeted(meta, meta[x].name, to, m), r)
  }

  lemma CountsAfterMove(meta: seq<Entry>, x: nat, idx: nat)
    requires DistinctNames(meta) && x < |meta|
    ensures var dir := meta[x].dir; var target := Retargeted(meta, meta[x].name, Other(dir), idx);
      && Count(target, dir) == Count(meta, dir) - 1
      && Count(target, Other(dir)) == Count(meta, Other(dir)) + 1
  {
    var dir := meta[x].dir;
    var target := Retargeted(meta, meta[x].name, Other(dir), idx);
    CountMoves(meta, x, idx, |meta|);
    CountToIsCount(meta, dir, |meta|);
    CountToIsCount(meta, Other(dir), |meta|);
    CountToIsCount(target, dir, |meta|);
    CountToIsCount(target, Other(dir), |meta|);
  }

  /** All other entries stay as they are. */
  lemma OthersStay(meta: seq<Entry>, x: nat, to: Direction, idx: nat)
    requires DistinctNames(meta) && x < |meta|
    ensures var target := Retargeted(meta, meta[x].name, to, idx);
      target[x] == Entry(meta[x].name, to, idx) && forall k | 0 <= k < |meta| && k != x :: target[k] == meta[k]
  {
  }

  /** The direction that is left has a gap, the other one has none. */
  lemma LeftGap(meta: seq<Entry>, x: nat, dir: Direction, target: seq<Entry>)
    requires Dense(meta, dir) && x < |meta| == |target| && meta[x].dir == dir && target[x].dir == Other(dir)
    requires forall k | 0 <= k < |meta| && k != x :: target[k] == meta[k]
    requires Count(target, dir) == Count(meta, dir) - 1
    ensures Gapped(target, dir, Count(meta, dir), meta[x].sourceIdx)
  {
    forall k | 0 <= k < |target| && target[k].dir == dir
      ensures target[k].sourceIdx < Count(meta, dir) && target[k].sourceIdx != meta[x].sourceIdx
    {
      assert k < x || x < k;
    }
  }

  lemma EnteredGap(meta: seq<Entry>, x: nat, to: Direction, target: seq<Entry>)
    requires Dense(meta, to) && x < |meta| == |target| && meta[x].dir == Other(to)
    requires target[x].dir == to && target[x].sourceIdx == Count(meta, to)
    requires forall k | 0 <= k < |meta| && k != x :: target[k] == meta[k]
    requires Count(target, to) == Count(meta, to) + 1
    ensures Gapped(target, to, Count(meta, to) + 2, Count(meta, to) + 1)
  {
  }

  ghost predicate AllDense(meta: seq<Entry>) {
    Dense(meta, Consumer) && Dense(meta, Producer) && DistinctNames(meta)
  }

  lemma DenseBothWays(meta: seq<Entry>, dir: Direction)
    requires AllDense(meta)
    ensures Dense(meta, dir) && Dense(meta, Other(dir))
  {
  }

  lemma RetargetedGaps(meta: seq<Entry>, x: nat, to: Direction)
    requires AllDense(meta) && x < |meta| && to == Other(meta[x].dir)
    ensures var target := Retargeted(meta, meta[x].name, to, Count(meta, to));
      && Gapped(target, meta[x].dir, Count(meta, meta[x].dir), meta[x].sourceIdx)
      && Gapped(target, to, Count(meta, to) + 2, Count(meta, to) + 1)
  {
    var m := Count(meta, to);
    DenseBothWays(meta, to);
    CountsAfterMove(meta, x, m);
    OthersStay(meta, x, to, m);
    LeftGap(meta, x, meta[x].dir, Retargeted(meta, meta[x].name, to, m));
    EnteredGap(meta, x, to, Retargeted(meta, meta[x].name, to, m));
  }

  lemma RenumberedTarget(meta: seq<Entry>, x: nat, to: Direction, r: seq<Entry>, target: seq<Entry>, k: nat)
    requires AllDense(meta) && x < |meta| && to == Other(meta[x].dir) && k < |meta|
    requires target == Retargeted(meta, meta[x].name, to, Count(meta, to))
    requires Reorganized(target, r)
    ensures r[k].sourceIdx ==
            Shifted(target[k].sourceIdx, if target[k].dir == to then Count(meta, to) + 1 else meta[x].sourceIdx)
  {
    RetargetedGaps(meta, x, to);
    if target[k].dir == to {
      GapCloses(target, r, to, Count(meta, to) + 2, Count(meta, to) + 1, k);
    } else {
      GapCloses(target, r, meta[x].dir, Count(meta, meta[x].dir), meta[x].sourceIdx, k);
    }
  }

  /** What one entry becomes when meter s of a direction becomes meter m of the other one. */
  function Renamed(e: Entry, dir: Direction, s: nat, m: nat, moved: bool): Entry {
    if moved then Entry(e.name, Other(dir), m)
    else if e.dir == dir then e.(sourceIdx := Shifted(e.sourceIdx, s))
    else e
  }

  lemma RenumberedEntry(meta: seq<Entry>, x: nat, to: Direction, r: seq<Entry>, m: nat, k: nat)
    requires AllDense(meta) && x < |meta| && to == Other(meta[x].dir) && k < |meta| && m == Count(meta, to)
    requires Reorganized(Retargeted(meta, meta[x].name, to, m), r)
    ensures |r| == |meta| && r[k] == Renamed(meta[k], meta[x].dir, meta[x].sourceIdx, m, k == x)
  {
    OthersStay(meta, x, to, m);
    RenumberedTarget(meta, x, to, r, Retargeted(meta, meta[x].name, to, m), k);
    DenseBothWays(meta, to);
    assert meta[k].dir == to ==> meta[k].sourceIdx < m;
  }

  lemma MovedNext(meta: seq<Entry>, x: nat, m: nat, r: seq<Entry>)
    requires AllDense(meta) && x < |meta| && Moved(meta, x, m, r)
    ensures var to := Other(meta[x].dir);
      m == Count(meta, to) && Reorganized(Retargeted(meta, meta[x].name, to, m), r)
  {
    DenseBothWays(meta, meta[x].dir);
    NextIndexIsCount(meta, Other(meta[x].dir));
  }

  /** The moved meter gets the index behind all meters of its new direction, these keep theirs, and
      meters of the old direction with a greater index move down by one, except when the first one
      was moved. */
  lemma MovedIndices(meta: seq<Entry>, x: nat, m: nat, r: seq<Entry>, k: nat)
    requires AllDense(meta) && x < |meta| && Moved(meta, x, m, r) && k < |meta|
    ensures m == Count(meta, Other(meta[x].dir))
    ensures |r| == |meta| && r[k] == Renamed(meta[k], meta[x].dir, meta[x].sourceIdx, m, k == x)
  {
    MovedNext(meta, x, m, r);
    RenumberedEntry(meta, x, Other(meta[x].dir), r, m, k);
  }
}
