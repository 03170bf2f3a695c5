/** Energy messages: the meter codes, the direction of a meter, the order in which the codes of a
    message are imported, and the sums of the values that fall on one row. */
module EnergyMessages {
  import opened Characters
  import opened SourceLines

  datatype Code = Gen | GenTF | Plus | PlusTF | Con | ConTF | Share | Cover | CoverTF | Unknown(text: string)

  datatype EnergyValue = EnergyValue(from: int, to: int, method_: string, value: real)

  datatype EnergyData = EnergyData(code: Code, values: seq<EnergyValue>)

  /** Times are Unix milliseconds. */
  datatype Energy = Energy(start: int, end: int, data: seq<EnergyData>)

  datatype CodeMeta = CodeMeta(sourceInData: nat, sourceDelta: nat)

  datatype Option<T> = None | Some(value: T)

  /** A message with one generation or surplus code comes from a generator. */
  function ExamineDirection(data: seq<EnergyData>): (dir: Direction)
    ensures dir.Producer? <==> exists i | 0 <= i < |data| :: data[i].code in {Plus, PlusTF, Gen, GenTF}
  {
    if data == [] then Consumer
    else if data[0].code in {Plus, PlusTF, Gen, GenTF} then Producer
    else
      assert forall i | 1 <= i < |data| :: data[i] == data[1..][i - 1];
      ExamineDirection(data[1..])
  }

  /** The cell of a code inside its meter. */
  function DecodeMeterCode(code: Code, sourceIdx: nat): Option<CodeMeta> {
    match code
    case Gen => Some(CodeMeta(sourceIdx, 0))
    case GenTF => Some(CodeMeta(sourceIdx, 0))
    case Plus => Some(CodeMeta(sourceIdx, 1))
    case PlusTF => Some(CodeMeta(sourceIdx, 1))
    case Con => Some(CodeMeta(sourceIdx, 0))
    case ConTF => Some(CodeMeta(sourceIdx, 0))
    case Share => Some(CodeMeta(sourceIdx, 1))
    case Cover => Some(CodeMeta(sourceIdx, 2))
    case CoverTF => Some(CodeMeta(sourceIdx, 2))
    case Unknown(_) => None
  }

  /** Codes weighted with the participation factor. */
  predicate IsTF(code: Code) {
    code in {ConTF, GenTF, CoverTF, PlusTF}
  }

  /** The known codes among the first n, weighted ones or the others. The weighted coverage is
      never imported. */
  function Listed(data: seq<EnergyData>, n: nat, tf: bool): (mcs: seq<CodeMeta>)
    requires n <= |data|
    ensures forall k | 0 <= k < |mcs| ::
      && mcs[k].sourceInData < n
      && DecodeMeterCode(data[mcs[k].sourceInData].code, mcs[k].sourceInData) == Some(mcs[k])
      && data[mcs[k].sourceInData].code != CoverTF
  {
    if n == 0 then []
    else
      var rest := Listed(data, n - 1, tf);
      var code := data[n - 1].code;
      match DecodeMeterCode(code, n - 1)
      case None => rest
      case Some(m) => if IsTF(code) == tf && code != CoverTF then rest + [m] else rest
  }

  function Organized(data: seq<EnergyData>): seq<CodeMeta> {
    Listed(data, |data|, false) + Listed(data, |data|, true)
  }

  method OrganizeMetaCodeImport(data: seq<EnergyData>) returns (mcs: seq<CodeMeta>)
    ensures mcs == Organized(data)
  {
    var base, ext := [], [];
    for i := 0 to |data|
      invariant base == Listed(data, i, false) && ext == Listed(data, i, true)
    {
      var meta := DecodeMeterCode(data[i].code, i);
      if meta.Some? {
        if IsTF(data[i].code) {
          if data[i].code != CoverTF {
            ext := ext + [meta.value];
          }
        } else {
          base := base + [meta.value];
        }
      }
    }
    mcs := base + ext;
  }

  ghost predicate Lists(mcs: seq<CodeMeta>, i: nat) {
    exists k :: 0 <= k < |mcs| && mcs[k].sourceInData == i
  }

  predicate IsListed(code: Code) {
    !code.Unknown? && code != CoverTF
  }

  lemma NextListed(data: seq<EnergyData>, n: nat, tf: bool)
    requires n < |data|
    ensures var mcs, rest := Listed(data, n + 1, tf), Listed(data, n, tf);
      if IsListed(data[n].code) && IsTF(data[n].code) == tf
      then |mcs| == |rest| + 1 && mcs[..|rest|] == rest && mcs[|rest|].sourceInData == n
      else mcs == rest
  {
  }

  /** The listed codes stand in the order of the message, each once. */
  lemma {:induction false} ListedAscends(data: seq<EnergyData>, n: nat, tf: bool)
    requires n <= |data|
    ensures var mcs := Listed(data, n, tf);
      forall k, l | 0 <= k < l < |mcs| :: mcs[k].sourceInData < mcs[l].sourceInData
  {
    if n > 0 {
      ListedAscends(data, n - 1, tf);
      NextListed(data, n - 1, tf);
      var mcs, rest := Listed(data, n, tf), Listed(data, n - 1, tf);
      forall k, l | 0 <= k < l < |mcs| ensures mcs[k].sourceInData < mcs[l].sourceInData {
        assert mcs[k] == rest[k];
        assert l < |rest| ==> mcs[l] == rest[l];
      }
    }
  }

  lemma ListsNext(rest: seq<CodeMeta>, mcs: seq<CodeMeta>, i: nat, n: nat)
    requires |mcs| == |rest| + 1 && mcs[..|rest|] == rest && mcs[|rest|].sourceInData == n
    ensures Lists(mcs, i) <==> Lists(rest, i) || i == n
  {
    if k :| 0 <= k < |rest| && rest[k].sourceInData == i {
      assert mcs[k] == rest[k];
    }
    if k :| 0 <= k < |mcs| && mcs[k].sourceInData == i {
      assert k < |rest| ==> mcs[k] == rest[k];
    }
  }

  lemma {:induction false} ListsExactly(data: seq<EnergyData>, n: nat, tf: bool, i: nat)
    requires n <= |data|
    ensures Lists(Listed(data, n, tf), i) <==> i < n && IsListed(data[i].code) && IsTF(data[i].code) == tf
  {
    if n > 0 {
      ListsExactly(data, n - 1, tf, i);
      NextListed(data, n - 1, tf);
      if IsListed(data[n - 1].code) && IsTF(data[n - 1].code) == tf {
        ListsNext(Listed(data, n - 1, tf), Listed(data, n, tf), i, n - 1);
      }
    }
  }

  /** A code is imported exactly when it is known and not the weighted coverage, and it stands once,
      with its position and cell, in the part of the order that its kind has. */
  lemma ListedExactly(data: seq<EnergyData>, n: nat, tf: bool, i: nat)
    requires i < n <= |data|
    ensures Lists(Listed(data, n, tf), i) <==> IsListed(data[i].code) && IsTF(data[i].code) == tf
    ensures var mcs := Listed(data, n, tf);
      forall k | 0 <= k < |mcs| && mcs[k].sourceInData == i ::
        && DecodeMeterCode(data[i].code, i) == Some(mcs[k])
        && forall l | 0 <= l < |mcs| && l != k :: mcs[l].sourceInData != i
  {
    ListsExactly(data, n, tf, i);
    ListedAscends(data, n, tf);
  }

  // ---- Values of one row ----------------------------------------------------------------

  /** The row of an instant: its second, shown in a zone `zone` seconds ahead of UTC. */
  function RowOf(instant: int, zone: int): int {
    Second(instant) + zone
  }

  function Second(instant: int): int {
    instant / 1000
  }

  predicate HasRow(vs: seq<EnergyValue>, zone: int, row: int) {
    vs != [] && (RowOf(vs[|vs| - 1].from, zone) == row || HasRow(vs[..|vs| - 1], zone, row))
  }

  function SumRow(vs: seq<EnergyValue>, zone: int, row: int): real {
    if vs == [] then 0.0
    else
      var last := vs[|vs| - 1];
      SumRow(vs[..|vs| - 1], zone, row) + if RowOf(last.from, zone) == row then last.value else 0.0
  }

  /** The method of the first value listed for a row. */
  function MethodOf(vs: seq<EnergyValue>, zone: int, row: int): string
    requires HasRow(vs, zone, row)
  {
    var rest := vs[..|vs| - 1];
    if HasRow(rest, zone, row) then MethodOf(rest, zone, row) else vs[|vs| - 1].method_
  }

  lemma {:induction false} HasRowIff(vs: seq<EnergyValue>, zone: int, row: int)
    ensures HasRow(vs, zone, row) <==> exists i | 0 <= i < |vs| :: RowOf(vs[i].from, zone) == row
  {
    if vs != [] {
      HasRowIff(vs[..|vs| - 1], zone, row);
    }
  }

  function CastQoV(method_: string): (q: int)
    ensures 0 <= q <= 3
  {
    if |method_| != 2 || Upper(method_[0]) != 'L' then 0
    else if method_[1] == '1' then 1
    else if method_[1] == '2' then 2
    else if method_[1] == '3' then 3
    else 0
  }

  // ---- Sorting --------------------------------------------------------------------------

  function InsertSorted(s: seq<EnergyValue>, v: EnergyValue): seq<EnergyValue> {
    if s == [] || Second(s[|s| - 1].from) <= Second(v.from) then s + [v]
    else InsertSorted(s[..|s| - 1], v) + [s[|s| - 1]]
  }

  /** The values in the order of their seconds; values of the same second keep their order. */
  function Sorted(vs: seq<EnergyValue>): seq<EnergyValue> {
    if vs == [] then [] else InsertSorted(Sorted(vs[..|vs| - 1]), vs[|vs| - 1])
  }

  lemma AppendRow(vs: seq<EnergyValue>, v: EnergyValue, zone: int, row: int)
    ensures HasRow(vs + [v], zone, row) <==> HasRow(vs, zone, row) || RowOf(v.from, zone) == row
    ensures SumRow(vs + [v], zone, row) == SumRow(vs, zone, row) + if RowOf(v.from, zone) == row then v.value else 0.0
    ensures HasRow(vs + [v], zone, row) ==>
              MethodOf(vs + [v], zone, row) == if HasRow(vs, zone, row) then MethodOf(vs, zone, row) else v.method_
  {
    assert (vs + [v])[..|vs|] == vs;
  }

  lemma {:induction false} InsertSortedRow(s: seq<EnergyValue>, v: EnergyValue, zone: int, row: int)
    ensures HasRow(InsertSorted(s, v), zone, row) <==> HasRow(s + [v], zone, row)
    ensures SumRow(InsertSorted(s, v), zone, row) == SumRow(s + [v], zone, row)
    ensures HasRow(s + [v], zone, row) ==> MethodOf(InsertSorted(s, v), zone, row) == MethodOf(s + [v], zone, row)
  {
    if s != [] && Second(s[|s| - 1].from) > Second(v.from) {
      var rest, last := s[..|s| - 1], s[|s| - 1];
      assert s == rest + [last];
      InsertSortedRow(rest, v, zone, row);
      AppendRow(InsertSorted(rest, v), last, zone, row);
      AppendRow(rest, v, zone, row);
      AppendRow(s, v, zone, row);
    }
  }

  /** Sorting changes nothing that the import of a row depends on. */
  lemma {:induction false} SortedRow(vs: seq<EnergyValue>, zone: int, row: int)
    ensures HasRow(Sorted(vs), zone, row) <==> HasRow(vs, zone, row)
    ensures SumRow(Sorted(vs), zone, row) == SumRow(vs, zone, row)
    ensures HasRow(vs, zone, row) ==> MethodOf(Sorted(vs), zone, row) == MethodOf(vs, zone, row)
  {
    if vs != [] {
      var rest, last := vs[..|vs| - 1], vs[|vs| - 1];
      assert vs == rest + [last];
      SortedRow(rest, zone, row);
      InsertSortedRow(Sorted(rest), last, zone, row);
      AppendRow(Sorted(rest), last, zone, row);
      AppendRow(rest, last, zone, row);
    }
  }

  ghost predicate BySecond(s: seq<EnergyValue>) {
    forall i, j | 0 <= i < j < |s| :: Second(s[i].from) <= Second(s[j].from)
  }

  lemma {:induction false} InsertSortedPermutes(s: seq<EnergyValue>, v: EnergyValue)
    ensures multiset(InsertSorted(s, v)) == multiset(s) + multiset{v}
  {
    if s != [] && Second(s[|s| - 1].from) > Second(v.from) {
      InsertSortedPermutes(s[..|s| - 1], v);
      assert s == s[..|s| - 1] + [s[|s| - 1]];
    }
  }

  lemma {:induction false} InsertSortedOrder(s: seq<EnergyValue>, v: EnergyValue, bound: int)
    requires BySecond(s) && Second(v.from) <= bound && forall i | 0 <= i < |s| :: Second(s[i].from) <= bound
    ensures BySecond(InsertSorted(s, v))
    ensures forall i | 0 <= i < |InsertSorted(s, v)| :: Second(InsertSorted(s, v)[i].from) <= bound
  {
    if s != [] && Second(s[|s| - 1].from) > Second(v.from) {
      InsertSortedOrder(s[..|s| - 1], v, Second(s[|s| - 1].from));
    }
  }

  function LatestSecond(vs: seq<EnergyValue>): (b: int)
    ensures forall i | 0 <= i < |vs| :: Second(vs[i].from) <= b
  {
    if vs == [] then 0
    else
      var rest, last := LatestSecond(vs[..|vs| - 1]), Second(vs[|vs| - 1].from);
      if rest < last then last else rest
  }

  lemma InsertKeepsOrder(s: seq<EnergyValue>, v: EnergyValue)
    requires BySecond(s)
    ensures BySecond(InsertSorted(s, v))
  {
    var b := LatestSecond(s + [v]);
    assert (s + [v])[|s|] == v && forall i | 0 <= i < |s| :: (s + [v])[i] == s[i];
    InsertSortedOrder(s, v, b);
  }

  lemma LastApart(vs: seq<EnergyValue>)
    requires vs != []
    ensures multiset(vs) == multiset(vs[..|vs| - 1]) + multiset{vs[|vs| - 1]}
  {
    assert vs == vs[..|vs| - 1] + [vs[|vs| - 1]];
  }

  /** The sort puts the values in the order of their seconds and loses none. */
  lemma {:induction false} SortedIsSort(vs: seq<EnergyValue>)
    ensures multiset(Sorted(vs)) == multiset(vs) && BySecond(Sorted(vs))
  {
    if vs != [] {
      SortedIsSort(vs[..|vs| - 1]);
      InsertSortedPermutes(Sorted(vs[..|vs| - 1]), vs[|vs| - 1]);
      InsertKeepsOrder(Sorted(vs[..|vs| - 1]), vs[|vs| - 1]);
      LastApart(vs);
    }
  }

  lemma {:induction false} SumRowConcat(a: seq<EnergyValue>, b: seq<EnergyValue>, zone: int, row: int)
    ensures SumRow(a + b, zone, row) == SumRow(a, zone, row) + SumRow(b, zone, row)
  {
    if b == [] {
      assert a + b == a;
    } else {
      var last := b[|b| - 1];
      SumRowConcat(a, b[..|b| - 1], zone, row);
      AppendRow(a + b[..|b| - 1], last, zone, row);
      assert a + b == a + b[..|b| - 1] + [last];
    }
  }

  function Without(s: seq<EnergyValue>, j: nat): (r: seq<EnergyValue>)
    requires j < |s|
    ensures |r| == |s| - 1
  {
    s[..j] + s[j + 1..]
  }

  lemma RemoveRow(b: seq<EnergyValue>, j: nat, zone: int, row: int)
    requires j < |b|
    ensures SumRow(b, zone, row) == SumRow(Without(b, j), zone, row) + SumRow([b[j]], zone, row)
    ensures multiset(Without(b, j)) == multiset(b) - multiset{b[j]}
  {
    assert b == b[..j] + ([b[j]] + b[j + 1..]);
    SumRowConcat(b[..j], [b[j]] + b[j + 1..], zone, row);
    SumRowConcat([b[j]], b[j + 1..], zone, row);
    SumRowConcat(b[..j], b[j + 1..], zone, row);
  }

  /** Whatever order a sort gives to values of the same second, the sum of a row is the same. */
  lemma {:induction false} SumRowIgnoresOrder(a: seq<EnergyValue>, b: seq<EnergyValue>, n: nat, zone: int, row: int)
    requires multiset(a) == multiset(b) && n == |a|
    ensures SumRow(a, zone, row) == SumRow(b, zone, row)
    decreases n
  {
    assert n == |multiset(a)| == |multiset(b)| == |b|;
    if n == 0 {
      assert a == b;
    } else {
      assert a[0] in multiset(b);
      var j :| 0 <= j < |b| && b[j] == a[0];
      RemoveRow(a, 0, zone, row);
      RemoveRow(b, j, zone, row);
      SumRowIgnoresOrder(Without(a, 0), Without(b, j), n - 1, zone, row);
    }
  }
}
