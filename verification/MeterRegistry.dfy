/** Registration of metering points: each gets the next free index of its direction. */
module MeterRegistry {
  import opened Numbers
  import opened SourceLines

  datatype Meter = Meter(dir: Direction, sourceIdx: nat)

  type Registry = map<string, Meter>

  datatype Info = Info(consumerCount: nat, producerCount: nat, maxConsumerIdx: int, maxProducerIdx: int)

  /** The meters of one direction among the given names. */
  function Among(meta: Registry, names: set<string>, dir: Direction): set<string>
    requires names <= meta.Keys
  {
    set n | n in names && meta[n].dir == dir
  }

  function Names(meta: Registry, dir: Direction): set<string> {
    Among(meta, meta.Keys, dir)
  }

  function Count(info: Info, dir: Direction): nat {
    if dir.Consumer? then info.consumerCount else info.producerCount
  }

  function MaxIdx(info: Info, dir: Direction): int {
    if dir.Consumer? then info.maxConsumerIdx else info.maxProducerIdx
  }

  /** m is the greatest index among the meters of this direction, -1 when there are none. */
  ghost predicate IsMaxIdx(meta: Registry, names: set<string>, dir: Direction, m: int)
    requires names <= meta.Keys
  {
    && m >= -1
    && (forall n | n in names && meta[n].dir == dir :: meta[n].sourceIdx <= m)
    && (m >= 0 ==> exists n :: n in names && meta[n].dir == dir && meta[n].sourceIdx == m)
  }

  /** The counters describe the meters with the given names. */
  ghost predicate Describes(info: Info, meta: Registry, names: set<string>)
    requires names <= meta.Keys
  {
    forall dir ::
      && Count(info, dir) == |Among(meta, names, dir)|
      && IsMaxIdx(meta, names, dir, MaxIdx(info, dir))
  }

  /** Counts one more meter, as the loop over the stored metadata does. */
  function CountMeter(info: Info, m: Meter): Info {
    match m.dir
    case Consumer =>
      info.(consumerCount := info.consumerCount + 1, maxConsumerIdx := Max(m.sourceIdx, info.maxConsumerIdx))
    case Producer =>
      info.(producerCount := info.producerCount + 1, maxProducerIdx := Max(m.sourceIdx, info.maxProducerIdx))
  }

  /** One more name raises the greatest index to its own at least. */
  lemma MaxIdxGrows(meta: Registry, names: set<string>, name: string, dir: Direction, m: int)
    requires name in meta && names <= meta.Keys && IsMaxIdx(meta, names, dir, m)
    ensures IsMaxIdx(meta, names + {name}, dir, if meta[name].dir == dir then Max(meta[name].sourceIdx, m) else m)
  {
    if m >= 0 {
      var n :| n in names && meta[n].dir == dir && meta[n].sourceIdx == m;
      assert n in names + {name};
    }
    assert name in names + {name};
  }

  lemma AmongGrows(meta: Registry, names: set<string>, name: string, dir: Direction)
    requires name in meta && names <= meta.Keys && name !in names
    ensures |Among(meta, names + {name}, dir)| == |Among(meta, names, dir)| + if meta[name].dir == dir then 1 else 0
  {
    var before := Among(meta, names, dir);
    assert Among(meta, names + {name}, dir) == if meta[name].dir == dir then before + {name} else before;
  }

  lemma CountMeterDescribes(info: Info, meta: Registry, names: set<string>, name: string)
    requires name in meta && names <= meta.Keys && name !in names && Describes(info, meta, names)
    ensures Describes(CountMeter(info, meta[name]), meta, names + {name})
  {
    var next := CountMeter(info, meta[name]);
    forall dir
      ensures Count(next, dir) == |Among(meta, names + {name}, dir)|
      ensures IsMaxIdx(meta, names + {name}, dir, MaxIdx(next, dir))
    {
      AmongGrows(meta, names, name, dir);
      MaxIdxGrows(meta, names, name, dir, MaxIdx(info, dir));
    }
  }

  /** Reads the counters off the stored metadata, in any order of its entries. */
  method CalcMetaInfo(meta: Registry) returns (info: Info)
    ensures Describes(info, meta, meta.Keys)
  {
    info := Info(0, 0, -1, -1);
    var rest := meta.Keys;
    assert forall dir :: Among(meta, {}, dir) == {};
    while rest != {}
      invariant rest <= meta.Keys
      invariant Describes(info, meta, meta.Keys - rest)
      decreases rest
    {
      var name :| name in rest;
      CountMeterDescribes(info, meta, meta.Keys - rest, name);
      assert meta.Keys - rest + {name} == meta.Keys - (rest - {name});
      info := CountMeter(info, meta[name]);
      rest := rest - {name};
    }
    assert meta.Keys - {} == meta.Keys;
  }

  /** The stored metadata after one metering point was looked up for import: a known one is kept,
      an unknown one gets the index behind the greatest of its direction. */
  ghost predicate Registered(before: Registry, name: string, dir: Direction, after: Registry) {
    if name in before then after == before
    else exists m :: IsMaxIdx(before, before.Keys, dir, m) && after == before[name := Meter(dir, m + 1)]
  }

  /** The stored metadata after the points were looked up one after the other. */
  ghost predicate AllRegistered(before: Registry, points: seq<(string, Direction)>, after: Registry) {
    if points == [] then after == before
    else
      exists rest :: AllRegistered(before, points[..|points| - 1], rest) && LastRegistered(rest, points, after)
  }

  ghost predicate LastRegistered(before: Registry, points: seq<(string, Direction)>, after: Registry)
    requires points != []
  {
    Registered(before, points[|points| - 1].0, points[|points| - 1].1, after)
  }

  lemma NextRegistered(first: Registry, points: seq<(string, Direction)>, i: nat, before: Registry, after: Registry)
    requires i < |points| && AllRegistered(first, points[..i], before)
    requires Registered(before, points[i].0, points[i].1, after)
    ensures AllRegistered(first, points[..i + 1], after)
  {
    assert points[..i + 1][..i] == points[..i];
    assert LastRegistered(before, points[..i + 1], after);
  }

  lemma OneMaxIdx(meta: Registry, dir: Direction, m: int, m': int)
    requires IsMaxIdx(meta, meta.Keys, dir, m) && IsMaxIdx(meta, meta.Keys, dir, m')
    ensures m == m'
  {
  }

  /** The registrations determine the metadata. */
  lemma {:induction false} RegistrationsDetermine(before: Registry, points: seq<(string, Direction)>, a: Registry,
                                                  a': Registry)
    requires AllRegistered(before, points, a) && AllRegistered(before, points, a')
    ensures a == a'
  {
    if points != [] {
      var rest, last := points[..|points| - 1], points[|points| - 1];
      var r :| AllRegistered(before, rest, r) && LastRegistered(r, points, a);
      var r' :| AllRegistered(before, rest, r') && LastRegistered(r', points, a');
      RegistrationsDetermine(before, rest, r, r');
      if last.0 !in r {
        var m :| IsMaxIdx(r, r.Keys, last.1, m) && a == r[last.0 := Meter(last.1, m + 1)];
        var m' :| IsMaxIdx(r, r.Keys, last.1, m') && a' == r[last.0 := Meter(last.1, m' + 1)];
        OneMaxIdx(r, last.1, m, m');
      }
    }
  }

  class MetaStore {
    var meta: Registry

    method PrepareMetaInfoMap(name: string, dir: Direction) returns (info: Info)
      modifies this
      ensures Registered(old(meta), name, dir, meta)
      ensures name in meta && Describes(info, meta, meta.Keys)
    {
      info := CalcMetaInfo(meta);
      if name !in meta {
        ghost var before := meta;
        ghost var m := MaxIdx(info, dir);
        assert IsMaxIdx(meta, meta.Keys, dir, m);
        var counted := info;
        match dir {
          case Consumer =>
            info := info.(consumerCount := info.consumerCount + 1, maxConsumerIdx := info.maxConsumerIdx + 1);
            meta := meta[name := Meter(Consumer, info.maxConsumerIdx)];
          case Producer =>
            info := info.(producerCount := info.producerCount + 1, maxProducerIdx := info.maxProducerIdx + 1);
            meta := meta[name := Meter(Producer, info.maxProducerIdx)];
        }
        DescribesAgrees(counted, before, meta, before.Keys);
        CountMeterDescribes(counted, meta, before.Keys, name);
        assert before.Keys + {name} == meta.Keys;
        assert info == CountMeter(counted, meta[name]);
      }
    }

    /** The allocation loop of the spreadsheet import: the counters are kept along the loop and
        not read again from the metadata. */
    method RegisterAll(points: seq<(string, Direction)>) returns (info: Info)
      modifies this
      ensures AllRegistered(old(meta), points, meta)
      ensures Describes(info, meta, meta.Keys)
      ensures forall n | n in old(meta) :: n in meta && meta[n] == old(meta)[n]
      ensures forall i | 0 <= i < |points| :: points[i].0 in meta
      ensures Dense(old(meta)) ==> Dense(meta)
    {
      info := CalcMetaInfo(meta);
      for i := 0 to |points|
        invariant AllRegistered(old(meta), points[..i], meta)
        invariant Describes(info, meta, meta.Keys)
        invariant forall n | n in old(meta) :: n in meta && meta[n] == old(meta)[n]
        invariant forall k | 0 <= k < i :: points[k].0 in meta
        invariant Dense(old(meta)) ==> Dense(meta)
      {
        var (name, dir) := points[i];
        ghost var before := meta;
        if name !in meta {
          ghost var counted := info;
          var idx := MaxIdx(info, dir) + 1;
          assert IsMaxIdx(before, before.Keys, dir, MaxIdx(info, dir));
          meta := meta[name := Meter(dir, idx)];
          info := CountMeter(info, meta[name]);
          DescribesAgrees(counted, before, meta, before.Keys);
          CountMeterDescribes(counted, meta, before.Keys, name);
          assert before.Keys + {name} == meta.Keys;
          assert Registered(before, name, dir, meta);
          if Dense(before) {
            RegisterKeepsDense(before, name, dir, meta);
          }
        }
        NextRegistered(old(meta), points, i, before, meta);
      }
      assert points[..|points|] == points;
    }
  }

  lemma DescribesAgrees(info: Info, meta: Registry, meta': Registry, names: set<string>)
    requires names <= meta.Keys && names <= meta'.Keys && Describes(info, meta, names)
    requires forall n | n in names :: meta[n] == meta'[n]
    ensures Describes(info, meta', names)
  {
    forall dir
      ensures Count(info, dir) == |Among(meta', names, dir)|
      ensures IsMaxIdx(meta', names, dir, MaxIdx(info, dir))
    {
      assert Among(meta', names, dir) == Among(meta, names, dir);
      assert IsMaxIdx(meta, names, dir, MaxIdx(info, dir));
    }
  }

  ghost predicate Taken(meta: Registry, dir: Direction, k: nat) {
    exists n :: n in Names(meta, dir) && meta[n].sourceIdx == k
  }

  /** The indices of each direction are exactly 0 to n-1 and no two meters share one. */
  ghost predicate Dense(meta: Registry) {
    forall dir :: DenseIn(meta, dir)
  }

  ghost predicate DenseIn(meta: Registry, dir: Direction) {
    && (forall k: nat :: Taken(meta, dir, k) <==> k < |Names(meta, dir)|)
    && (forall n, n' | n in Names(meta, dir) && n' in Names(meta, dir) && meta[n].sourceIdx == meta[n'].sourceIdx ::
      n == n')
  }

  /** Behind the greatest index of a dense direction comes the number of its meters. */
  lemma NextIsCount(meta: Registry, dir: Direction, m: int)
    requires DenseIn(meta, dir) && IsMaxIdx(meta, meta.Keys, dir, m)
    ensures m + 1 == |Names(meta, dir)|
  {
    if |Names(meta, dir)| > 0 {
      assert Taken(meta, dir, |Names(meta, dir)| - 1);
    }
    if m >= 0 {
      assert Taken(meta, dir, m);
    }
  }

  lemma AddTakes(before: Registry, name: string, dir: Direction, after: Registry, d: Direction, k: nat)
    requires name !in before && after == before[name := Meter(dir, |Names(before, dir)|)]
    ensures Taken(after, d, k) <==> Taken(before, d, k) || (d == dir && k == |Names(before, dir)|)
  {
    if Taken(before, d, k) {
      var n :| n in Names(before, d) && before[n].sourceIdx == k;
      assert n in Names(after, d);
    }
    if d == dir && k == |Names(before, dir)| {
      assert name in Names(after, d);
    }
  }

  lemma AddKeepsDense(before: Registry, name: string, dir: Direction, after: Registry, d: Direction)
    requires name !in before && after == before[name := Meter(dir, |Names(before, dir)|)]
    requires DenseIn(before, d)
    ensures DenseIn(after, d)
  {
    assert Names(after, d) == if d == dir then Names(before, d) + {name} else Names(before, d);
    forall k: nat
      ensures Taken(after, d, k) <==> k < |Names(after, d)|
    {
      AddTakes(before, name, dir, after, d, k);
    }
    forall n, n' | n in Names(after, d) && n' in Names(after, d) && after[n].sourceIdx == after[n'].sourceIdx
      ensures n == n'
    {
      assert n != name ==> Taken(before, d, after[n].sourceIdx);
      assert n' != name ==> Taken(before, d, after[n'].sourceIdx);
    }
  }

  lemma RegisterKeepsDense(before: Registry, name: string, dir: Direction, after: Registry)
    requires Dense(before) && Registered(before, name, dir, after)
    ensures Dense(after)
  {
    if name !in before {
      var m :| IsMaxIdx(before, before.Keys, dir, m) && after == before[name := Meter(dir, m + 1)];
      assert DenseIn(before, dir);
      NextIsCount(before, dir, m);
      forall d ensures DenseIn(after, d) {
        assert DenseIn(before, d);
        AddKeepsDense(before, name, dir, after, d);
      }
    }
  }

  /** A run of registrations from the empty store. */
  ghost predicate Run(states: seq<Registry>, points: seq<(string, Direction)>) {
    && |states| == |points| + 1
    && states[0] == map[]
    && forall i | 0 <= i < |points| :: Registered(states[i], points[i].0, points[i].1, states[i + 1])
  }

  /** After any run from the empty store the indices are dense, every registered point is known,
      and a meter never changes its index or direction later in the run. */
  lemma {:induction false} RunIsDense(states: seq<Registry>, points: seq<(string, Direction)>, n: nat)
    requires Run(states, points) && n < |states|
    ensures Dense(states[n])
    ensures forall i, name | 0 <= i <= n && name in states[i] :: name in states[n] && states[n][name] == states[i][name]
    ensures forall i | 0 <= i < n :: points[i].0 in states[n]
  {
    if n == 0 {
      forall dir ensures DenseIn(states[0], dir) {
        assert Names(states[0], dir) == {};
      }
    } else {
      RunIsDense(states, points, n - 1);
      RegisterKeepsDense(states[n - 1], points[n - 1].0, points[n - 1].1, states[n]);
      assert points[n - 1].0 in states[n];
    }
  }

  /** The cells of a meter in a row. */
  predicate OwnCell(m: Meter, dir: Direction, cell: nat) {
    m.dir == dir && FirstOf(dir, m.sourceIdx) <= cell < FirstOf(dir, m.sourceIdx) + Width(dir)
  }

  /** With dense indices a cell belongs to one meter only. */
  lemma CellsAreDisjoint(meta: Registry, n: string, n': string, dir: Direction, cell: nat)
    requires Dense(meta) && n in meta && n' in meta
    requires OwnCell(meta[n], dir, cell) && OwnCell(meta[n'], dir, cell)
    ensures n == n'
  {
    assert DenseIn(meta, dir);
    assert n in Names(meta, dir) && n' in Names(meta, dir);
  }
}
