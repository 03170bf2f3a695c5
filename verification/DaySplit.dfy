/** Splitting an energy message into one message per local day. */
module DaySplit {
  import opened Numbers
  import opened EnergyMessages

  const DAY_MS: int := 86400000
  const QUARTER_MS: int := 900000

  /** The instant of the local midnight before ts. */
  function DayStart(ts: int, zone: int): int {
    (ts + zone * 1000) / DAY_MS * DAY_MS - zone * 1000
  }

  /** The part of a value inside a window, if there is one. The amount is not divided. */
  function Piece(v: EnergyValue, lo: int, hi: int): seq<EnergyValue> {
    var from, to := Max(v.from, lo), Min(v.to, hi);
    if from < to then [EnergyValue(from, to, v.method_, v.value)] else []
  }

  function Pieces(vs: seq<EnergyValue>, lo: int, hi: int): (ps: seq<EnergyValue>)
    ensures forall i | 0 <= i < |ps| :: lo <= ps[i].from < ps[i].to <= hi
  {
    if vs == [] then [] else Pieces(vs[..|vs| - 1], lo, hi) + Piece(vs[|vs| - 1], lo, hi)
  }

  function DayData(data: seq<EnergyData>, lo: int, hi: int): (ds: seq<EnergyData>)
    ensures forall i | 0 <= i < |ds| :: ds[i].values != []
    ensures forall i, j | 0 <= i < |ds| && 0 <= j < |ds[i].values| ::
      lo <= ds[i].values[j].from < ds[i].values[j].to <= hi
  {
    if data == [] then []
    else
      var rest, last := DayData(data[..|data| - 1], lo, hi), data[|data| - 1];
      var ps := Pieces(last.values, lo, hi);
      if ps == [] then rest else rest + [EnergyData(last.code, ps)]
  }

  /** The bounds of the window of a day. */
  function Lo(src: Energy, day: int): int {
    Max(day, src.start)
  }

  function Hi(src: Energy, day: int): int {
    Min(day + DAY_MS, src.end)
  }

  /** The start of day k when day 0 starts at `first`. */
  function DayAt(first: int, k: int): int {
    first + k * DAY_MS
  }

  /** The message of a day, if any value touches it. */
  function DayGroup(src: Energy, day: int): (g: seq<Energy>)
    ensures |g| <= 1
  {
    var ds := DayData(src.data, Lo(src, day), Hi(src, day));
    if ds == [] then [] else [Energy(Lo(src, day), Hi(src, day) - QUARTER_MS, ds)]
  }

  /** The messages of the first k days. */
  function Groups(src: Energy, first: int, k: nat): seq<Energy> {
    if k == 0 then [] else Groups(src, first, k - 1) + DayGroup(src, DayAt(first, k - 1))
  }

  function DayCount(src: Energy, zone: int): nat {
    var a, b := DayStart(src.start, zone), DayStart(src.end, zone);
    if b < a then 0 else (b - a) / DAY_MS + 1
  }

  function Split(src: Energy, zone: int): seq<Energy> {
    Groups(src, DayStart(src.start, zone), DayCount(src, zone))
  }

  method SplitDay(data: seq<EnergyData>, lo: int, hi: int) returns (dayData: seq<EnergyData>)
    ensures dayData == DayData(data, lo, hi)
  {
    dayData := [];
    for k := 0 to |data|
      invariant dayData == DayData(data[..k], lo, hi)
    {
      var meter := data[k];
      assert data[..k + 1][..k] == data[..k];
      var values := [];
      for i := 0 to |meter.values|
        invariant values == Pieces(meter.values[..i], lo, hi)
      {
        assert meter.values[..i + 1][..i] == meter.values[..i];
        var v := meter.values[i];
        var from, to := Max(v.from, lo), Min(v.to, hi);
        if from < to {
          values := values + [EnergyValue(from, to, v.method_, v.value)];
        }
      }
      assert meter.values[..|meter.values|] == meter.values;
      if |values| > 0 {
        dayData := dayData + [EnergyData(meter.code, values)];
      }
    }
    assert data[..|data|] == data;
  }

  lemma DayLoop(src: Energy, zone: int, k: nat)
    ensures k < DayCount(src, zone) <==> DayAt(DayStart(src.start, zone), k) <= DayStart(src.end, zone)
  {
    var a, b := (src.start + zone * 1000) / DAY_MS, (src.end + zone * 1000) / DAY_MS;
    assert (b * DAY_MS - a * DAY_MS) / DAY_MS == b - a;
  }

  lemma NextGroups(src: Energy, first: int, k: nat, day: int, lo: int, hi: int, ds: seq<EnergyData>)
    requires day == DayAt(first, k) && lo == Lo(src, day) && hi == Hi(src, day) && ds == DayData(src.data, lo, hi)
    ensures Groups(src, first, k + 1) ==
            Groups(src, first, k) + if ds == [] then [] else [Energy(lo, hi - QUARTER_MS, ds)]
  {
  }

  /** The loop over the days from midnight to midnight. */
  method SplitDays(src: Energy, startDay: int, endDay: int, ghost n: nat) returns (result: seq<Energy>)
    requires forall k: nat :: k < n <==> DayAt(startDay, k) <= endDay
    ensures result == Groups(src, startDay, n)
  {
    result := [];
    var day := startDay;
    ghost var k: nat := 0;
    while day <= endDay
      invariant day == DayAt(startDay, k) && k <= n
      invariant result == Groups(src, startDay, k)
      decreases n - k
    {
      var lo, hi := Max(day, src.start), Min(day + DAY_MS, src.end);
      var dayData := SplitDay(src.data, lo, hi);
      NextGroups(src, startDay, k, day, lo, hi, dayData);
      if |dayData| > 0 {
        result := result + [Energy(lo, hi - QUARTER_MS, dayData)];
      }
      day := day + DAY_MS;
      k := k + 1;
    }
  }

  method SplitEnergyByDay(src: Energy, zone: int) returns (result: seq<Energy>)
    ensures result == Split(src, zone)
  {
    forall k: nat ensures k < DayCount(src, zone) <==> DayAt(DayStart(src.start, zone), k) <= DayStart(src.end, zone) {
      DayLoop(src, zone, k);
    }
    result := SplitDays(src, DayStart(src.start, zone), DayStart(src.end, zone), DayCount(src, zone));
  }

  // ---- The pieces of one value ----------------------------------------------------------

  /** The pieces of a value in the windows of the first k days. */
  function ValuePieces(v: EnergyValue, src: Energy, first: int, k: nat): seq<EnergyValue> {
    if k == 0 then []
    else
      var day := DayAt(first, k - 1);
      ValuePieces(v, src, first, k - 1) + Piece(v, Lo(src, day), Hi(src, day))
  }

  function AllPieces(v: EnergyValue, src: Energy, zone: int): seq<EnergyValue> {
    ValuePieces(v, src, DayStart(src.start, zone), DayCount(src, zone))
  }

  /** The pieces cover the interval from a to b without gap or overlap, in order. */
  predicate Tiles(ps: seq<EnergyValue>, a: int, b: int) {
    if ps == [] then b <= a
    else
      var last := ps[|ps| - 1];
      last.from < last.to == b && (if |ps| == 1 then last.from == a else Tiles(ps[..|ps| - 1], a, last.from))
  }

  lemma {:induction false} TilesGoUp(ps: seq<EnergyValue>, a: int, b: int)
    requires Tiles(ps, a, b) && ps != []
    ensures a < b
  {
    if |ps| > 1 {
      TilesGoUp(ps[..|ps| - 1], a, ps[|ps| - 1].from);
    }
  }

  lemma {:induction false} ValuePiecesTile(v: EnergyValue, src: Energy, first: int, k: nat)
    requires first <= src.start
    ensures Tiles(ValuePieces(v, src, first, k), Max(v.from, src.start), Min(Min(v.to, src.end), DayAt(first, k)))
  {
    if k > 0 {
      ValuePiecesTile(v, src, first, k - 1);
      var rest := ValuePieces(v, src, first, k - 1);
      var ps := ValuePieces(v, src, first, k);
      if |ps| > |rest| {
        assert ps[..|ps| - 1] == rest;
        if rest != [] {
          TilesGoUp(rest, Max(v.from, src.start), Min(Min(v.to, src.end), DayAt(first, k - 1)));
        }
      } else {
        assert ps == rest;
        if rest != [] {
          TilesGoUp(rest, Max(v.from, src.start), Min(Min(v.to, src.end), DayAt(first, k - 1)));
        }
      }
    }
  }

  /** The windows of the days cover the message. */
  lemma DaysCoverMessage(src: Energy, zone: int)
    requires src.start <= src.end
    ensures DayStart(src.start, zone) <= src.start
    ensures src.end < DayStart(src.start, zone) + DayCount(src, zone) * DAY_MS
  {
    var a, b := (src.start + zone * 1000) / DAY_MS, (src.end + zone * 1000) / DAY_MS;
    assert (b * DAY_MS - a * DAY_MS) / DAY_MS == b - a;
  }

  lemma {:induction false} PiecesKeepAmount(v: EnergyValue, src: Energy, first: int, k: nat)
    ensures forall p | p in ValuePieces(v, src, first, k) :: p.value == v.value && p.method_ == v.method_
  {
    if k > 0 {
      PiecesKeepAmount(v, src, first, k - 1);
    }
  }

  /** The pieces of a value tile exactly its part inside the message, each with its full amount and its
      method. */
  lemma SplitTiles(v: EnergyValue, src: Energy, zone: int)
    requires src.start <= src.end
    ensures Tiles(AllPieces(v, src, zone), Max(v.from, src.start), Min(v.to, src.end))
    ensures forall p | p in AllPieces(v, src, zone) :: p.value == v.value && p.method_ == v.method_
  {
    DaysCoverMessage(src, zone);
    PiecesKeepAmount(v, src, DayStart(src.start, zone), DayCount(src, zone));
    ValuePiecesTile(v, src, DayStart(src.start, zone), DayCount(src, zone));
  }

  /** A value inside the message that does not cross a midnight. */
  predicate InOneDay(v: EnergyValue, src: Energy, zone: int) {
    src.start <= v.from < v.to <= src.end && DayStart(v.from, zone) == DayStart(v.to - 1, zone)
  }

  /** The window of the value's own day keeps it whole; the windows of other days miss it. */
  lemma PieceOfDay(v: EnergyValue, src: Energy, first: int, j: int, k: nat)
    requires src.start <= v.from < v.to <= src.end
    requires first + j * DAY_MS <= v.from && v.to <= first + (j + 1) * DAY_MS
    ensures var day := DayAt(first, k); Piece(v, Lo(src, day), Hi(src, day)) == if j == k then [v] else []
  {
  }

  lemma {:induction false} OneDayPieces(v: EnergyValue, src: Energy, first: int, j: int, k: nat)
    requires src.start <= v.from < v.to <= src.end && j >= 0
    requires first + j * DAY_MS <= v.from && v.to <= first + (j + 1) * DAY_MS
    ensures ValuePieces(v, src, first, k) == if j < k then [v] else []
  {
    if k > 0 {
      OneDayPieces(v, src, first, j, k - 1);
      PieceOfDay(v, src, first, j, k - 1);
    }
  }

  /** The day of a value, counted from the day of the message's start. */
  lemma DayOfValue(v: EnergyValue, src: Energy, zone: int) returns (j: int)
    requires InOneDay(v, src, zone)
    ensures 0 <= j < DayCount(src, zone)
    ensures DayStart(src.start, zone) + j * DAY_MS <= v.from && v.to <= DayStart(src.start, zone) + (j + 1) * DAY_MS
  {
    var a, b := (src.start + zone * 1000) / DAY_MS, (v.from + zone * 1000) / DAY_MS;
    DaysCoverMessage(src, zone);
    j := b - a;
    assert DayStart(v.to - 1, zone) == b * DAY_MS - zone * 1000;
  }

  /** Such a value appears once and unchanged. */
  lemma InOneDayOnce(v: EnergyValue, src: Energy, zone: int)
    requires InOneDay(v, src, zone)
    ensures AllPieces(v, src, zone) == [v]
  {
    var j := DayOfValue(v, src, zone);
    OneDayPieces(v, src, DayStart(src.start, zone), j, DayCount(src, zone));
  }

  // ---- Energy per code ------------------------------------------------------------------

  function EnergyOf(vs: seq<EnergyValue>): real {
    if vs == [] then 0.0 else EnergyOf(vs[..|vs| - 1]) + vs[|vs| - 1].value
  }

  /** The energy a message carries for one code. */
  function CodeEnergy(data: seq<EnergyData>, code: Code): real {
    if data == [] then 0.0
    else
      var last := data[|data| - 1];
      CodeEnergy(data[..|data| - 1], code) + if last.code == code then EnergyOf(last.values) else 0.0
  }

  function GroupsEnergy(groups: seq<Energy>, code: Code): real {
    if groups == [] then 0.0
    else GroupsEnergy(groups[..|groups| - 1], code) + CodeEnergy(groups[|groups| - 1].data, code)
  }

  /** The energy of all pieces of a list of values in the first k days. */
  function PiecesEnergy(vs: seq<EnergyValue>, src: Energy, first: int, k: nat): real {
    if vs == [] then 0.0
    else PiecesEnergy(vs[..|vs| - 1], src, first, k) + EnergyOf(ValuePieces(vs[|vs| - 1], src, first, k))
  }

  function CodePieces(data: seq<EnergyData>, code: Code, src: Energy, first: int, k: nat): real {
    if data == [] then 0.0
    else
      var last := data[|data| - 1];
      CodePieces(data[..|data| - 1], code, src, first, k)
      + if last.code == code then PiecesEnergy(last.values, src, first, k) else 0.0
  }

  lemma EnergyOfAppend(vs: seq<EnergyValue>, ps: seq<EnergyValue>)
    requires |ps| <= 1
    ensures EnergyOf(vs + ps) == EnergyOf(vs) + EnergyOf(ps)
    ensures |ps| == 1 ==> EnergyOf(ps) == ps[0].value
  {
    if ps == [] {
      assert vs + ps == vs;
    } else {
      assert (vs + ps)[..|vs|] == vs && ps[..0] == [];
    }
  }

  lemma NextDayValue(v: EnergyValue, src: Energy, first: int, k: nat, day: int)
    requires day == DayAt(first, k)
    ensures EnergyOf(ValuePieces(v, src, first, k + 1)) ==
      EnergyOf(ValuePieces(v, src, first, k)) + EnergyOf(Piece(v, Lo(src, day), Hi(src, day)))
  {
    EnergyOfAppend(ValuePieces(v, src, first, k), Piece(v, Lo(src, day), Hi(src, day)));
  }

  lemma {:induction false} NextDayValues(vs: seq<EnergyValue>, src: Energy, first: int, k: nat, day: int)
    requires day == DayAt(first, k)
    ensures PiecesEnergy(vs, src, first, k + 1) ==
      PiecesEnergy(vs, src, first, k) + EnergyOf(Pieces(vs, Lo(src, day), Hi(src, day)))
  {
    if vs != [] {
      var rest, last := vs[..|vs| - 1], vs[|vs| - 1];
      NextDayValues(rest, src, first, k, day);
      NextDayValue(last, src, first, k, day);
      EnergyOfAppend(Pieces(rest, Lo(src, day), Hi(src, day)), Piece(last, Lo(src, day), Hi(src, day)));
    }
  }

  lemma CodeEnergyAppend(data: seq<EnergyData>, d: EnergyData, code: Code)
    ensures CodeEnergy(data + [d], code) == CodeEnergy(data, code) + if d.code == code then EnergyOf(d.values) else 0.0
  {
    assert (data + [d])[..|data|] == data;
  }

  lemma {:induction false} NextDayCodes(data: seq<EnergyData>, code: Code, src: Energy, first: int, k: nat, day: int)
    requires day == DayAt(first, k)
    ensures CodePieces(data, code, src, first, k + 1)
         == CodePieces(data, code, src, first, k) + CodeEnergy(DayData(data, Lo(src, day), Hi(src, day)), code)
  {
    if data != [] {
      var rest, last := data[..|data| - 1], data[|data| - 1];
      NextDayCodes(rest, code, src, first, k, day);
      NextDayValues(last.values, src, first, k, day);
      var ps := Pieces(last.values, Lo(src, day), Hi(src, day));
      CodeEnergyAppend(DayData(rest, Lo(src, day), Hi(src, day)), EnergyData(last.code, ps), code);
    }
  }

  lemma {:induction false} NoPieces(data: seq<EnergyData>, vs: seq<EnergyValue>, code: Code, src: Energy, first: int)
    ensures PiecesEnergy(vs, src, first, 0) == 0.0
    ensures CodePieces(data, code, src, first, 0) == 0.0
    decreases |data|, |vs|
  {
    if vs != [] {
      NoPieces(data, vs[..|vs| - 1], code, src, first);
    } else if data != [] {
      NoPieces(data[..|data| - 1], data[|data| - 1].values, code, src, first);
    }
  }

  lemma GroupsEnergyAppend(groups: seq<Energy>, g: seq<Energy>, code: Code)
    requires |g| <= 1
    ensures GroupsEnergy(groups + g, code) ==
            GroupsEnergy(groups, code) + if g == [] then 0.0 else CodeEnergy(g[0].data, code)
  {
    if g == [] {
      assert groups + g == groups;
    } else {
      assert (groups + g)[..|groups|] == groups;
    }
  }

  lemma NextGroupsEnergy(src: Energy, code: Code, first: int, k: nat, day: int)
    requires day == DayAt(first, k)
    ensures GroupsEnergy(Groups(src, first, k + 1), code)
         == GroupsEnergy(Groups(src, first, k), code) + CodeEnergy(DayData(src.data, Lo(src, day), Hi(src, day)), code)
  {
    GroupsEnergyAppend(Groups(src, first, k), DayGroup(src, day), code);
  }

  lemma CarryNone(src: Energy, code: Code, first: int)
    ensures GroupsEnergy(Groups(src, first, 0), code) == CodePieces(src.data, code, src, first, 0)
  {
    NoPieces(src.data, [], code, src, first);
  }

  lemma CarryNext(src: Energy, code: Code, first: int, k: nat, n: nat)
    requires n == k + 1 && GroupsEnergy(Groups(src, first, k), code) == CodePieces(src.data, code, src, first, k)
    ensures GroupsEnergy(Groups(src, first, n), code) == CodePieces(src.data, code, src, first, n)
  {
    NextGroupsEnergy(src, code, first, k, DayAt(first, k));
    NextDayCodes(src.data, code, src, first, k, DayAt(first, k));
  }

  /** The daily messages carry for each code the energy of all pieces of its values. */
  lemma {:induction false} GroupsCarryPieces(src: Energy, code: Code, first: int, k: nat)
    ensures GroupsEnergy(Groups(src, first, k), code) == CodePieces(src.data, code, src, first, k)
  {
    if k == 0 {
      CarryNone(src, code, first);
    } else {
      GroupsCarryPieces(src, code, first, k - 1);
      CarryNext(src, code, first, k - 1, k);
    }
  }

  ghost predicate AllInOneDay(src: Energy, zone: int) {
    forall i, j | 0 <= i < |src.data| && 0 <= j < |src.data[i].values| :: InOneDay(src.data[i].values[j], src, zone)
  }

  lemma {:induction false} WholeValues(vs: seq<EnergyValue>, src: Energy, first: int, k: nat)
    requires forall j | 0 <= j < |vs| :: ValuePieces(vs[j], src, first, k) == [vs[j]]
    ensures PiecesEnergy(vs, src, first, k) == EnergyOf(vs)
  {
    if vs != [] {
      WholeValues(vs[..|vs| - 1], src, first, k);
      EnergyOfAppend([], [vs[|vs| - 1]]);
    }
  }

  lemma {:induction false} WholeCodes(data: seq<EnergyData>, code: Code, src: Energy, first: int, k: nat)
    requires forall i, j | 0 <= i < |data| && 0 <= j < |data[i].values| ::
               ValuePieces(data[i].values[j], src, first, k) == [data[i].values[j]]
    ensures CodePieces(data, code, src, first, k) == CodeEnergy(data, code)
  {
    if data != [] {
      WholeCodes(data[..|data| - 1], code, src, first, k);
      WholeValues(data[|data| - 1].values, src, first, k);
    }
  }

  /** Energy per code is conserved when no value crosses a midnight or leaves the message. */
  lemma SplitConservesEnergy(src: Energy, zone: int, code: Code)
    requires AllInOneDay(src, zone)
    ensures GroupsEnergy(Split(src, zone), code) == CodeEnergy(src.data, code)
  {
    var first, k := DayStart(src.start, zone), DayCount(src, zone);
    GroupsCarryPieces(src, code, first, k);
    forall i, j | 0 <= i < |src.data| && 0 <= j < |src.data[i].values|
      ensures ValuePieces(src.data[i].values[j], src, first, k) == [src.data[i].values[j]]
    {
      InOneDayOnce(src.data[i].values[j], src, zone);
    }
    WholeCodes(src.data, code, src, first, k);
  }

  /** One more piece of a value carries the whole value once more. */
  lemma PieceAmount(ps: seq<EnergyValue>, v: EnergyValue, lo: int, hi: int)
    requires EnergyOf(ps) == Times(|ps|, v.value)
    ensures EnergyOf(ps + Piece(v, lo, hi)) == Times(|ps + Piece(v, lo, hi)|, v.value)
  {
    EnergyOfAppend(ps, Piece(v, lo, hi));
  }

  lemma {:induction false} SameAmounts(v: EnergyValue, src: Energy, first: int, k: nat)
    ensures EnergyOf(ValuePieces(v, src, first, k)) == Times(|ValuePieces(v, src, first, k)|, v.value)
  {
    if k > 0 {
      SameAmounts(v, src, first, k - 1);
      PieceAmount(ValuePieces(v, src, first, k - 1), v, Lo(src, DayAt(first, k - 1)), Hi(src, DayAt(first, k - 1)));
    }
  }

  // ---- How often a value is counted -------------------------------------------------------

  function LocalDay(ts: int, zone: int): int {
    (ts + zone * 1000) / DAY_MS
  }

  /** The part of a value inside the message. */
  function ClippedFrom(v: EnergyValue, src: Energy): int {
    Max(v.from, src.start)
  }

  function ClippedTo(v: EnergyValue, src: Energy): int {
    Min(v.to, src.end)
  }

  /** The local days that this part touches. */
  function DaysTouched(v: EnergyValue, src: Energy, zone: int): nat {
    var a, b := ClippedFrom(v, src), ClippedTo(v, src);
    if b <= a then 0 else LocalDay(b - 1, zone) - LocalDay(a, zone) + 1
  }

  lemma DayBounds(ts: int, zone: int)
    ensures LocalDay(ts, zone) * DAY_MS - zone * 1000 <= ts < (LocalDay(ts, zone) + 1) * DAY_MS - zone * 1000
  {
  }

  /** Day d, counted from `first`, has a piece exactly between the days of the first and of the last
      instant. */
  lemma DayHasPiece(v: EnergyValue, src: Energy, first: int, p: int, q: int, d: int)
    requires var a, b := ClippedFrom(v, src), ClippedTo(v, src);
      a < b && DayAt(first, p) <= a < DayAt(first, p + 1) && DayAt(first, q) <= b - 1 < DayAt(first, q + 1)
    ensures var day := DayAt(first, d); |Piece(v, Lo(src, day), Hi(src, day))| == if p <= d <= q then 1 else 0
  {
  }

  lemma {:induction false} PiecesBetween(v: EnergyValue, src: Energy, first: int, p: nat, q: int, k: nat)
    requires var a, b := ClippedFrom(v, src), ClippedTo(v, src);
      a < b && DayAt(first, p) <= a < DayAt(first, p + 1) && DayAt(first, q) <= b - 1 < DayAt(first, q + 1)
    ensures |ValuePieces(v, src, first, k)| == if k <= p then 0 else Min(k - 1, q) - p + 1
  {
    if k > 0 {
      PiecesBetween(v, src, first, p, q, k - 1);
      DayHasPiece(v, src, first, p, q, k - 1);
    }
  }

  lemma {:induction false} NoPieceOutside(v: EnergyValue, src: Energy, first: int, k: nat)
    requires ClippedTo(v, src) <= ClippedFrom(v, src)
    ensures ValuePieces(v, src, first, k) == []
  {
    if k > 0 {
      NoPieceOutside(v, src, first, k - 1);
    }
  }

  lemma DaysInOrder(x: int, y: int, zone: int)
    requires x <= y
    ensures LocalDay(x, zone) <= LocalDay(y, zone)
  {
  }

  lemma DayCountIs(src: Energy, zone: int)
    requires src.start <= src.end
    ensures DayCount(src, zone) == LocalDay(src.end, zone) - LocalDay(src.start, zone) + 1
  {
    var a, b := LocalDay(src.start, zone), LocalDay(src.end, zone);
    DaysInOrder(src.start, src.end, zone);
    assert (b * DAY_MS - a * DAY_MS) / DAY_MS == b - a;
  }

  /** The number of pieces in closed form: one for each local day that the value's part inside the
      message touches. */
  lemma PieceCount(v: EnergyValue, src: Energy, zone: int)
    ensures |AllPieces(v, src, zone)| == DaysTouched(v, src, zone)
  {
    var a, b := ClippedFrom(v, src), ClippedTo(v, src);
    var first, k := DayStart(src.start, zone), DayCount(src, zone);
    if b <= a {
      NoPieceOutside(v, src, first, k);
    } else {
      var f, p, q := LocalDay(src.start, zone), LocalDay(a, zone), LocalDay(b - 1, zone);
      DayBounds(a, zone);
      DayBounds(b - 1, zone);
      DaysInOrder(src.start, a, zone);
      DaysInOrder(a, b - 1, zone);
      DaysInOrder(b - 1, src.end, zone);
      DayCountIs(src, zone);
      PiecesBetween(v, src, first, p - f, q - f, k);
    }
  }

  /** The values of a message as the split carries them: each once per day it touches. */
  function CarriedValues(vs: seq<EnergyValue>, src: Energy, zone: int): real {
    if vs == [] then 0.0
    else
      var v := vs[|vs| - 1];
      CarriedValues(vs[..|vs| - 1], src, zone) + Times(DaysTouched(v, src, zone), v.value)
  }

  /** All values of the entries with a code, in order. */
  function ValuesOf(data: seq<EnergyData>, code: Code): seq<EnergyValue> {
    if data == [] then []
    else
      var last := data[|data| - 1];
      ValuesOf(data[..|data| - 1], code) + if last.code == code then last.values else []
  }

  lemma {:induction false} SumsConcat(a: seq<EnergyValue>, b: seq<EnergyValue>, src: Energy, zone: int)
    ensures EnergyOf(a + b) == EnergyOf(a) + EnergyOf(b)
    ensures CarriedValues(a + b, src, zone) == CarriedValues(a, src, zone) + CarriedValues(b, src, zone)
  {
    if b == [] {
      assert a + b == a;
    } else {
      SumsConcat(a, b[..|b| - 1], src, zone);
      assert (a + b)[..|a + b| - 1] == a + b[..|b| - 1];
    }
  }

  lemma {:induction false} PiecesAreCarried(vs: seq<EnergyValue>, src: Energy, zone: int)
    ensures PiecesEnergy(vs, src, DayStart(src.start, zone), DayCount(src, zone)) == CarriedValues(vs, src, zone)
  {
    if vs != [] {
      PiecesAreCarried(vs[..|vs| - 1], src, zone);
      PieceCount(vs[|vs| - 1], src, zone);
      SameAmounts(vs[|vs| - 1], src, DayStart(src.start, zone), DayCount(src, zone));
    }
  }

  lemma {:induction false} CodesAreCarried(data: seq<EnergyData>, code: Code, src: Energy, zone: int)
    ensures CodeEnergy(data, code) == EnergyOf(ValuesOf(data, code))
    ensures CodePieces(data, code, src, DayStart(src.start, zone), DayCount(src, zone))
         == CarriedValues(ValuesOf(data, code), src, zone)
  {
    if data != [] {
      var rest, last := data[..|data| - 1], data[|data| - 1];
      CodesAreCarried(rest, code, src, zone);
      PiecesAreCarried(last.values, src, zone);
      SumsConcat(ValuesOf(rest, code), if last.code == code then last.values else [], src, zone);
    }
  }

  /** For every message: the daily messages carry each value of a code once for each local day it
      touches inside the message. */
  lemma SplitCarries(src: Energy, zone: int, code: Code)
    ensures CodeEnergy(src.data, code) == EnergyOf(ValuesOf(src.data, code))
    ensures GroupsEnergy(Split(src, zone), code) == CarriedValues(ValuesOf(src.data, code), src, zone)
  {
    GroupsCarryPieces(src, code, DayStart(src.start, zone), DayCount(src, zone));
    CodesAreCarried(src.data, code, src, zone);
  }

  /** What a value loses and gains by the split. */
  function Dropped(v: EnergyValue, src: Energy, zone: int): real {
    if DaysTouched(v, src, zone) == 0 then v.value else 0.0
  }

  function Repeated(v: EnergyValue, src: Energy, zone: int): real {
    if DaysTouched(v, src, zone) == 0 then 0.0 else Times(DaysTouched(v, src, zone) - 1, v.value)
  }

  function DroppedValues(vs: seq<EnergyValue>, src: Energy, zone: int): real {
    if vs == [] then 0.0 else DroppedValues(vs[..|vs| - 1], src, zone) + Dropped(vs[|vs| - 1], src, zone)
  }

  function RepeatedValues(vs: seq<EnergyValue>, src: Energy, zone: int): real {
    if vs == [] then 0.0 else RepeatedValues(vs[..|vs| - 1], src, zone) + Repeated(vs[|vs| - 1], src, zone)
  }

  lemma {:induction false} ValuesBalance(vs: seq<EnergyValue>, src: Energy, zone: int)
    ensures CarriedValues(vs, src, zone) + DroppedValues(vs, src, zone)
         == EnergyOf(vs) + RepeatedValues(vs, src, zone)
  {
    if vs != [] {
      ValuesBalance(vs[..|vs| - 1], src, zone);
    }
  }

  /** For every message: the energy per code is conserved exactly when the values that lie outside
      the message amount to the repetitions of those that cross a midnight. */
  lemma ConservedExactly(src: Energy, zone: int, code: Code)
    ensures var vs := ValuesOf(src.data, code);
      && GroupsEnergy(Split(src, zone), code) + DroppedValues(vs, src, zone)
         == CodeEnergy(src.data, code) + RepeatedValues(vs, src, zone)
      && (GroupsEnergy(Split(src, zone), code) == CodeEnergy(src.data, code)
          <==> DroppedValues(vs, src, zone) == RepeatedValues(vs, src, zone))
  {
    SplitCarries(src, zone, code);
    ValuesBalance(ValuesOf(src.data, code), src, zone);
  }

  /** The part of a value inside the message lies in one local day. */
  predicate InOneLocalDay(v: EnergyValue, src: Energy, zone: int) {
    ClippedFrom(v, src) < ClippedTo(v, src)
    && LocalDay(ClippedFrom(v, src), zone) == LocalDay(ClippedTo(v, src) - 1, zone)
  }

  predicate AllKept(vs: seq<EnergyValue>, src: Energy, zone: int) {
    forall j | 0 <= j < |vs| :: vs[j].value == 0.0 || InOneLocalDay(vs[j], src, zone)
  }

  predicate NoneCutOff(vs: seq<EnergyValue>, src: Energy) {
    forall j | 0 <= j < |vs| :: vs[j].value == 0.0 || ClippedFrom(vs[j], src) < ClippedTo(vs[j], src)
  }

  predicate NonNegative(vs: seq<EnergyValue>) {
    forall j | 0 <= j < |vs| :: vs[j].value >= 0.0
  }

  lemma OneDayOnce(v: EnergyValue, src: Energy, zone: int)
    ensures InOneLocalDay(v, src, zone) <==> DaysTouched(v, src, zone) == 1
    ensures ClippedFrom(v, src) < ClippedTo(v, src) <==> DaysTouched(v, src, zone) >= 1
  {
    if ClippedFrom(v, src) < ClippedTo(v, src) {
      DaysInOrder(ClippedFrom(v, src), ClippedTo(v, src) - 1, zone);
    }
  }

  lemma ValueKept(v: EnergyValue, src: Energy, zone: int)
    requires v.value >= 0.0 && (v.value == 0.0 || ClippedFrom(v, src) < ClippedTo(v, src))
    ensures Repeated(v, src, zone) >= 0.0 && Dropped(v, src, zone) == 0.0
    ensures Repeated(v, src, zone) == 0.0 <==> v.value == 0.0 || InOneLocalDay(v, src, zone)
  {
    OneDayOnce(v, src, zone);
    var n := DaysTouched(v, src, zone);
    if n > 1 {
      TimesSign(n - 1, v.value);
    }
  }

  lemma {:induction false} ValuesKept(vs: seq<EnergyValue>, src: Energy, zone: int)
    requires NonNegative(vs) && NoneCutOff(vs, src)
    ensures DroppedValues(vs, src, zone) == 0.0 <= RepeatedValues(vs, src, zone)
    ensures RepeatedValues(vs, src, zone) == 0.0 <==> AllKept(vs, src, zone)
  {
    if vs != [] {
      ValuesKept(vs[..|vs| - 1], src, zone);
      ValueKept(vs[|vs| - 1], src, zone);
    }
  }

  /** For non-negative values of which none lies outside the message: conserved exactly when every
      non-zero value stays in one local day. */
  lemma NonNegativeConservedExactly(src: Energy, zone: int, code: Code)
    requires NonNegative(ValuesOf(src.data, code)) && NoneCutOff(ValuesOf(src.data, code), src)
    ensures GroupsEnergy(Split(src, zone), code) == CodeEnergy(src.data, code)
       <==> AllKept(ValuesOf(src.data, code), src, zone)
  {
    ConservedExactly(src, zone, code);
    ValuesKept(ValuesOf(src.data, code), src, zone);
  }

  lemma TwoValues(a: EnergyValue, b: EnergyValue, src: Energy, zone: int)
    ensures EnergyOf([a, b]) == a.value + b.value
    ensures DroppedValues([a, b], src, zone) == Dropped(a, src, zone) + Dropped(b, src, zone)
    ensures RepeatedValues([a, b], src, zone) == Repeated(a, src, zone) + Repeated(b, src, zone)
  {
    assert [a, b][..1] == [a] && [a][..0] == [];
    assert EnergyOf([a]) == a.value;
    assert DroppedValues([a], src, zone) == Dropped(a, src, zone);
    assert RepeatedValues([a], src, zone) == Repeated(a, src, zone);
  }

  /** Without that, a loss can make up for a repetition: here one value lies outside the message and
      an equal one crosses a midnight. */
  lemma LossCancelsRepetition() returns (src: Energy, code: Code)
    ensures NonNegative(ValuesOf(src.data, code)) && !AllKept(ValuesOf(src.data, code), src, 0)
    ensures GroupsEnergy(Split(src, 0), code) == CodeEnergy(src.data, code) > 0.0
  {
    code := Con;
    var outside := EnergyValue(DAY_MS * 2, DAY_MS * 2 + 1, "L1", 1.0);
    var across := EnergyValue(DAY_MS - 1, DAY_MS + 1, "L1", 1.0);
    var vs := [outside, across];
    src := Energy(0, DAY_MS + 2, [EnergyData(code, vs)]);
    assert src.data[..0] == [] && [] + vs == vs;
    assert ValuesOf(src.data, code) == vs;
    assert DaysTouched(outside, src, 0) == 0 && DaysTouched(across, src, 0) == 2;
    assert vs[1].value == 1.0 && !InOneLocalDay(vs[1], src, 0);
    assert Times(1, 1.0) == 1.0;
    TwoValues(outside, across, src, 0);
    ConservedExactly(src, 0, code);
  }

  /** One value of any sign: its energy survives exactly when it is zero or stays in one local day. */
  lemma OneValueConservedExactly(src: Energy, zone: int, code: Code, v: EnergyValue)
    requires src.data == [EnergyData(code, [v])]
    ensures GroupsEnergy(Split(src, zone), code) == Times(DaysTouched(v, src, zone), v.value)
    ensures GroupsEnergy(Split(src, zone), code) == CodeEnergy(src.data, code)
       <==> v.value == 0.0 || InOneLocalDay(v, src, zone)
  {
    SplitCarries(src, zone, code);
    assert [v][..0] == [] && src.data[..0] == [] && [] + [v] == [v];
    assert ValuesOf(src.data, code) == [v];
    assert CarriedValues([v], src, zone) == Times(DaysTouched(v, src, zone), v.value);
    assert EnergyOf([v]) == v.value && CodeEnergy(src.data, code) == v.value;
    OneDayOnce(v, src, zone);
    var n := DaysTouched(v, src, zone);
    if n > 1 {
      TimesSign(n - 1, v.value);
    }
  }
}
