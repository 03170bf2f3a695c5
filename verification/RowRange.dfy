/** The cursor that reads stored rows from one day through another. */
module RowRange {
  import opened Calendar
  import opened RowIds

  const BUCKET_ID_SIZE: nat := 2

  /** The first position at or behind `at` whose key does not sort before the prefix. */
  function Seek(keys: seq<string>, prefix: string, at: nat): (p: nat)
    requires at <= |keys|
    ensures at <= p <= |keys|
    ensures forall i | at <= i < p :: Before(keys[i], prefix)
    ensures p < |keys| ==> !Before(keys[p], prefix)
    decreases |keys| - at
  {
    if at < |keys| && Before(keys[at], prefix) then Seek(keys, prefix, at + 1) else at
  }

  /** A key stops the cursor when it is shorter than the bound or its start sorts behind it. */
  predicate Stops(key: string, until: string) {
    |key| < |until| || Before(until, key[..|until|])
  }

  /** What reading to the end yields from position p on. */
  function Rest(keys: seq<string>, until: string, p: nat): seq<string>
    requires p <= |keys|
    decreases |keys| - p
  {
    if p == |keys| || Stops(keys[p], until) then []
    else [keys[p]] + Rest(keys, until, p + 1)
  }

  class Range {
    const keys: seq<string>
    const until: string
    var pos: nat
    var advanced: bool
    var closed: bool

    ghost predicate Valid()
      reads this
    {
      pos <= |keys| && (advanced ==> pos < |keys| && !Stops(keys[pos], until))
    }

    /** What the following calls of Next deliver. */
    ghost function Pending(): seq<string>
      reads this
      requires Valid()
    {
      if closed then [] else Rest(keys, until, if advanced then pos + 1 else pos)
    }

    constructor (keys: seq<string>, prefix: string, until: string)
      ensures Valid() && this.keys == keys && this.until == until
      ensures Pending() == Rest(keys, until, Seek(keys, prefix, 0))
    {
      this.keys, this.until := keys, until;
      pos := Seek(keys, prefix, 0);
      advanced, closed := false, false;
    }

    /** Delivers the next key. It may not be called again after a false result that left the
        cursor open, which happens on a key shorter than the bound. */
    method Next() returns (ok: bool, key: string)
      requires Valid()
      modifies this
      ensures ok <==> old(Pending()) != []
      ensures ok ==> Valid() && [key] + Pending() == old(Pending())
      ensures !ok ==> key == ""
    {
      ok, key := false, "";
      if closed {
        return;
      }
      if advanced {
        pos := pos + 1;
      }
      if pos >= |keys| {
        closed := true;
        return;
      }
      var ik := keys[pos];
      if |ik| < |until| {
        return;
      }
      if Before(until, ik[..|until|]) {
        closed := true;
        return;
      }
      advanced := true;
      return true, ik;
    }
  }

  lemma MovesOver(read: seq<string>, key: string, rest: seq<string>, pending: seq<string>, all: seq<string>)
    requires [key] + rest == pending && read + pending == all
    ensures read + [key] + rest == all
  {
    assert read + ([key] + rest) == read + [key] + rest;
  }

  /** Reads a cursor to its end, as every caller of GetLineRange does. */
  method ReadAll(keys: seq<string>, prefix: string, until: string) returns (read: seq<string>)
    ensures read == Rest(keys, until, Seek(keys, prefix, 0))
  {
    var range := new Range(keys, prefix, until);
    ghost var all := range.Pending();
    read := [];
    while true
      invariant range.Valid() && read + range.Pending() == all
      decreases |all| - |read|
    {
      ghost var pending := range.Pending();
      var ok, key := range.Next();
      if !ok {
        return;
      }
      MovesOver(read, key, range.Pending(), pending, all);
      read := read + [key];
    }
  }

  // ---- Days -----------------------------------------------------------------------------

  /** The year, month and day of a key prefix, with the separator behind each of them. */
  function DayPrefix(d: Date): string {
    Padded(d.year, 4) + "/" + (Padded(d.month, 2) + "/" + (Padded(d.day, 2) + "/"))
  }

  function Key(bucket: string, t: nat): string {
    bucket + RowId("CP/", t)
  }

  function Bound(bucket: string, d: Date): string {
    bucket + ("CP/" + DayPrefix(d))
  }

  function Keys(bucket: string, ts: seq<nat>): (k: seq<string>)
    ensures |k| == |ts| && forall i | 0 <= i < |k| :: k[i] == Key(bucket, ts[i])
  {
    seq(|ts|, i requires 0 <= i < |ts| => Key(bucket, ts[i]))
  }

  function DayOf(t: nat): nat {
    t / DAY_SECONDS
  }

  /** A printed time starts with the prefix of its day. */
  lemma PrintStartsWithDay(c: Civil)
    requires ValidCivil(c)
    ensures Print(c) == DayPrefix(c.date) + Join([c.hour, c.minute, c.second])
  {
    var v := Below(c);
    var clock := Join([c.hour, c.minute, c.second]);
    assert v[1..][1..] == [c.hour, c.minute, c.second];
    assert Join(v[1..]) == Padded(c.date.day, 2) + "/" + clock;
    assert Join(v) == Padded(c.date.month, 2) + "/" + Join(v[1..]);
    var y, m, d := Padded(c.date.year, 4) + "/", Padded(c.date.month, 2) + "/", Padded(c.date.day, 2) + "/";
    assert y + (m + (d + clock)) == y + (m + d) + clock;
  }

  lemma DayPrefixOrder(a: Date, b: Date)
    requires ValidDate(a) && ValidDate(b) && a.year < 10000 && b.year < 10000
    ensures |DayPrefix(a)| == |DayPrefix(b)| == 11
    ensures Before(DayPrefix(a), DayPrefix(b)) <==> DateBefore(a, b)
  {
    assert Power10(2) == 100 && Power10(4) == 10000;
    var a1, b1 := Padded(a.day, 2) + "/", Padded(b.day, 2) + "/";
    var a2, b2 := Padded(a.month, 2) + "/" + a1, Padded(b.month, 2) + "/" + b1;
    PaddedWidth(a.year, 4);
    PaddedWidth(b.year, 4);
    PaddedWidth(a.month, 2);
    PaddedWidth(b.month, 2);
    PaddedWidth(a.day, 2);
    PaddedWidth(b.day, 2);
    FieldOrder(a.day, b.day, 2, "", "");
    assert a1 + "" == a1 && b1 + "" == b1;
    FieldOrder(a.month, b.month, 2, a1, b1);
    FieldOrder(a.year, b.year, 4, a2, b2);
  }

  /** Where the row of time t stands with respect to a day bound. */
  lemma KeyAgainstBound(bucket: string, t: nat, d: Date)
    requires ToCivil(t).date.year < 10000 && ValidDate(d) && d.year < 10000
    ensures |Key(bucket, t)| >= |Bound(bucket, d)|
    ensures Before(Key(bucket, t), Bound(bucket, d)) <==> DayOf(t) < DayNumber(d)
    ensures Stops(Key(bucket, t), Bound(bucket, d)) <==> DayNumber(d) < DayOf(t)
  {
    var c := ToCivil(t);
    var clock := Join([c.hour, c.minute, c.second]);
    var head, bound := "CP/" + DayPrefix(c.date), "CP/" + DayPrefix(d);
    PrintStartsWithDay(c);
    DayPrefixOrder(c.date, d);
    DayPrefixOrder(d, c.date);
    DayNumberOrder(c.date, d);
    assert DayNumber(c.date) == DayOf(t);
    assert Key(bucket, t) == (bucket + head) + clock;
    assert Key(bucket, t)[..|bucket + bound|] == bucket + head;
    BeforeConcat("CP/", "CP/", DayPrefix(c.date), DayPrefix(d));
    BeforeConcat("CP/", "CP/", DayPrefix(d), DayPrefix(c.date));
    BeforeConcat(bucket, bucket, head, bound);
    BeforeConcat(bucket, bucket, bound, head);
    BeforeConcat(bucket + head, bucket + bound, clock, "");
    assert bucket + bound + "" == bucket + bound;
    BeforeIrreflexive(bucket);
    BeforeIrreflexive("CP/");
    if DayNumber(c.date) == DayNumber(d) {
      assert c.date == d;
      assert !Before(clock, "");
    }
  }

  lemma {:induction false} BeforeIrreflexive(s: string)
    ensures !Before(s, s)
  {
    if s != [] {
      BeforeIrreflexive(s[1..]);
    }
  }

  /** Keys of buckets with another id: `side` tells whether they sort before the bucket. */
  predicate OtherBucket(key: string, bucket: string, side: bool) {
    |bucket| <= |key| &&
    if side then Before(key[..|bucket|], bucket) else Before(bucket, key[..|bucket|])
  }

  lemma OtherBucketSide(key: string, bucket: string, d: Date, side: bool)
    requires OtherBucket(key, bucket, side)
    ensures side ==> Before(key, Bound(bucket, d))
    ensures !side ==> Stops(key, Bound(bucket, d))
  {
    var bound := "CP/" + DayPrefix(d);
    var rest := key[|bucket|..];
    assert key == key[..|bucket|] + rest;
    if side {
      BeforeConcat(key[..|bucket|], bucket, rest, bound);
    } else if |key| >= |bucket + bound| {
      var cut := key[|bucket|..|bucket + bound|];
      assert key[..|bucket + bound|] == key[..|bucket|] + cut;
      BeforeConcat(bucket, key[..|bucket|], bound, cut);
    }
  }

  lemma {:induction false} RestOfRows(keys: seq<string>, until: string, p: nat, q: nat)
    requires p <= q <= |keys|
    requires forall i | p <= i < q :: !Stops(keys[i], until)
    requires q < |keys| ==> Stops(keys[q], until)
    ensures Rest(keys, until, p) == keys[p..q]
    decreases q - p
  {
    if p < q {
      RestOfRows(keys, until, p + 1, q);
    }
  }

  predicate Ascending(ts: seq<nat>) {
    forall i, j | 0 <= i < j < |ts| :: ts[i] < ts[j]
  }

  predicate DayBefore(ts: seq<nat>, i: nat, day: nat)
    requires i < |ts|
  {
    DayOf(ts[i]) < day
  }

  /** Just the first n times lie on days before the given one. */
  predicate IsCount(ts: seq<nat>, day: nat, n: nat) {
    n <= |ts| && forall i | 0 <= i < |ts| :: DayBefore(ts, i, day) <==> i < n
  }

  /** How many of the ascending times lie on days before the given one. */
  function CountBefore(ts: seq<nat>, day: nat): (n: nat)
    requires Ascending(ts)
    ensures IsCount(ts, day, n)
  {
    if ts == [] then 0
    else if DayOf(ts[|ts| - 1]) < day then
      assert forall i | 0 <= i < |ts| :: ts[i] <= ts[|ts| - 1] && DayBefore(ts, i, day);
      |ts|
    else
      var n := CountBefore(ts[..|ts| - 1], day);
      assert forall i | 0 <= i < |ts| - 1 :: DayBefore(ts, i, day) <==> DayBefore(ts[..|ts| - 1], i, day);
      n
  }

  /** Around a day bound, the keys from low to top are those of a bucket: the ones before position
      `before` sort before the bound, and the ones from `upTo` on stop there. */
  ghost predicate Around(keys: seq<string>, bound: string, low: nat, top: nat, before: nat, upTo: nat) {
    && low <= before <= top <= |keys| && low <= upTo <= top
    && (forall i | 0 <= i < before :: BeforeAt(keys, i, bound))
    && (forall i | before <= i < top :: !BeforeAt(keys, i, bound))
    && (forall i | low <= i < upTo :: !StopsAt(keys, i, bound))
    && (forall i | upTo <= i < |keys| :: StopsAt(keys, i, bound))
  }

  predicate BeforeAt(keys: seq<string>, i: nat, bound: string)
    requires i < |keys|
  {
    Before(keys[i], bound)
  }

  predicate StopsAt(keys: seq<string>, i: nat, bound: string)
    requires i < |keys|
  {
    Stops(keys[i], bound)
  }

  function Between<T>(s: seq<T>, a: nat, b: nat): seq<T> {
    if a <= b <= |s| then s[a..b] else []
  }

  /** Seeking finds the first key of the day, if there is one. */
  lemma SeekAround(keys: seq<string>, bound: string, low: nat, top: nat, before: nat, upTo: nat)
    requires Around(keys, bound, low, top, before, upTo)
    ensures var p := Seek(keys, bound, 0); before <= p <= |keys| && (before < top ==> p == before)
  {
    var p := Seek(keys, bound, 0);
    if before < top {
      assert !BeforeAt(keys, before, bound);
    }
    if p < |keys| {
      assert p < before ==> BeforeAt(keys, p, bound);
    }
  }

  /** Reading stops behind the last key of the day. */
  lemma RestAround(keys: seq<string>, bound: string, low: nat, top: nat, before: nat, upTo: nat, p: nat)
    requires Around(keys, bound, low, top, before, upTo) && low <= p <= |keys|
    ensures Rest(keys, bound, p) == Between(keys, p, upTo)
  {
    if p <= upTo {
      forall i | p <= i < upTo ensures !Stops(keys[i], bound) {
        assert !StopsAt(keys, i, bound);
      }
      assert upTo < |keys| ==> StopsAt(keys, upTo, bound);
      RestOfRows(keys, bound, p, upTo);
    } else if p < |keys| {
      assert StopsAt(keys, p, bound);
    }
  }

  /** A database in which one bucket holds the rows of the times ts, between the keys of others. */
  ghost predicate Database(keys: seq<string>, low: seq<string>, ts: seq<nat>, high: seq<string>, bucket: string) {
    && keys == low + Keys(bucket, ts) + high && |bucket| == BUCKET_ID_SIZE && Ascending(ts)
    && (forall i | 0 <= i < |ts| :: ToCivil(ts[i]).date.year < 10000)
    && (forall i | 0 <= i < |low| :: OtherBucket(low[i], bucket, true))
    && (forall i | 0 <= i < |high| :: OtherBucket(high[i], bucket, false))
  }

  lemma KeyAgainstDay(keys: seq<string>, low: seq<string>, ts: seq<nat>, high: seq<string>, bucket: string, d: Date,
                      bound: string, i: nat)
    requires Database(keys, low, ts, high, bucket) && ValidDate(d) && d.year < 10000 && i < |keys|
    requires bound == Bound(bucket, d)
    ensures i < |low| ==> Before(keys[i], bound)
    ensures |low| + |ts| <= i ==> Stops(keys[i], bound)
    ensures |low| <= i < |low| + |ts| ==>
      && (Before(keys[i], bound) <==> DayOf(ts[i - |low|]) < DayNumber(d))
      && (Stops(keys[i], bound) <==> DayNumber(d) < DayOf(ts[i - |low|]))
  {
    if i < |low| {
      OtherBucketSide(low[i], bucket, d, true);
    } else if i < |low| + |ts| {
      KeyAgainstBound(bucket, ts[i - |low|], d);
    } else {
      OtherBucketSide(high[i - |low| - |ts|], bucket, d, false);
    }
  }

  /** A day bound separates the rows by their day. */
  lemma KeysAround(keys: seq<string>, low: seq<string>, ts: seq<nat>, high: seq<string>, bucket: string, d: Date,
                   before: nat, upTo: nat, bound: string)
    requires Database(keys, low, ts, high, bucket) && ValidDate(d) && d.year < 10000
    requires bound == Bound(bucket, d) && IsCount(ts, DayNumber(d), before) && IsCount(ts, DayNumber(d) + 1, upTo)
    ensures Around(keys, bound, |low|, |low| + |ts|, |low| + before, |low| + upTo)
  {
    forall i: nat | i < |keys|
      ensures i < |low| + before ==> BeforeAt(keys, i, bound)
      ensures |low| + before <= i < |low| + |ts| ==> !BeforeAt(keys, i, bound)
      ensures |low| <= i < |low| + upTo ==> !StopsAt(keys, i, bound)
      ensures |low| + upTo <= i ==> StopsAt(keys, i, bound)
    {
      KeyAgainstDay(keys, low, ts, high, bucket, d, bound, i);
      if |low| <= i < |low| + |ts| {
        assert DayBefore(ts, i - |low|, DayNumber(d)) <==> i - |low| < before;
        assert DayBefore(ts, i - |low|, DayNumber(d) + 1) <==> i - |low| < upTo;
      }
    }
  }

  lemma SlicedKeys(keys: seq<string>, low: seq<string>, ts: seq<nat>, high: seq<string>, bucket: string, a: nat, b: nat)
    requires keys == low + Keys(bucket, ts) + high && a <= |ts| && b <= |ts|
    ensures Between(keys, |low| + a, |low| + b) == Keys(bucket, Between(ts, a, b))
  {
    if a <= b {
      assert keys[|low| + a..|low| + b] == Keys(bucket, ts[a..b]);
    }
  }

  lemma SeekDay(keys: seq<string>, low: seq<string>, ts: seq<nat>, high: seq<string>, bucket: string, d: Date,
                a: nat, a': nat, bound: string)
    requires Database(keys, low, ts, high, bucket) && ValidDate(d) && d.year < 10000
    requires bound == Bound(bucket, d) && IsCount(ts, DayNumber(d), a) && IsCount(ts, DayNumber(d) + 1, a')
    ensures var p := Seek(keys, bound, 0); |low| + a <= p <= |keys| && (a < |ts| ==> p == |low| + a)
  {
    KeysAround(keys, low, ts, high, bucket, d, a, a', bound);
    SeekAround(keys, bound, |low|, |low| + |ts|, |low| + a, |low| + a');
  }

  lemma RestOfDay(keys: seq<string>, low: seq<string>, ts: seq<nat>, high: seq<string>, bucket: string, d: Date,
                  b': nat, b: nat, bound: string, p: nat)
    requires Database(keys, low, ts, high, bucket) && ValidDate(d) && d.year < 10000 && |low| <= p <= |keys|
    requires bound == Bound(bucket, d) && IsCount(ts, DayNumber(d), b') && IsCount(ts, DayNumber(d) + 1, b)
    ensures Rest(keys, bound, p) == Between(keys, p, |low| + b)
  {
    KeysAround(keys, low, ts, high, bucket, d, b', b, bound);
    RestAround(keys, bound, |low|, |low| + |ts|, |low| + b', |low| + b, p);
  }

  lemma FromPosition(keys: seq<string>, low: nat, n: nat, a: nat, b: nat, p: nat)
    requires low + n <= |keys| && a <= n && b <= n && low + a <= p && (a < n ==> p == low + a)
    ensures Between(keys, p, low + b) == Between(keys, low + a, low + b)
  {
  }

  lemma ReadDays(keys: seq<string>, low: seq<string>, ts: seq<nat>, high: seq<string>, bucket: string, start: Date,
                 end: Date, prefix: string, until: string, a: nat, a': nat, b': nat, b: nat)
    requires Database(keys, low, ts, high, bucket)
    requires ValidDate(start) && start.year < 10000 && prefix == Bound(bucket, start)
    requires ValidDate(end) && end.year < 10000 && until == Bound(bucket, end)
    requires IsCount(ts, DayNumber(start), a) && IsCount(ts, DayNumber(start) + 1, a')
    requires IsCount(ts, DayNumber(end), b') && IsCount(ts, DayNumber(end) + 1, b)
    ensures Rest(keys, until, Seek(keys, prefix, 0)) == Keys(bucket, Between(ts, a, b))
  {
    var p := Seek(keys, prefix, 0);
    SeekDay(keys, low, ts, high, bucket, start, a, a', prefix);
    RestOfDay(keys, low, ts, high, bucket, end, b', b, until, p);
    FromPosition(keys, |low|, |ts|, a, b, p);
    SlicedKeys(keys, low, ts, high, bucket, a, b);
  }

  /** In a database whose bucket holds the rows of the times ts and whose other keys belong to
      other buckets, reading the range of two days delivers exactly the rows of these days and of
      the days between them, whole days at both ends and in chronological order. */
  lemma RangeIsWholeDays(keys: seq<string>, low: seq<string>, ts: seq<nat>, high: seq<string>,
                         bucket: string, start: Date, end: Date, a: nat, b: nat)
    requires Database(keys, low, ts, high, bucket)
    requires ValidDate(start) && ValidDate(end) && start.year < 10000 && end.year < 10000
    requires a == CountBefore(ts, DayNumber(start)) && b == CountBefore(ts, DayNumber(end) + 1)
    ensures Rest(keys, Bound(bucket, end), Seek(keys, Bound(bucket, start), 0)) == Keys(bucket, Between(ts, a, b))
  {
    var a', b' := CountBefore(ts, DayNumber(start) + 1), CountBefore(ts, DayNumber(end));
    ReadDays(keys, low, ts, high, bucket, start, end, Bound(bucket, start), Bound(bucket, end), a, a', b', b);
  }
}
