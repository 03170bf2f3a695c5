/** Row ids: a local time printed as year/month/day/hour/minute/second, read back and compared
    byte by byte. */
module RowIds {
  import opened Calendar

  // ---- Printing -------------------------------------------------------------------------

  function Digit(n: nat): (c: char)
    requires n < 10
    ensures '0' <= c <= '9' && DigitValue(c) == n
  {
    n as char + '0'
  }

  predicate IsDigit(c: char) {
    '0' <= c <= '9'
  }

  function DigitValue(c: char): nat
    requires IsDigit(c)
  {
    c as int - '0' as int
  }

  /** The decimal digits of n, filled up with zeros to at least w digits. */
  function Padded(n: nat, w: nat): (s: string)
    requires 1 <= w
    ensures |s| >= w && forall i | 0 <= i < |s| :: IsDigit(s[i])
    decreases n, w
  {
    if n < 10 && w == 1 then [Digit(n)]
    else Padded(n / 10, if w == 1 then 1 else w - 1) + [Digit(n % 10)]
  }

  /** Two-digit fields with separators between them. */
  function Join(v: seq<nat>): string
    requires v != []
  {
    if |v| == 1 then Padded(v[0], 2) else Padded(v[0], 2) + "/" + Join(v[1..])
  }

  /** The fields of a time below the year, in the order they are printed. */
  function Below(c: Civil): seq<nat> {
    [c.date.month, c.date.day, c.hour, c.minute, c.second]
  }

  function Print(c: Civil): string {
    Padded(c.date.year, 4) + "/" + Join(Below(c))
  }

  /** The row id of a local time below a table prefix such as "CP/". */
  function RowId(prefix: string, t: nat): string {
    prefix + Print(ToCivil(t))
  }

  function Numeral(n: nat): char
    requires n < 10
  {
    "0123456789"[n]
  }

  /** A number below 100 in two digits. */
  function Two(n: nat): string
    requires n < 100
  {
    [Numeral(n / 10), Numeral(n % 10)]
  }

  lemma TwoNumerals(n: nat)
    requires n < 100
    ensures Padded(n, 2) == Two(n)
  {
    assert Padded(n / 10, 1) == [Digit(n / 10)];
  }

  lemma Tenths(n: nat)
    ensures n / 10 / 10 == n / 100
  {
  }

  lemma FourNumerals(n: nat)
    requires n < 10000
    ensures Padded(n, 4) == Two(n / 100) + Two(n % 100)
  {
    var a, b := n / 10, n / 100;
    Tenths(n);
    TwoNumerals(b);
    assert Padded(a, 3) == Padded(b, 2) + [Digit(a % 10)];
    assert Padded(n, 4) == Padded(a, 3) + [Digit(n % 10)];
    assert n % 100 / 10 == a % 10 && n % 100 % 10 == n % 10;
    assert Two(b) + [Digit(a % 10)] + [Digit(n % 10)] == Two(b) + [Digit(a % 10), Digit(n % 10)];
  }

  lemma JoinNext(a: nat, v: seq<nat>)
    requires v != []
    ensures Join([a] + v) == Padded(a, 2) + "/" + Join(v)
  {
    assert ([a] + v)[1..] == v;
  }

  lemma JoinFive(a: nat, b: nat, c: nat, d: nat, e: nat)
    ensures Join([a, b, c, d, e]) == Padded(a, 2) + "/" + (Padded(b, 2) + "/" + (Padded(c, 2) + "/" +
      (Padded(d, 2) + "/" + Padded(e, 2))))
  {
    JoinNext(d, [e]);
    JoinNext(c, [d] + [e]);
    JoinNext(b, [c] + ([d] + [e]));
    JoinNext(a, [b] + ([c] + ([d] + [e])));
    assert [a] + ([b] + ([c] + ([d] + [e]))) == [a, b, c, d, e];
  }

  /** The text of a row id in a year of four digits: fields of fixed width with slashes between them. */
  lemma RowIdText(prefix: string, c: Civil)
    requires ValidCivil(c) && c.date.year < 10000
    ensures RowId(prefix, FromCivil(c)) == prefix + (
      Two(c.date.year / 100) + Two(c.date.year % 100) + "/" + (Two(c.date.month) + "/" + (Two(c.date.day) + "/" +
      (Two(c.hour) + "/" + (Two(c.minute) + "/" + Two(c.second))))))
  {
    CivilRoundTrip(c);
    FourNumerals(c.date.year);
    TwoNumerals(c.date.month);
    TwoNumerals(c.date.day);
    TwoNumerals(c.hour);
    TwoNumerals(c.minute);
    TwoNumerals(c.second);
    JoinFive(c.date.month, c.date.day, c.hour, c.minute, c.second);
  }

  // ---- Reading --------------------------------------------------------------------------

  function Value(s: string): nat
    requires forall i | 0 <= i < |s| :: IsDigit(s[i])
  {
    if s == [] then 0 else Value(s[..|s| - 1]) * 10 + DigitValue(s[|s| - 1])
  }

  /** How many digits the text starts with. */
  function DigitRun(s: string): (n: nat)
    ensures n <= |s| && forall i | 0 <= i < n :: IsDigit(s[i])
    ensures n < |s| ==> !IsDigit(s[n])
  {
    if s != [] && IsDigit(s[0]) then DigitRun(s[1..]) + 1 else 0
  }

  datatype Scan = NoMatch | Fields(values: seq<nat>)

  /** Reads k numbers separated by '/'. Text after the last number is ignored. */
  function ScanFields(s: string, k: nat): (r: Scan)
    requires k > 0
    ensures r.Fields? ==> |r.values| == k
  {
    var n := DigitRun(s);
    if n == 0 then NoMatch
    else if k == 1 then Fields([Value(s[..n])])
    else if n == |s| || s[n] != '/' then NoMatch
    else
      match ScanFields(s[n + 1..], k - 1)
      case NoMatch => NoMatch
      case Fields(rest) => Fields([Value(s[..n])] + rest)
  }

  datatype Parsed = Malformed | Time(t: nat)

  function Parse(prefix: string, id: string): Parsed {
    if !(prefix + "/" <= id) then Malformed
    else
      match ScanFields(id[|prefix| + 1..], 6)
      case NoMatch => Malformed
      case Fields(v) =>
        var c := Civil(Date(v[0], v[1], v[2]), v[3], v[4], v[5]);
        if ValidCivil(c) then Time(FromCivil(c)) else Malformed
  }

  lemma {:induction false} PaddedValue(n: nat, w: nat)
    requires 1 <= w
    ensures Value(Padded(n, w)) == n
    decreases n, w
  {
    if n < 10 && w == 1 {
      assert Value([Digit(n)][..0]) == 0;
    } else {
      var p := Padded(n / 10, if w == 1 then 1 else w - 1);
      PaddedValue(n / 10, if w == 1 then 1 else w - 1);
      assert Padded(n, w)[..|p|] == p;
    }
  }

  lemma {:induction false} DigitRunOf(p: string, rest: string)
    requires forall i | 0 <= i < |p| :: IsDigit(p[i])
    requires rest != [] ==> !IsDigit(rest[0])
    ensures DigitRun(p + rest) == |p|
  {
    if p == [] {
      assert p + rest == rest;
    } else {
      DigitRunOf(p[1..], rest);
      assert (p + rest)[1..] == p[1..] + rest;
    }
  }

  /** Scanning a printed field gives its number and goes on behind the separator. */
  lemma ScanOne(n: nat, w: nat, rest: string, v: seq<nat>)
    requires w >= 1 && |v| > 0 && ScanFields(rest, |v|) == Fields(v)
    ensures ScanFields(Padded(n, w) + "/" + rest, |v| + 1) == Fields([n] + v)
  {
    var p := Padded(n, w);
    var s := p + "/" + rest;
    DigitRunOf(p, "/" + rest);
    assert s == p + ("/" + rest);
    assert s[..|p|] == p && s[|p|] == '/' && s[|p| + 1..] == rest;
    PaddedValue(n, w);
  }

  /** The last field has no separator behind it. */
  lemma ScanLast(n: nat, w: nat)
    requires w >= 1
    ensures ScanFields(Padded(n, w), 1) == Fields([n])
  {
    var p := Padded(n, w);
    DigitRunOf(p, "");
    assert p + "" == p && p[..|p|] == p;
    PaddedValue(n, w);
  }

  lemma ScanNext(n: nat, v: seq<nat>)
    requires v != [] && ScanFields(Join(v), |v|) == Fields(v)
    ensures ScanFields(Join([n] + v), |v| + 1) == Fields([n] + v)
  {
    assert ([n] + v)[1..] == v;
    ScanOne(n, 2, Join(v), v);
  }

  lemma ScanSingle(v: seq<nat>)
    requires |v| == 1
    ensures ScanFields(Join(v), |v|) == Fields(v)
  {
    ScanLast(v[0], 2);
    assert [v[0]] == v;
  }

  lemma FirstAndRest(v: seq<nat>)
    requires v != []
    ensures [v[0]] + v[1..] == v
  {
  }

  ghost predicate ScansBack(v: seq<nat>)
    requires v != []
  {
    ScanFields(Join(v), |v|) == Fields(v)
  }

  lemma ScanRest(v: seq<nat>)
    requires |v| > 1 && ScansBack(v[1..])
    ensures ScansBack(v)
  {
    ScanNext(v[0], v[1..]);
    FirstAndRest(v);
  }

  lemma {:induction false} ScanJoin(v: seq<nat>)
    requires v != []
    ensures ScansBack(v)
  {
    if |v| == 1 {
      ScanSingle(v);
    } else {
      ScanJoin(v[1..]);
      ScanRest(v);
    }
  }

  lemma ScanPrint(c: Civil, fields: seq<nat>)
    requires fields == [c.date.year] + Below(c)
    ensures ScanFields(Print(c), |fields|) == Fields(fields)
  {
    ScanJoin(Below(c));
    ScanOne(c.date.year, 4, Join(Below(c)), Below(c));
  }

  lemma ParseFields(text: string, c: Civil, v: seq<nat>)
    requires ValidCivil(c) && v == [c.date.year, c.date.month, c.date.day, c.hour, c.minute, c.second]
    requires ScanFields(text, 6) == Fields(v)
    ensures Parse("CP", "CP/" + text) == Time(FromCivil(c))
  {
    var id := "CP/" + text;
    assert id[3..] == text;
    assert "CP" + "/" == "CP/" && "CP/" <= id;
  }

  /** Reading a printed row id gives back the time it was printed from, to the second. */
  lemma ParsePrinted(t: nat)
    ensures Parse("CP", RowId("CP/", t)) == Time(t)
  {
    var c := ToCivil(t);
    var fields := [c.date.year] + Below(c);
    ScanPrint(c, fields);
    assert |fields| == 6;
    ParseFields(Print(c), c, fields);
  }

  // ---- Order ----------------------------------------------------------------------------

  /** Byte order of two keys. */
  predicate Before(a: string, b: string) {
    if b == [] then false
    else if a == [] then true
    else a[0] < b[0] || (a[0] == b[0] && Before(a[1..], b[1..]))
  }

  lemma {:induction false} BeforeConcat(a: string, b: string, x: string, y: string)
    requires |a| == |b|
    ensures Before(a + x, b + y) <==> Before(a, b) || (a == b && Before(x, y))
  {
    if a == [] {
      assert a + x == x && b + y == y;
    } else {
      BeforeConcat(a[1..], b[1..], x, y);
      assert (a + x)[1..] == a[1..] + x && (b + y)[1..] == b[1..] + y;
      assert a == [a[0]] + a[1..] && b == [b[0]] + b[1..];
    }
  }

  function Power10(w: nat): nat {
    if w == 0 then 1 else 10 * Power10(w - 1)
  }

  lemma {:induction false} PaddedWidth(n: nat, w: nat)
    requires 1 <= w && n < Power10(w)
    ensures |Padded(n, w)| == w
    decreases w
  {
    if w > 1 {
      PaddedWidth(n / 10, w - 1);
    }
  }

  /** Numbers printed with the same width compare like the numbers. */
  lemma {:induction false} PaddedOrder(a: nat, b: nat, w: nat)
    requires 1 <= w && a < Power10(w) && b < Power10(w)
    ensures Before(Padded(a, w), Padded(b, w)) <==> a < b
    ensures Padded(a, w) == Padded(b, w) <==> a == b
    decreases w
  {
    if w > 1 {
      PaddedOrder(a / 10, b / 10, w - 1);
      PaddedWidth(a / 10, w - 1);
      PaddedWidth(b / 10, w - 1);
      BeforeConcat(Padded(a / 10, w - 1), Padded(b / 10, w - 1), [Digit(a % 10)], [Digit(b % 10)]);
      if Padded(a, w) == Padded(b, w) {
        PaddedValue(a, w);
        PaddedValue(b, w);
      }
    }
  }

  /** One printed field in front: the field decides unless it is equal. */
  lemma FieldOrder(a: nat, b: nat, w: nat, x: string, y: string)
    requires 1 <= w && a < Power10(w) && b < Power10(w)
    ensures Before(Padded(a, w) + "/" + x, Padded(b, w) + "/" + y)
       <==> a < b || (a == b && Before(x, y))
  {
    PaddedWidth(a, w);
    PaddedWidth(b, w);
    PaddedOrder(a, b, w);
    BeforeConcat(Padded(a, w), Padded(b, w), "/" + x, "/" + y);
    BeforeConcat("/", "/", x, y);
    assert Padded(a, w) + "/" + x == Padded(a, w) + ("/" + x);
    assert Padded(b, w) + "/" + y == Padded(b, w) + ("/" + y);
  }

  /** Lexicographic order of field lists. */
  predicate FieldsBefore(a: seq<nat>, b: seq<nat>)
    requires |a| == |b|
  {
    a != [] && (a[0] < b[0] || (a[0] == b[0] && FieldsBefore(a[1..], b[1..])))
  }

  lemma {:induction false} JoinOrder(a: seq<nat>, b: seq<nat>)
    requires |a| == |b| > 0
    requires forall i | 0 <= i < |a| :: a[i] < 100 && b[i] < 100
    ensures Before(Join(a), Join(b)) <==> FieldsBefore(a, b)
  {
    assert Power10(1) == 10 && Power10(2) == 100;
    if |a| == 1 {
      PaddedOrder(a[0], b[0], 2);
    } else {
      JoinOrder(a[1..], b[1..]);
      FieldOrder(a[0], b[0], 2, Join(a[1..]), Join(b[1..]));
    }
  }

  predicate ClockBefore(a: Civil, b: Civil) {
    || a.hour < b.hour
    || (a.hour == b.hour && a.minute < b.minute)
    || (a.hour == b.hour && a.minute == b.minute && a.second < b.second)
  }

  lemma BelowOrder(a: Civil, b: Civil)
    requires a.date.year == b.date.year
    ensures FieldsBefore(Below(a), Below(b))
       <==> DateBefore(a.date, b.date) || (a.date == b.date && ClockBefore(a, b))
  {
    var v, w := Below(a), Below(b);
    assert v[1..][1..] == v[2..] && w[1..][1..] == w[2..];
    assert v[2..][1..] == v[3..] && w[2..][1..] == w[3..];
    assert v[3..][1..] == v[4..] && w[3..][1..] == w[4..];
    assert v[4..][1..] == [] && w[4..][1..] == [];
    assert FieldsBefore(v[4..], w[4..]) <==> a.second < b.second;
    assert FieldsBefore(v[3..], w[3..]) <==> a.minute < b.minute || (a.minute == b.minute && a.second < b.second);
    assert FieldsBefore(v[2..], w[2..]) <==> ClockBefore(a, b);
  }

  lemma PrintOrder(a: Civil, b: Civil)
    requires ValidCivil(a) && ValidCivil(b) && a.date.year < 10000 && b.date.year < 10000
    ensures Before(Print(a), Print(b))
       <==> DateBefore(a.date, b.date) || (a.date == b.date && ClockBefore(a, b))
  {
    assert Power10(2) == 100 && Power10(4) == 10000;
    JoinOrder(Below(a), Below(b));
    FieldOrder(a.date.year, b.date.year, 4, Join(Below(a)), Join(Below(b)));
    if a.date.year == b.date.year {
      BelowOrder(a, b);
    }
  }

  /** Up to the year 9999 the byte order of row ids is the chronological order of their times. */
  lemma RowIdOrder(s: nat, t: nat)
    requires ToCivil(s).date.year < 10000 && ToCivil(t).date.year < 10000
    ensures Before(RowId("CP/", s), RowId("CP/", t)) <==> s < t
    ensures RowId("CP/", s) == RowId("CP/", t) <==> s == t
  {
    var a, b := ToCivil(s), ToCivil(t);
    BeforeConcat("CP/", "CP/", Print(a), Print(b));
    PrintOrder(a, b);
    DayNumberOrder(a.date, b.date);
    if RowId("CP/", s) == RowId("CP/", t) {
      ParsePrinted(s);
      ParsePrinted(t);
    }
  }

  /** In the year 10000 the order breaks: the fifth digit makes the id of its first second sort
      before the id of the last second of the year 9999. */
  lemma FiveDigitYearsBreakOrder(a: Civil, b: Civil)
    requires a == Civil(Date(9999, 12, 31), 23, 59, 59) && b == Civil(Date(10000, 1, 1), 0, 0, 0)
    ensures FromCivil(a) < FromCivil(b) && Before(Print(b), Print(a))
  {
    DayNumberOrder(a.date, b.date);
    assert Padded(10000, 4) == Padded(1000, 3) + ['0'];
    assert Padded(1000, 3) == Padded(100, 2) + ['0'];
    assert Padded(100, 2) == Padded(10, 1) + ['0'];
    assert Padded(10, 1) == ['1'] + ['0'];
    assert Padded(9999, 4) == Padded(999, 3) + ['9'];
    assert Padded(999, 3) == Padded(99, 2) + ['9'];
    assert Padded(99, 2) == ['9'] + ['9'];
    assert Print(b)[0] == '1' && Print(a)[0] == '9';
  }

  /** Row ids of all times before a year sort in chronological order. */
  ghost predicate SortsBefore(year: nat) {
    forall s: nat, t: nat | ToCivil(s).date.year < year && ToCivil(t).date.year < year ::
      Before(RowId("CP/", s), RowId("CP/", t)) <==> s < t
  }

  lemma MisorderedFields(a: Civil, b: Civil, year: nat)
    requires ValidCivil(a) && ValidCivil(b) && a.date.year < year && b.date.year < year
    requires FromCivil(a) < FromCivil(b) && Before(Print(b), Print(a))
    ensures !SortsBefore(year)
  {
    CivilRoundTrip(a);
    CivilRoundTrip(b);
    BeforeConcat("CP/", "CP/", Print(b), Print(a));
    assert Before(RowId("CP/", FromCivil(b)), RowId("CP/", FromCivil(a)));
  }

  /** The bound is exact: all row ids before a year sort in chronological order if and only if the
      year is 10000 at most. */
  lemma RowIdOrderExactly(year: nat)
    ensures SortsBefore(year) <==> year <= 10000
  {
    if year <= 10000 {
      forall s: nat, t: nat | ToCivil(s).date.year < year && ToCivil(t).date.year < year
        ensures Before(RowId("CP/", s), RowId("CP/", t)) <==> s < t
      {
        RowIdOrder(s, t);
      }
    } else {
      var a, b := Civil(Date(9999, 12, 31), 23, 59, 59), Civil(Date(10000, 1, 1), 0, 0, 0);
      FiveDigitYearsBreakOrder(a, b);
      MisorderedFields(a, b, year);
    }
  }
}
