/** The period of a meter: from the earliest to the latest time of its messages, as the metadata keep it
    and as the queries count members by it. */
module MeterPeriods {
  import opened EnergyMessages

  /** The local seconds that the two texts of the metadata show; None for a text that shows none. */
  datatype Period = Period(start: Option<int>, end: Option<int>)

  const UNSET: Period := Period(None, None)

  /** The instant of a local second. */
  function InstantOf(second: int, zone: int): int {
    (second - zone) * 1000
  }

  /** Without a text the period starts now and has ended at the first second of 1970. */
  function BeginOf(p: Period, zone: int, now: int): int {
    match p.start
    case None => now
    case Some(s) => InstantOf(s, zone)
  }

  function EndOf(p: Period, zone: int): int {
    match p.end
    case None => 1000
    case Some(s) => InstantOf(s, zone)
  }

  function Widened(p: Period, e: Energy, zone: int, now: int): Period {
    Period(if e.start < BeginOf(p, zone, now) then Some(RowOf(e.start, zone)) else p.start,
           if e.end > EndOf(p, zone) then Some(RowOf(e.end, zone)) else p.end)
  }

  method UpdateMetaCP(p: Period, e: Energy, zone: int, now: int) returns (r: Period, changed: bool)
    ensures r == Widened(p, e, zone, now) && (!changed ==> r == p)
  {
    r, changed := p, false;
    var metaBegin, metaEnd := BeginOf(p, zone, now), EndOf(p, zone);
    if e.start < metaBegin {
      r := r.(start := Some(RowOf(e.start, zone)));
      changed := true;
    }
    if e.end > metaEnd {
      r := r.(end := Some(RowOf(e.end, zone)));
      changed := true;
    }
  }

  /** The messages one after the other; clock(k) is the time at which message k is stored. */
  function WidenedBy(p: Period, messages: seq<Energy>, zone: int, clock: nat -> int): Period {
    if messages == [] then p
    else
      var n := |messages| - 1;
      Widened(WidenedBy(p, messages[..n], zone, clock), messages[n], zone, clock(n))
  }

  lemma WidenedNext(p: Period, messages: seq<Energy>, zone: int, clock: nat -> int, k: nat)
    requires k < |messages|
    ensures WidenedBy(p, messages[..k + 1], zone, clock) ==
            Widened(WidenedBy(p, messages[..k], zone, clock), messages[k], zone, clock(k))
  {
    assert messages[..k + 1][..k] == messages[..k];
  }

  /** No message starts after it is stored, and none ends in the first second of 1970 or before. */
  ghost predicate Recorded(messages: seq<Energy>, clock: nat -> int) {
    forall k: nat | k < |messages| :: messages[k].start < clock(k) && messages[k].end > 1000
  }

  ghost predicate IsEarliest(x: int, messages: seq<Energy>, zone: int) {
    && (forall k | 0 <= k < |messages| :: x <= RowOf(messages[k].start, zone))
    && exists k :: 0 <= k < |messages| && x == RowOf(messages[k].start, zone)
  }

  ghost predicate IsLatest(x: int, messages: seq<Energy>, zone: int) {
    && (forall k | 0 <= k < |messages| :: RowOf(messages[k].end, zone) <= x)
    && exists k :: 0 <= k < |messages| && x == RowOf(messages[k].end, zone)
  }

  /** Comparing with the instant of a second compares the seconds. */
  lemma SecondsCompare(instant: int, second: int, zone: int)
    ensures instant < InstantOf(second, zone) <==> RowOf(instant, zone) < second
    ensures instant > InstantOf(second, zone) ==> RowOf(instant, zone) >= second
    ensures instant <= InstantOf(second, zone) ==> RowOf(instant, zone) <= second
  {
  }

  ghost predicate IsHull(p: Period, messages: seq<Energy>, zone: int) {
    && p.start.Some? && IsEarliest(p.start.value, messages, zone)
    && p.end.Some? && IsLatest(p.end.value, messages, zone)
  }

  lemma EarliestNext(x: int, messages: seq<Energy>, last: Energy, zone: int)
    requires IsEarliest(x, messages, zone)
    ensures var y := RowOf(last.start, zone); IsEarliest(if y < x then y else x, messages + [last], zone)
  {
    var all := messages + [last];
    var k :| 0 <= k < |messages| && x == RowOf(messages[k].start, zone);
    assert all[k] == messages[k] && all[|messages|] == last;
  }

  lemma LatestNext(x: int, messages: seq<Energy>, last: Energy, zone: int)
    requires IsLatest(x, messages, zone)
    ensures var y := RowOf(last.end, zone); IsLatest(if y > x then y else x, messages + [last], zone)
  {
    var all := messages + [last];
    var k :| 0 <= k < |messages| && x == RowOf(messages[k].end, zone);
    assert all[k] == messages[k] && all[|messages|] == last;
  }

  lemma HullNext(p: Period, messages: seq<Energy>, last: Energy, zone: int, now: int)
    requires IsHull(p, messages, zone)
    ensures IsHull(Widened(p, last, zone, now), messages + [last], zone)
  {
    SecondsCompare(last.start, p.start.value, zone);
    SecondsCompare(last.end, p.end.value, zone);
    EarliestNext(p.start.value, messages, last, zone);
    LatestNext(p.end.value, messages, last, zone);
  }

  lemma HullFirst(e: Energy, zone: int, now: int)
    requires e.start < now && e.end > 1000
    ensures IsHull(Widened(UNSET, e, zone, now), [e], zone)
  {
    assert [e][0] == e;
  }

  /** The period is the hull of the messages, whatever their order: it starts with the earliest start and
      ends with the latest end. */
  lemma {:induction false} PeriodIsHull(messages: seq<Energy>, zone: int, clock: nat -> int)
    requires messages != [] && Recorded(messages, clock)
    ensures IsHull(WidenedBy(UNSET, messages, zone, clock), messages, zone)
  {
    var n := |messages| - 1;
    var rest, last := messages[..n], messages[n];
    if n == 0 {
      HullFirst(last, zone, clock(0));
      assert messages == [last] && rest == [];
    } else {
      PeriodIsHull(rest, zone, clock);
      HullNext(WidenedBy(UNSET, rest, zone, clock), rest, last, zone, clock(n));
      assert messages == rest + [last];
    }
  }

  /** The start stays unset exactly when every message starts at the time it is stored, or later. */
  lemma {:induction false} StartUnsetExactly(messages: seq<Energy>, zone: int, clock: nat -> int)
    ensures WidenedBy(UNSET, messages, zone, clock).start.None? <==>
            forall k: nat | k < |messages| :: messages[k].start >= clock(k)
  {
    if messages != [] {
      var n := |messages| - 1;
      StartUnsetExactly(messages[..n], zone, clock);
      assert forall k: nat | k < n :: messages[..n][k] == messages[k];
    }
  }

  /** The end stays unset exactly when every message ends in the first second of 1970 or before. */
  lemma {:induction false} EndUnsetExactly(messages: seq<Energy>, zone: int, clock: nat -> int)
    ensures WidenedBy(UNSET, messages, zone, clock).end.None? <==>
            forall k: nat | k < |messages| :: messages[k].end <= 1000
  {
    if messages != [] {
      var n := |messages| - 1;
      EndUnsetExactly(messages[..n], zone, clock);
      assert forall k: nat | k < n :: messages[..n][k] == messages[k];
    }
  }

  // ---- Counting members -----------------------------------------------------------------------

  /** The period as a query reads it, missing texts as the start of 1970. */
  datatype Range = Range(start: int, end: int)

  function RangeOf(p: Period, zone: int): Range {
    Range(if p.start.Some? then p.start.value else zone, if p.end.Some? then p.end.value else zone)
  }

  /** A missing text stands for the start of 1970, so a meter without a period is never a member. */
  lemma MissingPeriod(p: Period, zone: int, t: int)
    ensures p.start.None? ==> InstantOf(RangeOf(p, zone).start, zone) == 0
    ensures p.end.None? ==> InstantOf(RangeOf(p, zone).end, zone) == 0
    ensures p == UNSET ==> !Overlaps(RangeOf(p, zone), t, t)
  {
  }

  predicate Overlaps(r: Range, start: int, end: int) {
    r.start < end && r.end > start
  }

  /** The members whose period overlaps a stretch of time. */
  function Members(ranges: seq<Range>, start: int, end: int): nat {
    if ranges == [] then 0
    else Members(ranges[..|ranges| - 1], start, end) + if Overlaps(ranges[|ranges| - 1], start, end) then 1 else 0
  }

  /** Members are the meters whose period starts before the end and ends behind the start. */
  lemma {:induction false} MembersAre(ranges: seq<Range>, start: int, end: int)
    ensures Members(ranges, start, end) ==
            |set i | 0 <= i < |ranges| && ranges[i].start < end && start < ranges[i].end|
  {
    if ranges != [] {
      var n := |ranges| - 1;
      var rest := set i | 0 <= i < n && ranges[..n][i].start < end && start < ranges[..n][i].end;
      var all := set i | 0 <= i < |ranges| && ranges[i].start < end && start < ranges[i].end;
      MembersAre(ranges[..n], start, end);
      assert all == rest + if ranges[n].start < end && start < ranges[n].end then {n} else {};
    }
  }

  method CountMembers(ranges: seq<Range>, start: int, end: int) returns (count: nat)
    ensures count == Members(ranges, start, end)
  {
    count := 0;
    for i := 0 to |ranges|
      invariant count == Members(ranges[..i], start, end)
    {
      assert ranges[..i + 1][..i] == ranges[..i];
      if ranges[i].start < end && ranges[i].end > start {
        count := count + 1;
      }
    }
    assert ranges[..|ranges|] == ranges;
  }

  /** The load curve counts at a single time: a meter is a member of a series exactly when this time lies
      behind the earliest start and before the latest end of its messages. */
  lemma MemberExactly(messages: seq<Energy>, zone: int, clock: nat -> int, t: int)
    requires messages != [] && Recorded(messages, clock)
    ensures Overlaps(RangeOf(WidenedBy(UNSET, messages, zone, clock), zone), t, t) <==>
            && (exists k :: 0 <= k < |messages| && RowOf(messages[k].start, zone) < t)
            && (exists k :: 0 <= k < |messages| && t < RowOf(messages[k].end, zone))
  {
    PeriodIsHull(messages, zone, clock);
  }
}
