/** The times of the windows on a feed without gaps: when the open window is the one the last line lies
    in. They do not depend on what the lines hold. */
module WindowTimes {
  import opened GapFill
  import opened SourceLines
  import opened WindowCache

  lemma {:induction false} BoundGrows(start: int, next: Next, w: nat, k: nat)
    requires WideEnough(next) && w <= k
    ensures Bound(start, next, w) + QUARTER * (k - w) <= Bound(start, next, k)
    decreases k
  {
    if w < k {
      BoundGrows(start, next, w, k - 1);
      assert Bound(start, next, k - 1) + QUARTER <= next(Bound(start, next, k - 1));
    }
  }

  lemma {:induction false} ContiguousTime(feed: seq<Line>, i: nat)
    requires Contiguous(feed) && i < |feed|
    ensures feed[i].id.time == feed[0].id.time + QUARTER * i
  {
    if i > 0 {
      ContiguousTime(feed, i - 1);
      assert StepAt(feed, i - 1);
    }
  }

  /** The first line lies in the first window or in the one behind it. */
  ghost predicate StartsRight(start: int, next: Next, feed: seq<Line>) {
    WithIds(feed) && (feed != [] ==> start <= feed[0].id.time < next(next(start)))
  }

  // ---- When the window is the right one ---------------------------------------------------

  /** After line n the open window is the one the line lies in. */
  ghost predicate RightAfter(start: int, next: Next, sz: Sizes, feed: seq<Line>, n: nat)
    requires WithIds(feed) && 1 <= n <= |feed|
  {
    var s := After(Opening(start, sz), next, sz, feed[..n]);
    Inside(feed[n - 1].id.time, s.time, next(s.time))
  }

  /** Line j lies before the end of the window that the cache opens for it at the latest: every line
      before the j-th has moved the cache on by one window. */
  ghost predicate Meets(start: int, next: Next, feed: seq<Line>, j: nat)
    requires WithIds(feed)
  {
    1 <= j <= |feed| && feed[j - 1].id.time < Bound(start, next, j + 1)
  }

  ghost predicate CaughtUp(start: int, next: Next, feed: seq<Line>, n: nat)
    requires WithIds(feed)
  {
    exists j: nat :: j <= n && Meets(start, next, feed, j)
  }

  /** The window before a line was met, and afterwards. */
  ghost predicate Follows(start: int, next: Next, feed: seq<Line>, n: nat, time: int)
    requires WithIds(feed) && n <= |feed|
  {
    if !CaughtUp(start, next, feed, n) then time == Bound(start, next, n)
    else n > 0 && start <= time && feed[n - 1].id.time < next(time) && (time <= feed[n - 1].id.time || time == start)
  }

  lemma CaughtUpNext(start: int, next: Next, feed: seq<Line>, n: nat)
    requires WithIds(feed) && n < |feed|
    ensures CaughtUp(start, next, feed, n + 1) <==>
            CaughtUp(start, next, feed, n) || feed[n].id.time < Bound(start, next, n + 2)
  {
    if feed[n].id.time < Bound(start, next, n + 2) {
      assert Meets(start, next, feed, n + 1);
    }
    if j: nat :| j <= n + 1 && Meets(start, next, feed, j) {
      assert j <= n || j == n + 1;
    }
  }

  /** While no line was met the cache moves on by one window for each line; then the lines stay in its
      windows. */
  lemma FollowsNext(start: int, next: Next, feed: seq<Line>, n: nat, time: int)
    requires WideEnough(next) && Contiguous(feed) && n < |feed| && Follows(start, next, feed, n, time)
    ensures Follows(start, next, feed, n + 1, if feed[n].id.time < next(time) then time else next(time))
  {
    CaughtUpNext(start, next, feed, n);
    BoundGrows(start, next, 0, n);
    assert time + QUARTER <= next(time) && next(time) + QUARTER <= next(next(time));
    assert Bound(start, next, n + 1) == next(Bound(start, next, n));
    if n > 0 {
      assert StepAt(feed, n - 1);
      if !CaughtUp(start, next, feed, n) {
        assert !Meets(start, next, feed, n);
      }
    }
  }

  lemma {:induction false} TimesFollow(start: int, next: Next, sz: Sizes, feed: seq<Line>, n: nat)
    requires WideEnough(next) && Contiguous(feed) && n <= |feed|
    ensures Follows(start, next, feed, n, After(Opening(start, sz), next, sz, feed[..n]).time)
  {
    if n == 0 {
      assert !CaughtUp(start, next, feed, 0);
    } else {
      TimesFollow(start, next, sz, feed, n - 1);
      var s := After(Opening(start, sz), next, sz, feed[..n - 1]);
      assert feed[..n][..n - 1] == feed[..n - 1];
      FollowsNext(start, next, feed, n - 1, s.time);
    }
  }

  /** For each line, whatever the lines hold: the window is the right one exactly when the line does not
      lie before the start and some line up to it was met. A feed that starts late moves the cache on by
      one window for each line, until a line is met. */
  lemma RightAfterExactly(start: int, next: Next, sz: Sizes, feed: seq<Line>, n: nat)
    requires WideEnough(next) && Contiguous(feed) && 1 <= n <= |feed|
    ensures RightAfter(start, next, sz, feed, n) <==>
            start <= feed[n - 1].id.time && CaughtUp(start, next, feed, n)
  {
    TimesFollow(start, next, sz, feed, n);
    if !CaughtUp(start, next, feed, n) {
      assert !Meets(start, next, feed, n);
    }
  }

  /** After every line the open window is the one the line lies in. */
  ghost predicate OnTime(start: int, next: Next, sz: Sizes, feed: seq<Line>)
    requires WithIds(feed)
  {
    forall n | 1 <= n <= |feed| :: RightAfter(start, next, sz, feed, n)
  }

  /** That holds from the first line on exactly when the first line lies in the first or the second
      window. */
  lemma OnTimeExactly(start: int, next: Next, sz: Sizes, feed: seq<Line>)
    requires WideEnough(next) && Contiguous(feed) && feed != []
    ensures OnTime(start, next, sz, feed) <==> StartsRight(start, next, feed)
  {
    assert Bound(start, next, 2) == next(Bound(start, next, 1)) == next(next(start));
    assert Meets(start, next, feed, 1) <==> feed[0].id.time < next(next(start));
    RightAfterExactly(start, next, sz, feed, 1);
    if StartsRight(start, next, feed) {
      forall n | 1 <= n <= |feed| ensures RightAfter(start, next, sz, feed, n) {
        ContiguousTime(feed, n - 1);
        RightAfterExactly(start, next, sz, feed, n);
      }
    }
  }
}
