/** Rounding to six digits, half away from zero, on exact numbers. */
module Decimals {

  const MICRO: real := 1000000.0

  /** Go's math.Round. */
  function Round(x: real): (n: int)
    ensures x - 0.5 <= n as real <= x + 0.5
  {
    if x >= 0.0 then (x + 0.5).Floor else -(0.5 - x).Floor
  }

  /** The nearest integer, and of two the one farther from zero. */
  lemma RoundExactly(x: real, n: int)
    ensures Round(x) == n <==>
      if x >= 0.0 then n as real - 0.5 <= x < n as real + 0.5 else n as real - 0.5 < x <= n as real + 0.5
  {
    var m := Round(x);
    assert (n - m) as real == n as real - m as real;
  }

  function Round6(x: real): real {
    Round(x * MICRO) as real / MICRO
  }

  /** The numbers with at most six digits behind the point. */
  ghost predicate OnGrid(x: real) {
    exists k: int :: Micro(k) == x
  }

  function Micro(k: int): real {
    k as real / MICRO
  }

  lemma RoundWhole(k: int)
    ensures Round(k as real) == k
  {
    var n := Round(k as real);
    assert (n - k) as real == n as real - k as real;
  }

  lemma Round6Bound(x: real)
    ensures x - 0.0000005 <= Round6(x) <= x + 0.0000005
  {
    var n := Round(x * MICRO) as real;
    assert n / MICRO * MICRO == n;
  }

  /** A seventh digit 5 is rounded away from zero, on both sides. */
  lemma TiesRoundAway(k: nat)
    ensures Round6((k as real + 0.5) / 1000000.0) == (k + 1) as real / 1000000.0
    ensures Round6(-(k as real + 0.5) / 1000000.0) == -(k + 1) as real / 1000000.0
  {
    RoundExactly(k as real + 0.5, k + 1);
    RoundExactly(-(k as real + 0.5), -(k + 1));
    assert (k as real + 0.5) / 1000000.0 * MICRO == k as real + 0.5;
    assert -(k as real + 0.5) / 1000000.0 * MICRO == -(k as real + 0.5);
  }

  /** Rounding lands on the six-digit numbers and leaves exactly those alone. */
  lemma RoundsToGrid(x: real)
    ensures OnGrid(Round6(x))
    ensures OnGrid(x) <==> Round6(x) == x
  {
    assert Micro(Round(x * MICRO)) == Round6(x);
    if OnGrid(x) {
      var k: int :| Micro(k) == x;
      assert x * MICRO == k as real;
      RoundWhole(k);
    }
  }

  lemma GridAdds(x: real, y: real)
    requires OnGrid(x) && OnGrid(y)
    ensures OnGrid(x + y)
  {
    var a: int, b: int :| Micro(a) == x && Micro(b) == y;
    assert Micro(a + b) == x + y;
  }

  lemma ZeroOnGrid()
    ensures OnGrid(0.0)
  {
    assert Micro(0) == 0.0;
  }
}
