/** Integer and decimal helpers shared by the models. */
module Numbers {

  function Max(a: int, b: int): int {
    if a >= b then a else b
  }

  function Min(a: int, b: int): int {
    if a <= b then a else b
  }

  /** Quotient and remainder determine each other. */
  lemma QuotientOf(a: int, q: int, r: int, b: int)
    requires b > 0 && a == q * b + r && 0 <= r < b
    ensures a / b == q && a % b == r
  {
    var d := a / b - q;
    assert d * b == r - a % b;
    assert d >= 1 ==> d * b >= b;
    assert d <= -1 ==> d * b <= -b;
  }

  /** Go's integer division, which cuts towards zero. */
  function TruncDiv(a: int, b: int): (q: int)
    requires b > 0
    ensures 0 <= a ==> q * b <= a < q * b + b
    ensures a <= 0 ==> q * b - b < a <= q * b
  {
    if a >= 0 then a / b else -(-a / b)
  }

  /** Go's remainder, which takes the sign of the dividend. */
  function TruncMod(a: int, b: int): int
    requires b > 0
  {
    a - TruncDiv(a, b) * b
  }

  function Times(n: nat, x: real): real {
    if n == 0 then 0.0 else Times(n - 1, x) + x
  }

  lemma {:induction false} TimesSign(n: nat, x: real)
    requires n > 0
    ensures x > 0.0 ==> Times(n, x) > 0.0
    ensures x < 0.0 ==> Times(n, x) < 0.0
    ensures x == 0.0 ==> Times(n, x) == 0.0
  {
    if n > 1 {
      TimesSign(n - 1, x);
    }
  }

  lemma {:induction false} TimesAdds(n: nat, x: real, y: real)
    ensures Times(n, x + y) == Times(n, x) + Times(n, y)
  {
    if n > 0 {
      TimesAdds(n - 1, x, y);
    }
  }
}
