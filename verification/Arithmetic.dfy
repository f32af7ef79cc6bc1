/** Small arithmetic shared by the models, and division facts that the solver does not find on
    its own. */
module Arithmetic {

  function Min(x: real, y: real): real {
    if x <= y then x else y
  }

  function Max(x: real, y: real): real {
    if x >= y then x else y
  }

  /** `max(1, n)`. */
  function AtLeastOne(n: int): nat {
    if n < 1 then 1 else n
  }

  /** The nearest integer, the even one of two equally near, as Python's `round` has it. */
  function RoundHalfEven(x: real): int {
    var down := x.Floor;
    var rest := x - down as real;
    if rest < 0.5 || (rest == 0.5 && down % 2 == 0) then down else down + 1
  }

  /** `round(x, 4)` on real numbers. */
  function Round4(x: real): real {
    RoundHalfEven(x * 10000.0) as real / 10000.0
  }

  lemma HalfEven(y: real)
    ensures var n := RoundHalfEven(y);
            && -0.5 <= n as real - y <= 0.5
            && (n as real - y == 0.5 || n as real - y == -0.5 ==> n % 2 == 0)
  {
    var down := y.Floor;
    assert down as real <= y < down as real + 1.0;
    if down % 2 != 0 { assert (down + 1) % 2 == 0; }
  }

  /** The result is the multiple n of 0.0001 nearest to x, the even one of two equally near. */
  lemma Round4IsNearest(x: real) returns (n: int)
    ensures Round4(x) * 10000.0 == n as real
    ensures -0.00005 <= Round4(x) - x <= 0.00005
    ensures Round4(x) - x == 0.00005 || Round4(x) - x == -0.00005 ==> n % 2 == 0
    ensures Round4(Round4(x)) == Round4(x)
  {
    n := RoundHalfEven(x * 10000.0);
    HalfEven(x * 10000.0);
    assert Round4(x) * 10000.0 == n as real;
    assert RoundHalfEven(n as real) == n;
  }

  lemma ScaleMonotone(base: real, x: real, y: real)
    requires x <= y && (base >= 0.0 || x == y)
    ensures base * x <= base * y
  {
  }

  lemma MultipleIsFar(d: int, k: int)
    requires k >= 1
    ensures d >= 1 ==> d * k >= k
    ensures d <= -1 ==> d * k <= -k
  {
  }

  /** Quotient and remainder are determined by the remainder's range. */
  lemma DivModUnique(n: int, k: int, q: int, r: int)
    requires k >= 1 && 0 <= r < k && n == q * k + r
    ensures n / k == q && n % k == r
  {
    var d := n / k - q;
    assert n == (n / k) * k + n % k;
    assert d * k == r - n % k;
    MultipleIsFar(d, k);
  }
}
