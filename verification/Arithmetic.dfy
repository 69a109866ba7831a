// Facts about multiplication and division
module Arithmetic {
  lemma DivBounds(x: int, y: int)
    requires y > 0
    ensures (x / y) * y <= x < (x / y) * y + y
  {
  }

  lemma DivIs(x: int, y: int, q: int)
    requires y > 0 && q * y <= x < q * y + y
    ensures x / y == q
  {
    DivBounds(x, y);
    var p := x / y;
    assert p < q ==> (p + 1) * y <= q * y;
    assert p > q ==> (q + 1) * y <= p * y;
  }

  lemma Scale(a: int, b: int, k: int)
    requires a <= b && k >= 0
    ensures a * k <= b * k
  {
  }

  lemma Multiple(m: int, k: int)
    requires m > 0
    ensures (m * k) % m == 0
  {
    var q, r := (m * k) / m, (m * k) % m;
    assert m * (k - q) == r;
    assert k - q >= 1 ==> m * (k - q) >= m;
    assert k - q <= -1 ==> m * (k - q) <= -m;
  }

  lemma SumOfMultiples(a: int, b: int, m: int)
    requires m > 0 && a % m == 0 && b % m == 0
    ensures (a + b) % m == 0 && (a - b) % m == 0
  {
    var x, y := a / m, b / m;
    assert a == m * x && b == m * y;
    assert a + b == m * (x + y) && a - b == m * (x - y);
    Multiple(m, x + y);
    Multiple(m, x - y);
  }
}
