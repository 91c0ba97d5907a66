/** Division and multiplication facts that the money modules share. */
module Arithmetic {

  const BPS := 10_000

  function Min(a: int, b: int): int { if a <= b then a else b }
  function Max(a: int, b: int): int { if a <= b then b else a }

  /** Integer division that truncates toward zero. */
  function TruncDiv(a: int, b: int): int
    requires b != 0
  {
    if a >= 0 then a / b else -((-a) / b)
  }

  lemma EuclideanParts(x: int, b: int)
    requires b != 0
    ensures x == (x / b) * b + x % b && 0 <= x % b < Max(b, -b)
  {
  }

  lemma NegatedProduct(q: int, b: int)
    ensures (-q) * b == -(q * b)
  {
  }

  /** The rest is smaller than the divisor and has the sign of the dividend. */
  lemma TruncDivIsTruncation(a: int, b: int)
    requires b != 0
    ensures var rest := a - TruncDiv(a, b) * b;
            (a >= 0 ==> 0 <= rest) && (a <= 0 ==> rest <= 0) && -Max(b, -b) < rest < Max(b, -b)
  {
    if a >= 0 {
      EuclideanParts(a, b);
    } else {
      EuclideanParts(-a, b);
      NegatedProduct((-a) / b, b);
    }
  }

  lemma MulMonotone(a: int, b: int, c: nat)
    requires a <= b
    ensures a * c <= b * c
  {
    assert 0 <= (b - a) * c;
  }

  lemma MulStrict(a: int, b: int, c: int)
    requires a < b && c > 0
    ensures a * c < b * c
  {
    MulMonotone(a + 1, b, c);
    assert (a + 1) * c == a * c + c;
  }

  lemma DivParts(x: int, b: int)
    requires b > 0
    ensures x == (x / b) * b + x % b && 0 <= x % b < b
    ensures (x / b) * b <= x < (x / b) * b + b
  {
  }

  lemma DivAtMost(x: int, b: int, m: int)
    requires b > 0 && x < m * b + b
    ensures x / b <= m
  {
    DivParts(x, b);
    if x / b > m {
      MulMonotone(m + 1, x / b, b);
    }
  }

  lemma DivAtLeast(x: int, b: int, m: int)
    requires b > 0 && x >= m * b
    ensures x / b >= m
  {
    DivParts(x, b);
    if x / b < m {
      MulMonotone(x / b + 1, m, b);
    }
  }

  lemma DivMonotone(x: int, y: int, b: int)
    requires b > 0 && x <= y
    ensures x / b <= y / b
  {
    DivParts(x, b);
    DivAtLeast(y, b, x / b);
  }

  lemma DivUnique(x: int, b: int, q: int)
    requires b > 0 && q * b <= x < q * b + b
    ensures x / b == q
  {
    DivAtMost(x, b, q);
    DivAtLeast(x, b, q);
  }

  lemma DivOfSum(x: int, y: int, b: int)
    requires b > 0
    ensures x / b + y / b <= (x + y) / b <= x / b + y / b + 1
  {
    DivParts(x, b);
    DivParts(y, b);
    var q := x / b + y / b;
    assert q * b == (x / b) * b + (y / b) * b;
    DivAtLeast(x + y, b, q);
    DivAtMost(x + y, b, q + 1);
  }

  /** Dividing twice floors to the same as dividing once by the product. */
  lemma DivOfDiv(x: int, a: int, b: int)
    requires a > 0 && b > 0
    ensures a * b > 0 && x / a / b == x / (a * b)
  {
    assert a * b > 0 by { MulStrict(0, a, b); }
    var p := x / a;
    var q := p / b;
    DivParts(x, a);
    DivParts(p, b);
    assert q * (a * b) == (q * b) * a;
    MulMonotone(q * b, p, a);
    MulMonotone(p, q * b + b - 1, a);
    assert (q * b + b - 1) * a == q * (a * b) + a * b - a;
    DivUnique(x, a * b, q);
  }
}
