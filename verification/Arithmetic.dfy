/** Facts about remainders and products that the solver does not find by itself. */
module Arithmetic {

  lemma AddMultiple(u: int, m: int, c: int)
    requires c > 0
    ensures (u + m * c) % c == u % c
  {
    assert u == (u / c) * c + u % c;
    assert (u / c + m) * c == (u / c) * c + m * c;
    RemainderUnique(u + m * c, u / c + m, u % c, c);
  }

  lemma MultipleAtLeast(k: int, c: int)
    requires c > 0 && k >= 1
    ensures k * c >= c
  {
    assert k * c == c + (k - 1) * c;
    assert (k - 1) * c >= 0;
  }

  /** A multiple of c that is less than c away from zero is zero. */
  lemma SmallMultiple(k: int, c: int)
    requires c > 0 && -c < k * c < c
    ensures k == 0
  {
    if k >= 1 { MultipleAtLeast(k, c); }
    if k <= -1 { MultipleAtLeast(-k, c); }
  }

  lemma RemainderUnique(x: int, q: int, r: int, c: int)
    requires c > 0 && 0 <= r < c && x == q * c + r
    ensures x % c == r
  {
    var q' := x / c;
    assert x == q' * c + x % c;
    assert (q - q') * c == q * c - q' * c;
    SmallMultiple(q - q', c);
  }

  lemma ModDistinct(a: nat, b: nat, c: nat)
    requires c > 0 && a < b && b - a < c
    ensures a % c != b % c
  {
    if a % c == b % c {
      var q, q' := a / c, b / c;
      assert a == q * c + a % c && b == q' * c + b % c;
      assert (q' - q) * c == q' * c - q * c;
      SmallMultiple(q' - q, c);
      assert false;
    }
  }

  // ------------------------------------------------------------------ products of reals

  lemma ProductNonNegative(x: real, y: real)
    requires x >= 0.0 && y >= 0.0
    ensures x * y >= 0.0
  {
  }

  lemma ProductPositive(x: real, y: real)
    requires x > 0.0 && y > 0.0
    ensures x * y > 0.0
  {
  }

  lemma Distribute(x: real, y: real, z: real)
    ensures x * (y + z) == x * y + x * z
    ensures x * (y - z) == x * y - x * z
  {
  }

  lemma Associate(x: real, y: real, z: real)
    ensures (x * y) * z == x * (y * z)
  {
  }

  /** Multiplying by something non-negative keeps the order. */
  lemma Scale(p: real, x: real, y: real)
    requires 0.0 <= p && x <= y
    ensures p * x <= p * y
  {
    ProductNonNegative(p, y - x);
    Distribute(p, y, x);
  }

  /** A multiple of a that reaches k. */
  lemma Reaches(k: real, a: real) returns (n: nat)
    requires 0.0 <= k && 0.0 < a
    ensures n as real * a >= k
  {
    var q := k / a;
    assert q * a == k;
    assert q >= 0.0 by { if q < 0.0 { ProductNonNegative(-q, a); } }
    n := q.Floor + 1;
    Scale(a, q, n as real);
  }
}
