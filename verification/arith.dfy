/** Facts about Dafny's Euclidean `/` and `%`, which coincide with Rust's
    `div_euclid` and `rem_euclid`. */
module Arith {
  /** Euclidean division is determined by its defining equation. */
  lemma DivIsUnique(a: int, b: int, q: int, m: int)
    requires b > 0 && 0 <= m < b && a == q * b + m
    ensures a / b == q && a % b == m
  {
    var q', m' := a / b, a % b;
    assert a == q' * b + m';
    assert (q - q') * b == m' - m;
    if q - q' >= 1 {
      MulAtLeast(q - q', b);
    } else if q - q' <= -1 {
      MulAtLeast(q' - q, b);
    }
  }

  lemma MulStep(n: int, a: int)
    ensures (n - 1) * a + a == n * a
  {
  }

  lemma MulAtLeast(t: int, b: int)
    requires t >= 1 && b > 0
    ensures t * b >= b
  {
  }

  /** The quotient places `a` in the interval `[q*b, q*b + b)`. */
  lemma DivBounds(a: int, b: int)
    requires b > 0
    ensures (a / b) * b <= a < (a / b) * b + b
  {
  }

  /** Membership in a divisor-sized interval pins down the quotient. */
  lemma DivInterval(a: int, b: int, q: int)
    requires b > 0
    ensures a / b == q <==> q * b <= a < q * b + b
  {
    DivBounds(a, b);
    if q * b <= a < q * b + b {
      DivIsUnique(a, b, q, a - q * b);
    }
  }

  /** Subtracting the remainder leaves a multiple of the divisor. */
  lemma RemainderRemoved(a: int, b: int)
    requires b > 0
    ensures (a - a % b) % b == 0
  {
    DivIsUnique(a - a % b, b, a / b, 0);
  }

  /** Multiples of `b` are closed under negation. */
  lemma MultipleNegated(a: int, b: int)
    requires b > 0 && a % b == 0
    ensures (-a) % b == 0
  {
    DivIsUnique(-a, b, -(a / b), 0);
  }

  /** Adding a multiple of `p` keeps the remainder. */
  lemma ModOfSum(x: int, m: int, p: int)
    requires p > 0 && m % p == 0
    ensures (x + m) % p == x % p
  {
    DivIsUnique(x + m, p, x / p + m / p, x % p);
  }

  lemma MulMonotone(a: int, b: int, c: int)
    requires a <= b && c >= 0
    ensures a * c <= b * c
  {
  }

  /** A product with a non-zero factor vanishes only with the other. */
  lemma MulZero(a: int, b: int)
    ensures b != 0 ==> (a * b == 0 <==> a == 0)
  {
    if b != 0 && a != 0 {
      if a > 0 && b > 0 { MulAtLeast(a, b); }
      else if a > 0 { MulAtLeast(a, -b); assert a * (-b) == -(a * b); }
      else if b > 0 { MulAtLeast(-a, b); assert (-a) * b == -(a * b); }
      else { MulAtLeast(-a, -b); assert (-a) * (-b) == a * b; }
    }
  }

  lemma MulNegLeft(c: int, p: int)
    ensures (-c) * p == -(c * p)
  {
  }

  /** Ring `d` of `6 d` offsets grows `3 (d-1)^2 + 3 (d-1)` offsets to
      `3 d^2 + 3 d`. */
  lemma NeighborCount(d: int)
    requires d >= 1
    ensures (if d - 1 < 1 then 0 else 3 * (d - 1) * (d - 1) + 3 * (d - 1)) + 6 * d == 3 * d * d + 3 * d
  {
    var e := d - 1;
    assert d * d == e * e + 2 * e + 1;
  }

  /** `3 r^2 + 3 r = 6 (r (r+1) / 2)` is even. */
  lemma ConsecutiveProductEven(r: int)
    ensures (3 * r * r + 3 * r) % 2 == 0
  {
    var k := r / 2;
    if r % 2 == 0 {
      assert r == 2 * k;
      assert 3 * r * r + 3 * r == 2 * (6 * k * k + 3 * k);
    } else {
      assert r == 2 * k + 1;
      assert 3 * r * r + 3 * r == 2 * (6 * k * k + 9 * k + 3);
    }
  }
}
