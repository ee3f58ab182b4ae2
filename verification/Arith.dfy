/** Powers, geometric sums and digit arithmetic that the m-ary tree overlay rests on. */
module Arith {

  /** m to the k, the `pow(fanout, level)` of the overlay code. */
  function Pow(m: nat, k: nat): nat
  {
    if k == 0 then 1 else m * Pow(m, k - 1)
  }

  /** The number of nodes above level k of an m-ary tree: 1 + m + ... + m^(k-1). */
  function Geo(m: nat, k: nat): nat
  {
    if k == 0 then 0 else Geo(m, k - 1) + Pow(m, k - 1)
  }

  /** ceil(m / 2), the number of children that precede their parent in in-order. */
  function CeilHalf(m: nat): nat
  {
    (m + 1) / 2
  }

  lemma {:induction false} MulAssoc(a: int, b: int, c: int)
    ensures (a * b) * c == a * (b * c)
  {
  }

  lemma {:induction false} MulSwap(a: int, b: int, c: int)
    ensures a * (b * c) == b * (a * c)
  {
    MulAssoc(a, b, c);
    MulAssoc(b, a, c);
  }

  lemma {:induction false} MulDistribute(a: int, b: int, c: int)
    ensures (a + b) * c == a * c + b * c
  {
  }

  lemma {:induction false} MulMono(a: int, b: int, c: int)
    requires a <= b && 0 <= c
    ensures a * c <= b * c && c * a <= c * b
  {
  }

  lemma {:induction false} MulStrict(a: int, b: int, c: int)
    requires a < b && 0 < c
    ensures a * c < b * c && c * a < c * b
  {
  }

  /** A product cannot grow while one factor stays and the other does not. */
  lemma {:induction false} MulCancel(a: int, b: int, c: int)
    requires 0 < c && a * c < b * c
    ensures a < b
  {
    if b <= a { MulMono(b, a, c); }
  }

  lemma {:induction false} PowPositive(m: nat, k: nat)
    requires m >= 1
    ensures Pow(m, k) >= 1
  {
    if k > 0 { PowPositive(m, k - 1); }
  }

  lemma {:induction false} PowAdd(m: nat, a: nat, b: nat)
    ensures Pow(m, a + b) == Pow(m, a) * Pow(m, b)
  {
    if a > 0 {
      PowAdd(m, a - 1, b);
      MulAssoc(m, Pow(m, a - 1), Pow(m, b));
    }
  }

  lemma {:induction false} PowMono(m: nat, a: nat, b: nat)
    requires m >= 2 && a <= b
    ensures Pow(m, a) <= Pow(m, b)
    ensures a < b ==> m * Pow(m, a) <= Pow(m, b)
    decreases b - a
  {
    PowPositive(m, a);
    if a < b {
      PowMono(m, a + 1, b);
      MulMono(1, m, Pow(m, a));
    }
  }

  lemma {:induction false} PowGrows(m: nat, k: nat)
    requires m >= 2
    ensures Pow(m, k) > k
  {
    if k > 0 {
      PowGrows(m, k - 1);
      MulMono(2, m, Pow(m, k - 1));
    }
  }

  lemma {:induction false} GeoClosed(m: nat, k: nat)
    requires m >= 1
    ensures Geo(m, k) * (m - 1) == Pow(m, k) - 1
  {
    if k > 0 {
      GeoClosed(m, k - 1);
      var p := Pow(m, k - 1);
      MulDistribute(Geo(m, k - 1), p, m - 1);
      MulDistribute(m, -1, p);
    }
  }

  lemma {:induction false} GeoShift(m: nat, k: nat)
    ensures Geo(m, k + 1) == m * Geo(m, k) + 1
  {
    if k > 0 {
      GeoShift(m, k - 1);
      assert m * (Geo(m, k - 1) + Pow(m, k - 1)) == m * Geo(m, k - 1) + m * Pow(m, k - 1);
    }
  }

  lemma {:induction false} GeoMono(m: nat, a: nat, b: nat)
    requires m >= 2 && a <= b
    ensures Geo(m, a) + (b - a) <= Geo(m, b)
    decreases b - a
  {
    if a < b {
      GeoMono(m, a, b - 1);
      PowPositive(m, b - 1);
    }
  }

  /** The quotient and the remainder are the only pair with a remainder below the divisor. */
  lemma {:induction false} DivModUnique(x: int, m: int, q: int, r: int)
    requires m > 0 && 0 <= r < m && x == q * m + r
    ensures x / m == q && x % m == r
  {
    var q', r' := x / m, x % m;
    assert x == q' * m + r';
    if q < q' {
      MulMono(q + 1, q', m);
    } else if q' < q {
      MulMono(q' + 1, q, m);
    }
  }

  lemma {:induction false} ExactDiv(x: int, d: int, q: int)
    requires d > 0 && q * d == x
    ensures x / d == q
  {
    DivModUnique(x, d, q, 0);
  }

  /** Division by m picks the block of length m that holds x. */
  lemma {:induction false} DivBlock(x: int, m: int, q: int)
    requires m > 0
    ensures x / m == q <==> q * m <= x < (q + 1) * m
  {
    if q * m <= x < (q + 1) * m {
      DivModUnique(x, m, q, x - q * m);
    }
  }

  /** Multiples of m bound a number exactly when their quotients bound its quotient. */
  lemma {:induction false} DivBounds(x: int, m: int, low: int, high: int)
    requires m > 0
    ensures m * low <= x <==> low <= x / m
    ensures x < m * high <==> x / m < high
  {
    var q := x / m;
    DivBlock(x, m, q);
    if low <= q { MulMono(low, q, m); } else { MulMono(q + 1, low, m); }
    if q < high { MulMono(q + 1, high, m); } else { MulMono(high, q, m); }
  }

  lemma {:induction false} QuotientShrinks(x: nat, m: nat)
    requires 2 <= m <= x
    ensures 0 < x / m < x
  {
    MulMono(2, m, x);
    DivBounds(x, m, 1, x);
  }

  lemma {:induction false} HalfBounds(m: nat)
    requires m >= 2
    ensures 1 <= CeilHalf(m) < m
    ensures 2 * CeilHalf(m) == m || 2 * CeilHalf(m) == m + 1
  {
  }

  lemma {:induction false} MulPositive(a: int, b: int)
    requires 0 < a && 0 < b
    ensures 0 < a * b
  {
  }

  /** A power of an odd number is odd, a positive power of an even number is even. */
  lemma {:induction false} PowParity(m: nat, k: nat)
    requires k >= 1
    ensures Pow(m, k) % 2 == m % 2
  {
    if k > 1 {
      PowParity(m, k - 1);
      OddProduct(m, Pow(m, k - 1));
    } else {
      assert Pow(m, 1) == m * Pow(m, 0);
    }
  }

  lemma {:induction false} OddProduct(a: nat, b: nat)
    ensures (a * b) % 2 == (a % 2) * (b % 2)
  {
    var i := a / 2;
    if a % 2 == 0 {
      assert a * b == 2 * (i * b) by { assert a == 2 * i; }
    } else {
      assert a * b == 2 * (i * b) + b by { assert a == 2 * i + 1; }
    }
  }

  /** The product of two natural numbers is one. */
  lemma {:induction false} MulNatural(a: nat, b: nat)
    ensures 0 <= a * b
  {
  }
}
