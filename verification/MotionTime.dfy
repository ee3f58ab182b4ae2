/**
How long a vehicle needs for a part of a straight route: it accelerates, drives at constant speed and
decelerates.  Square roots are given as parameters with the property of a root.
*/
module MotionTime {

  /** The distance, the highest velocity, the acceleration and the deceleration's magnitude. */
  datatype Drive = Drive(distance: real, velocity: real, acc: real, dec: real)

  predicate Physical(k: Drive)
  {
    k.distance >= 0.0 && k.velocity > 0.0 && k.acc > 0.0 && k.dec > 0.0
  }

  predicate IsRoot(r: real, x: real)
  {
    r >= 0.0 && r * r == x
  }

  /** The distance at which the highest velocity is just reached. */
  function Threshold(k: Drive): real
    requires Physical(k)
  {
    (k.velocity * k.velocity) / (2.0 * k.dec) + (k.velocity * k.velocity) / (2.0 * k.acc)
  }

  /** The radicand of the acceleration time on a short route. */
  function AccSquare(k: Drive): real
    requires Physical(k)
  {
    (2.0 * k.distance / k.acc) * (k.dec / (k.acc + k.dec))
  }

  /** The radicand of the deceleration time on a short route. */
  function DecSquare(k: Drive): real
    requires Physical(k)
  {
    (2.0 * k.distance / k.acc) * (k.acc / (k.acc + k.dec))
  }

  predicate Short(k: Drive)
    requires Physical(k)
  {
    k.distance <= Threshold(k)
  }

  /** The roots that are drawn for the acceleration and the deceleration time. */
  predicate Roots(k: Drive, accRoot: real, decRoot: real)
    requires Physical(k)
  {
    Short(k) ==> IsRoot(accRoot, AccSquare(k)) && IsRoot(decRoot, DecSquare(k))
  }

  datatype Vars = Vars(
    timeAcc: real, timeConst: real, timeDecel: real,
    distAcc: real, distConst: real, distDecel: real,
    maxAcc: real, minAcc: real, velocity: real)

  /** estimatesCostsInTime for the three phases. */
  function TimeAcc(k: Drive, accRoot: real): real
    requires Physical(k)
  {
    if Short(k) then accRoot else k.velocity / k.acc
  }

  function TimeDecel(k: Drive, decRoot: real): real
    requires Physical(k)
  {
    if Short(k) then decRoot else k.velocity / k.dec
  }

  function TimeConst(k: Drive): real
    requires Physical(k)
  {
    if Short(k) then 0.0
    else
      var square := k.velocity * k.velocity;
      (k.distance - square / (2.0 * k.acc) - square / (2.0 * k.dec)) / k.velocity
  }

  /** calculateVariables up to the verification of its results. */
  function CalculateVariables(k: Drive, accRoot: real, decRoot: real): Vars
    requires Physical(k)
  {
    var t, c, d := TimeAcc(k, accRoot), TimeConst(k), TimeDecel(k, decRoot);
    var v := k.acc * t;
    Vars(t, c, d, (k.acc * t * t) / 2.0, v * c, (k.dec * d * d) / -2.0 + v * d, k.acc, k.dec, v)
  }

  function Total(c: Vars): real
  {
    c.distAcc + c.distConst + c.distDecel
  }

  const EPSILON: real := 0.01

  predicate Near(x: real, y: real)
  {
    -EPSILON < x - y < EPSILON
  }

  /** verifyCalculation. */
  predicate Verified(k: Drive, c: Vars)
  {
    && (if c.velocity != k.velocity then c.timeConst == 0.0 else c.timeConst != 0.0)
    && c.velocity <= k.velocity
    && Near(k.distance, Total(c))
    && (c.maxAcc == c.minAcc ==> c.timeAcc == c.timeDecel && c.distAcc == c.distDecel)
  }

  // ----- arithmetic -----

  /** Products under a name, so that equal factors are seen to give equal products. */
  function Mul(x: real, y: real): real
  {
    x * y
  }

  lemma {:induction false} Quotient(x: real, y: real)
    requires y != 0.0
    ensures (x / y) * y == x
  {
  }

  lemma {:induction false} ProductOfQuotients(x: real, a: real, y: real, s: real)
    requires a > 0.0 && s > 0.0
    ensures ((x / a) * (y / s)) * (a * s) == x * y
  {
    var p, q := x / a, y / s;
    assert p * a == x && q * s == y;
    assert (p * q) * (a * s) == (p * a) * (q * s);
  }

  lemma {:induction false} CancelReal(x: real, y: real, c: real)
    requires c > 0.0 && x * c == y * c
    ensures x == y
  {
  }

  lemma {:induction false} QuotientIs(x: real, y: real, z: real)
    requires y > 0.0 && z * y == x
    ensures x / y == z
  {
    Quotient(x, y);
    CancelReal(x / y, z, y);
  }

  lemma {:induction false} PositiveProduct(x: real, y: real)
    ensures x > 0.0 && y > 0.0 ==> Mul(x, y) > 0.0
    ensures x >= 0.0 && y >= 0.0 ==> Mul(x, y) >= 0.0
  {
  }

  lemma {:induction false} SquareLess(x: real, y: real)
    requires 0.0 <= x < y
    ensures Mul(x, x) < Mul(y, y)
  {
    var d := y - x;
    PositiveProduct(d, d);
    PositiveProduct(x, d);
    assert Mul(y, y) == Mul(x, x) + 2.0 * Mul(x, d) + Mul(d, d);
  }

  lemma {:induction false} SquareOrder(x: real, y: real)
    requires x >= 0.0 && y >= 0.0
    ensures x < y <==> Mul(x, x) < Mul(y, y)
    ensures x == y <==> Mul(x, x) == Mul(y, y)
  {
    if x < y { SquareLess(x, y); } else if y < x { SquareLess(y, x); }
  }

  lemma {:induction false} ProductLess(x: real, y: real, c: real)
    requires c > 0.0 && x < y
    ensures Mul(x, c) < Mul(y, c)
  {
    PositiveProduct(y - x, c);
    assert Mul(y, c) == Mul(x, c) + Mul(y - x, c);
  }

  lemma {:induction false} ProductOrder(x: real, y: real, c: real)
    requires c > 0.0
    ensures x < y <==> Mul(x, c) < Mul(y, c)
    ensures x == y <==> Mul(x, c) == Mul(y, c)
  {
    if x < y { ProductLess(x, y, c); } else if y < x { ProductLess(y, x, c); }
  }

  // ----- short routes -----

  /** On a short route both times are known by their squares. */
  lemma {:induction false} ShortSquares(k: Drive, accRoot: real, decRoot: real)
    requires Physical(k) && Short(k) && Roots(k, accRoot, decRoot)
    ensures (accRoot * accRoot) * (k.acc * (k.acc + k.dec)) == (2.0 * k.distance) * k.dec
    ensures (decRoot * decRoot) * (k.acc + k.dec) == 2.0 * k.distance
  {
    var a, s, x := k.acc, k.acc + k.dec, 2.0 * k.distance;
    ProductOfQuotients(x, a, k.dec, s);
    ProductOfQuotients(x, a, a, s);
    assert ((decRoot * decRoot) * s) * a == x * a;
    CancelReal((decRoot * decRoot) * s, x, a);
  }

  /** On a short route the route length that is covered is velocity times deceleration time. */
  lemma {:induction false} ShortTotal(k: Drive, accRoot: real, decRoot: real)
    requires Physical(k) && Short(k) && Roots(k, accRoot, decRoot)
    ensures var c := CalculateVariables(k, accRoot, decRoot);
      Total(c) == (k.acc * accRoot) * decRoot && c.distConst == 0.0 && c.timeConst == 0.0
  {
    ShortSquares(k, accRoot, decRoot);
    var a, b, s := k.acc, k.dec, k.acc + k.dec;
    var p, q := accRoot * accRoot, decRoot * decRoot;
    assert (a * p) * s == (b * q) * s by {
      assert (a * p) * s == p * (a * s);
      assert (b * q) * s == (q * s) * b;
    }
    CancelReal(a * p, b * q, s);
    assert k.acc * accRoot * accRoot == a * p;
    assert k.dec * decRoot * decRoot == b * q;
  }

  lemma {:induction false} SquareOfProduct(a: real, r: real, q: real)
    ensures ((a * r) * q) * ((a * r) * q) == (a * a) * ((r * r) * (q * q))
  {
    var x := a * r;
    assert (x * q) * (x * q) == (x * x) * (q * q);
    assert x * x == (a * a) * (r * r);
    assert ((a * a) * (r * r)) * (q * q) == (a * a) * ((r * r) * (q * q));
  }

  lemma {:induction false} Regroup(a: real, p: real, q: real, s: real)
    ensures ((a * a) * (p * q)) * (s * s) == a * ((p * (a * s)) * (q * s))
  {
    var u := a * s;
    assert (p * u) * (q * s) == (p * q) * (u * s);
    assert a * ((p * q) * (u * s)) == (p * q) * (a * (u * s));
    assert a * (u * s) == (a * a) * (s * s);
    assert ((a * a) * (p * q)) * (s * s) == (p * q) * ((a * a) * (s * s));
  }

  lemma {:induction false} FourTimes(a: real, b: real, d: real)
    ensures a * (((2.0 * d) * b) * (2.0 * d)) == 4.0 * (a * b) * (d * d)
  {
    assert ((2.0 * d) * b) * (2.0 * d) == 4.0 * (b * (d * d));
    assert a * (4.0 * (b * (d * d))) == 4.0 * (a * (b * (d * d)));
    assert a * (b * (d * d)) == (a * b) * (d * d);
  }

  lemma {:induction false} ShortTotalSquare(a: real, b: real, s: real, d: real, r: real, u: real, x: real, q: real)
    requires x == (a * r) * u && q == Mul(s, s)
    requires (r * r) * (a * s) == (2.0 * d) * b && (u * u) * s == 2.0 * d
    ensures Mul(Mul(x, x), q) == 4.0 * Mul(Mul(a, b), Mul(d, d))
  {
    SquareOfProduct(a, r, u);
    Regroup(a, r * r, u * u, s);
    FourTimes(a, b, d);
  }

  lemma {:induction false} SquareOfSum(a: real, b: real)
    requires a > 0.0 && b > 0.0
    ensures Mul(a + b, a + b) == 4.0 * Mul(a, b) + Mul(a - b, a - b)
    ensures Mul(a + b, a + b) > 0.0
  {
    PositiveProduct(a + b, a + b);
  }

  lemma {:induction false} SquareIsZero(g: real)
    ensures if g == 0.0 then Mul(g, g) == 0.0 else Mul(g, g) > 0.0
  {
    PositiveProduct(g, g);
    PositiveProduct(0.0 - g, 0.0 - g);
    assert Mul(0.0 - g, 0.0 - g) == Mul(g, g);
  }

  lemma {:induction false} ShortCompared(k: Drive, accRoot: real, decRoot: real) returns (x: real, q: real, h: real)
    requires Physical(k) && Short(k) && Roots(k, accRoot, decRoot)
    ensures x == (k.acc * accRoot) * decRoot && x >= 0.0 && q > 0.0 && q == Mul(k.acc + k.dec, k.acc + k.dec)
    ensures q == 4.0 * Mul(k.acc, k.dec) + h && if k.acc == k.dec then h == 0.0 else h > 0.0
    ensures Mul(Mul(x, x), q) == 4.0 * Mul(Mul(k.acc, k.dec), Mul(k.distance, k.distance))
  {
    var a, b := k.acc, k.dec;
    SquareOfSum(a, b);
    x, q, h := (a * accRoot) * decRoot, Mul(a + b, a + b), Mul(a - b, a - b);
    SquareIsZero(a - b);
    ShortSquares(k, accRoot, decRoot);
    ShortTotalSquare(a, b, a + b, k.distance, accRoot, decRoot, x, q);
    PositiveProduct(a, accRoot);
    PositiveProduct(a * accRoot, decRoot);
  }

  lemma {:induction false} Gap(p: real, e: real, q: real, h: real)
    requires q == 4.0 * p + h
    ensures 4.0 * Mul(p, e) == Mul(e, q) - Mul(e, h)
  {
  }

  lemma {:induction false} CompareSquares(x: real, d: real, q: real, h: real, y: real, e: real)
    requires x >= 0.0 && d >= 0.0 && q > 0.0 && h >= 0.0 && y == Mul(x, x) && e == Mul(d, d)
    requires Mul(y, q) == Mul(e, q) - Mul(e, h)
    ensures if h > 0.0 && d > 0.0 then x < d else x == d
  {
    ProductOrder(y, e, q);
    SquareOrder(x, d);
    PositiveProduct(d, d);
    PositiveProduct(e, h);
    assert h == 0.0 || e == 0.0 ==> Mul(e, h) == 0.0;
    assert d == 0.0 ==> e == 0.0;
  }

  /** The phases of a short route add up to it exactly when both accelerations are equal or it has no length. */
  lemma {:induction false} ShortTotalIff(k: Drive, accRoot: real, decRoot: real)
    requires Physical(k) && Short(k) && Roots(k, accRoot, decRoot)
    ensures var c := CalculateVariables(k, accRoot, decRoot);
      Total(c) <= k.distance && (Total(c) == k.distance <==> k.acc == k.dec || k.distance == 0.0)
  {
    ShortTotal(k, accRoot, decRoot);
    var x, q, h := ShortCompared(k, accRoot, decRoot);
    var d := k.distance;
    Gap(Mul(k.acc, k.dec), Mul(d, d), q, h);
    CompareSquares(x, d, q, h, Mul(x, x), Mul(d, d));
  }

  /** The square of the velocity that is reached on a short route. */
  lemma {:induction false} ShortVelocity(k: Drive, accRoot: real, decRoot: real)
    requires Physical(k) && Short(k) && Roots(k, accRoot, decRoot)
    ensures k.acc * accRoot >= 0.0
    ensures if k.distance < Threshold(k) then k.acc * accRoot < k.velocity else k.acc * accRoot == k.velocity
  {
    var a, b, s, r, v := k.acc, k.dec, k.acc + k.dec, accRoot, k.velocity;
    ShortSquares(k, accRoot, decRoot);
    PositiveProduct(a, r);
    ReachedSquare(a, b, s, k.distance, r, a * r);
    ThresholdSquare(k);
    PositiveProduct(a, b);
    ProductOrder(k.distance, Threshold(k), Mul(a, b));
    ProductOrder(Mul(a * r, a * r), Mul(v, v), s);
    SquareOrder(a * r, v);
  }

  lemma {:induction false} ReachedSquare(a: real, b: real, s: real, d: real, r: real, v: real)
    requires v == a * r && (r * r) * (a * s) == (2.0 * d) * b
    ensures Mul(Mul(v, v), s) == 2.0 * Mul(d, Mul(a, b))
  {
    var p := r * r;
    assert v * v == (a * a) * p;
    assert ((a * a) * p) * s == a * (p * (a * s));
    assert a * ((2.0 * d) * b) == 2.0 * (d * (a * b));
  }

  lemma {:induction false} ThresholdSquare(k: Drive)
    requires Physical(k)
    ensures Mul(Mul(k.velocity, k.velocity), k.acc + k.dec) == 2.0 * Mul(Threshold(k), Mul(k.acc, k.dec))
  {
    var a, b, w := k.acc, k.dec, k.velocity * k.velocity;
    var x, y := w / (2.0 * b), w / (2.0 * a);
    Quotient(w, 2.0 * b);
    Quotient(w, 2.0 * a);
    assert (x * (2.0 * b)) * a == 2.0 * (x * (a * b));
    assert (y * (2.0 * a)) * b == 2.0 * (y * (a * b));
    assert w * (a + b) == w * a + w * b;
    assert (x + y) * (a * b) == x * (a * b) + y * (a * b);
  }

  // ----- long routes -----

  lemma {:induction false} LongPhases(k: Drive, accRoot: real, decRoot: real)
    requires Physical(k) && !Short(k)
    ensures var c := CalculateVariables(k, accRoot, decRoot);
      && c.velocity == k.velocity && k.dec * c.timeDecel == k.velocity
      && c.distAcc == (k.velocity * k.velocity) / (2.0 * k.acc)
      && c.distDecel == (k.velocity * k.velocity) / (2.0 * k.dec)
  {
    HalfSquare(k.velocity, k.acc);
    HalfSquare(k.velocity, k.dec);
  }

  lemma {:induction false} LongConst(k: Drive, accRoot: real, decRoot: real)
    requires Physical(k) && !Short(k)
    ensures var c := CalculateVariables(k, accRoot, decRoot);
      && c.timeConst > 0.0
      && c.distConst ==
         k.distance - (k.velocity * k.velocity) / (2.0 * k.acc) - (k.velocity * k.velocity) / (2.0 * k.dec)
  {
    var rest := k.distance - (k.velocity * k.velocity) / (2.0 * k.acc) - (k.velocity * k.velocity) / (2.0 * k.dec);
    LongPhases(k, accRoot, decRoot);
    Quotient(rest, k.velocity);
    PositiveQuotient(rest, k.velocity);
  }

  /** On a long route the highest velocity is reached and the phases always add up. */
  lemma {:induction false} LongTotal(k: Drive, accRoot: real, decRoot: real)
    requires Physical(k) && !Short(k)
    ensures var c := CalculateVariables(k, accRoot, decRoot);
      && c.velocity == k.velocity && k.dec * c.timeDecel == k.velocity && c.timeConst > 0.0
      && c.distAcc == (k.velocity * k.velocity) / (2.0 * k.acc)
      && c.distDecel == (k.velocity * k.velocity) / (2.0 * k.dec)
      && Total(c) == k.distance
  {
    LongPhases(k, accRoot, decRoot);
    LongConst(k, accRoot, decRoot);
  }

  lemma {:induction false} PositiveQuotient(x: real, y: real)
    requires x > 0.0 && y > 0.0
    ensures x / y > 0.0
  {
  }

  lemma {:induction false} HalfSquare(v: real, a: real)
    requires a > 0.0
    ensures a * (v / a) == v
    ensures (a * (v / a) * (v / a)) / 2.0 == (v * v) / (2.0 * a)
    ensures (a * (v / a) * (v / a)) / -2.0 + v * (v / a) == (v * v) / (2.0 * a)
  {
    var t := v / a;
    assert t * a == v;
    assert (v * v) / (2.0 * a) == (v * t) / 2.0 by {
      assert ((v * t) / 2.0) * (2.0 * a) == v * v;
    }
  }

  // ----- the verification -----

  lemma {:induction false} EqualPhases(k: Drive, accRoot: real, decRoot: real)
    requires Physical(k) && Roots(k, accRoot, decRoot) && k.acc == k.dec
    ensures var c := CalculateVariables(k, accRoot, decRoot); c.timeAcc == c.timeDecel && c.distAcc == c.distDecel
  {
    if Short(k) {
      ShortSquares(k, accRoot, decRoot);
      EqualRoots(k.acc, 2.0 * k.acc, k.distance, accRoot, decRoot);
      HalfOf(k.acc, accRoot);
    } else {
      LongTotal(k, accRoot, decRoot);
    }
  }

  lemma {:induction false} HalfOf(a: real, r: real)
    ensures (a * r * r) / 2.0 == (a * r * r) / -2.0 + (a * r) * r
  {
  }

  lemma {:induction false} EqualRoots(a: real, s: real, d: real, r: real, u: real)
    requires a > 0.0 && s > 0.0 && r >= 0.0 && u >= 0.0
    requires (r * r) * (a * s) == (2.0 * d) * a && (u * u) * s == 2.0 * d
    ensures r == u
  {
    var p, q := Mul(r, r), Mul(u, u);
    assert Mul(Mul(p, s), a) == Mul(Mul(q, s), a) by {
      assert (p * s) * a == p * (a * s);
      assert (q * s) * a == (2.0 * d) * a;
    }
    ProductOrder(Mul(p, s), Mul(q, s), a);
    ProductOrder(p, q, s);
    SquareOrder(r, u);
  }

  /** The square of the sum of both accelerations times the square of y. */
  function Scaled(k: Drive, y: real): real
  {
    Mul(Mul(y, y), Mul(k.acc + k.dec, k.acc + k.dec))
  }

  /** On a short route the square of what the phases cover, scaled in the same way. */
  function Reach(k: Drive): real
  {
    4.0 * Mul(Mul(k.acc, k.dec), Mul(k.distance, k.distance))
  }

  /** Comparing with what the phases of a short route cover needs no roots. */
  lemma {:induction false} TotalOrder(k: Drive, accRoot: real, decRoot: real, y: real)
    requires Physical(k) && Short(k) && Roots(k, accRoot, decRoot) && y >= 0.0
    ensures var c := CalculateVariables(k, accRoot, decRoot);
      && (y < Total(c) <==> Scaled(k, y) < Reach(k))
      && (y == Total(c) <==> Scaled(k, y) == Reach(k))
  {
    ShortTotal(k, accRoot, decRoot);
    var x, q, _ := ShortCompared(k, accRoot, decRoot);
    ProductOrder(Mul(y, y), Mul(x, x), q);
    SquareOrder(y, x);
  }

  /** The phases add up to the route within the tolerance, said of the inputs. */
  predicate AddsUp(k: Drive)
    requires Physical(k)
  {
    Short(k) ==> k.distance < EPSILON || Scaled(k, k.distance - EPSILON) < Reach(k)
  }

  lemma {:induction false} AddsUpIff(k: Drive, accRoot: real, decRoot: real)
    requires Physical(k) && Short(k) && Roots(k, accRoot, decRoot)
    ensures Near(k.distance, Total(CalculateVariables(k, accRoot, decRoot))) <==> AddsUp(k)
  {
    ShortTotalIff(k, accRoot, decRoot);
    TotalOrder(k, accRoot, decRoot, 0.0);
    if k.distance >= EPSILON {
      TotalOrder(k, accRoot, decRoot, k.distance - EPSILON);
    } else {
      CoversNothingLess(k, accRoot, decRoot);
    }
  }

  lemma {:induction false} CoversNothingLess(k: Drive, accRoot: real, decRoot: real)
    requires Physical(k) && Short(k) && Roots(k, accRoot, decRoot)
    ensures Total(CalculateVariables(k, accRoot, decRoot)) >= 0.0
  {
    ShortTotal(k, accRoot, decRoot);
    var x, _, _ := ShortCompared(k, accRoot, decRoot);
  }

  /**
  The results are accepted exactly when the distance is not the threshold itself and, on a short route,
  the phases add up to it within the tolerance; both can be seen from the inputs.
  */
  lemma {:induction false} VerifiedIff(k: Drive, accRoot: real, decRoot: real)
    requires Physical(k) && Roots(k, accRoot, decRoot)
    ensures var c := CalculateVariables(k, accRoot, decRoot);
      && (Verified(k, c) <==> k.distance != Threshold(k) && AddsUp(k))
      && (k.distance > Threshold(k) || k.acc == k.dec || k.distance == 0.0 ==> Total(c) == k.distance)
  {
    VerifiedCases(k, accRoot, decRoot);
    if Short(k) { AddsUpIff(k, accRoot, decRoot); }
  }

  lemma {:induction false} VerifiedCases(k: Drive, accRoot: real, decRoot: real)
    requires Physical(k) && Roots(k, accRoot, decRoot)
    ensures var c := CalculateVariables(k, accRoot, decRoot);
      && (Verified(k, c) <==> k.distance != Threshold(k) && Near(k.distance, Total(c)))
      && (k.distance > Threshold(k) || k.acc == k.dec || k.distance == 0.0 ==> Total(c) == k.distance)
  {
    if k.acc == k.dec { EqualPhases(k, accRoot, decRoot); }
    if Short(k) {
      ShortTotal(k, accRoot, decRoot);
      ShortTotalIff(k, accRoot, decRoot);
      ShortVelocity(k, accRoot, decRoot);
    } else {
      LongTotal(k, accRoot, decRoot);
    }
  }

  /** A route of exactly the threshold is always rejected. */
  lemma {:induction false} RejectedAtThreshold(k: Drive, accRoot: real, decRoot: real)
    requires Physical(k) && Roots(k, accRoot, decRoot) && k.distance == Threshold(k)
    ensures !Verified(k, CalculateVariables(k, accRoot, decRoot))
  {
    VerifiedIff(k, accRoot, decRoot);
  }

  /** With a brake that is stronger than the engine a route of length 10 is taken for one of length 8. */
  lemma {:induction false} StrongBrakeRejected()
    ensures var k := Drive(10.0, 10.0, 1.0, 4.0);
      var c := CalculateVariables(k, 4.0, 2.0);
      Roots(k, 4.0, 2.0) && Total(c) == 8.0 && !Verified(k, c)
  {
    var k := Drive(10.0, 10.0, 1.0, 4.0);
    assert AccSquare(k) == 16.0 && DecSquare(k) == 4.0;
    ShortTotal(k, 4.0, 2.0);
  }

  lemma {:induction false} FourfoldSquares(d: real)
    requires d >= 0.01
    ensures 25.0 * Mul(d - 0.01, d - 0.01) < 16.0 * Mul(d, d) <==> d < 0.05
  {
    var x, y := 5.0 * (d - 0.01), 4.0 * d;
    assert Mul(x, x) == 25.0 * Mul(d - 0.01, d - 0.01);
    assert Mul(y, y) == 16.0 * Mul(d, d);
    SquareOrder(x, y);
  }

  /** With a brake four times as strong as the motor the phases lose a fifth of a short route: 5 cm is the limit. */
  lemma {:induction false} FourfoldBrake(k: Drive)
    requires Physical(k) && Short(k) && k.acc == 1.0 && k.dec == 4.0
    ensures AddsUp(k) <==> k.distance < 0.05
  {
    var d := k.distance;
    if d >= 0.01 {
      FourfoldSquares(d);
      assert Mul(k.acc + k.dec, k.acc + k.dec) == 25.0;
      assert Mul(k.acc, k.dec) == 4.0;
    }
  }

  // ----- the distance-to-time function inverts the motion -----

  function Duration(c: Vars): real
  {
    c.timeAcc + c.timeConst + c.timeDecel
  }

  /** Half of a times the square of t. */
  function Half(a: real, t: real): real
  {
    (a * t * t) / 2.0
  }

  /** The velocity fits the three phases and the phases have the lengths that it gives. */
  predicate Sound(c: Vars)
  {
    && c.maxAcc > 0.0 && c.minAcc > 0.0 && c.velocity > 0.0
    && c.timeAcc > 0.0 && c.timeConst >= 0.0 && c.timeDecel > 0.0
    && c.velocity == c.maxAcc * c.timeAcc && c.velocity == c.minAcc * c.timeDecel
    && c.distAcc == Half(c.maxAcc, c.timeAcc)
    && c.distConst == c.velocity * c.timeConst
    && c.distDecel == Half(c.minAcc, c.timeDecel)
  }

  /** How far the vehicle is after a time. */
  function Travelled(c: Vars, t: real): real
  {
    if t <= c.timeAcc then Half(c.maxAcc, t)
    else if t <= c.timeAcc + c.timeConst then c.distAcc + Mul(c.velocity, t - c.timeAcc)
    else
      var u := t - c.timeAcc - c.timeConst;
      c.distAcc + c.distConst + ((c.minAcc * u * u) / -2.0 + c.velocity * u)
  }

  /** The radicand of the deceleration phase. */
  function Radicand(c: Vars, y: real): real
    requires c.minAcc > 0.0
  {
    (c.velocity * c.velocity - 2.0 * y * c.minAcc) / (c.minAcc * c.minAcc)
  }

  /** t is what the function gives for the distance x; beyond the tolerance it throws. */
  predicate TimeFor(c: Vars, x: real, t: real)
    requires c.maxAcc > 0.0 && c.minAcc > 0.0
  {
    if x <= c.distAcc then IsRoot(t, 2.0 * x / c.maxAcc)
    else if x <= c.distAcc + c.distConst then c.velocity != 0.0 && t == c.timeAcc + (x - c.distAcc) / c.velocity
    else if x <= Total(c) + EPSILON then
      var y := x - (c.distAcc + c.distConst);
      var rad := Radicand(c, if y > c.distDecel then c.distDecel else y);
      IsRoot(c.timeAcc + c.timeConst + c.velocity / c.minAcc - t, if rad < 0.0 then 0.0 else rad)
    else false
  }

  lemma {:induction false} HalfLess(a: real, x: real, y: real)
    requires a > 0.0 && 0.0 <= x < y
    ensures Half(a, x) < Half(a, y)
  {
    SquareLess(x, y);
    ProductLess(Mul(x, x), Mul(y, y), a);
    assert Half(a, x) == Mul(Mul(x, x), a) / 2.0 && Half(a, y) == Mul(Mul(y, y), a) / 2.0;
  }

  lemma {:induction false} HalfOrder(a: real, x: real, y: real)
    requires a > 0.0 && 0.0 <= x && 0.0 <= y
    ensures Half(a, x) < Half(a, y) <==> x < y
    ensures Half(a, x) == Half(a, y) <==> x == y
  {
    if x < y { HalfLess(a, x, y); } else if y < x { HalfLess(a, y, x); }
  }

  /** t is the root of x exactly when x is half of a times its square. */
  lemma {:induction false} HalfRoot(a: real, x: real, t: real)
    requires a > 0.0
    ensures t * t == 2.0 * x / a <==> Half(a, t) == x
  {
    var r := 2.0 * x / a;
    Quotient(2.0 * x, a);
    assert Mul(r, a) == 2.0 * x;
    ProductOrder(Mul(t, t), r, a);
    assert Half(a, t) == Mul(Mul(t, t), a) / 2.0;
  }

  /** Decelerating for u of a time T leaves what the remaining time covers. */
  lemma {:induction false} DecelForm(b: real, T: real, u: real, w: real)
    requires w == T - u
    ensures (b * u * u) / -2.0 + (b * T) * u == Half(b, T) - Half(b, w)
  {
    assert b * w * w == b * T * T - 2.0 * ((b * T) * u) + b * u * u;
  }

  lemma {:induction false} RadicandForm(b: real, T: real, y: real)
    requires b > 0.0
    ensures ((b * T) * (b * T) - 2.0 * y * b) / (b * b) == 2.0 * (Half(b, T) - y) / b
  {
    var z, n := 2.0 * (Half(b, T) - y), (b * T) * (b * T) - 2.0 * y * b;
    assert n == z * b by {
      assert Half(b, T) * 2.0 == b * T * T;
    }
    PositiveProduct(b, b);
    Cancelled(z, b, b * b);
  }

  lemma {:induction false} Cancelled(z: real, b: real, q: real)
    requires b > 0.0 && q == b * b && q > 0.0
    ensures (z * b) / q == z / b
  {
    var r := z / b;
    Quotient(z, b);
    assert r * q == z * b by {
      assert r * (b * b) == (r * b) * b;
    }
    QuotientIs(z * b, q, r);
  }

  /** In the last phase the vehicle is as far from the end as the remaining time covers. */
  lemma {:induction false} TravelledDecel(c: Vars, t: real)
    requires Sound(c) && t > c.timeAcc + c.timeConst
    ensures Travelled(c, t) == Total(c) - Half(c.minAcc, Duration(c) - t)
  {
    DecelForm(c.minAcc, c.timeDecel, t - c.timeAcc - c.timeConst, Duration(c) - t);
  }

  /** Which phase a time belongs to is seen at the distance. */
  lemma {:induction false} PhaseOf(c: Vars, t: real)
    requires Sound(c) && 0.0 <= t <= Duration(c)
    ensures if t <= c.timeAcc then 0.0 <= Travelled(c, t) <= c.distAcc
      else if t <= c.timeAcc + c.timeConst then c.distAcc < Travelled(c, t) <= c.distAcc + c.distConst
      else c.distAcc + c.distConst < Travelled(c, t) <= Total(c)
  {
    if t <= c.timeAcc {
      HalfOrder(c.maxAcc, t, c.timeAcc);
      HalfOrder(c.maxAcc, 0.0, t);
    } else if t <= c.timeAcc + c.timeConst {
      ConstOrder(c.velocity, t - c.timeAcc, c.timeConst);
      PositiveProduct(c.velocity, t - c.timeAcc);
    } else {
      TravelledDecel(c, t);
      HalfOrder(c.minAcc, Duration(c) - t, c.timeDecel);
      HalfOrder(c.minAcc, 0.0, Duration(c) - t);
    }
  }

  lemma {:induction false} ConstOrder(v: real, x: real, y: real)
    requires v > 0.0
    ensures x < y <==> Mul(v, x) < Mul(v, y)
    ensures x == y <==> Mul(v, x) == Mul(v, y)
  {
    ProductOrder(x, y, v);
    assert Mul(x, v) == Mul(v, x) && Mul(y, v) == Mul(v, y);
  }

  /** The vehicle never stands still before the end of the route, not at the phase borders either. */
  lemma {:induction false} AlwaysForward(c: Vars, s: real, t: real)
    requires Sound(c) && 0.0 <= s < t <= Duration(c)
    ensures Travelled(c, s) < Travelled(c, t)
  {
    PhaseOf(c, s);
    PhaseOf(c, t);
    if t <= c.timeAcc {
      HalfOrder(c.maxAcc, s, t);
    } else if c.timeAcc < s && t <= c.timeAcc + c.timeConst {
      ConstOrder(c.velocity, s - c.timeAcc, t - c.timeAcc);
    } else if c.timeAcc + c.timeConst < s {
      TravelledDecel(c, s);
      TravelledDecel(c, t);
      HalfOrder(c.minAcc, Duration(c) - t, Duration(c) - s);
    }
  }

  /** Asked for the distance after a time, the function gives that time. */
  lemma {:induction false} TimeOfTravelled(c: Vars, t: real)
    requires Sound(c) && 0.0 <= t <= Duration(c)
    ensures TimeFor(c, Travelled(c, t), t)
  {
    var x := Travelled(c, t);
    PhaseOf(c, t);
    if t <= c.timeAcc {
      HalfRoot(c.maxAcc, x, t);
    } else if t <= c.timeAcc + c.timeConst {
      QuotientIs(x - c.distAcc, c.velocity, t - c.timeAcc);
    } else {
      DecelRoot(c, x, t);
      TravelledDecel(c, t);
    }
  }

  /** The root of the last phase is the remaining time. */
  lemma {:induction false} DecelRoot(c: Vars, x: real, t: real)
    requires Sound(c) && c.distAcc + c.distConst < x <= Total(c)
    ensures var rad := Radicand(c, x - (c.distAcc + c.distConst));
      && rad >= 0.0 && c.velocity / c.minAcc == c.timeDecel
      && ((Duration(c) - t) * (Duration(c) - t) == rad <==> Half(c.minAcc, Duration(c) - t) == Total(c) - x)
  {
    var y, b := x - (c.distAcc + c.distConst), c.minAcc;
    QuotientIs(c.velocity, b, c.timeDecel);
    RadicandForm(b, c.timeDecel, y);
    HalfRoot(b, Total(c) - x, Duration(c) - t);
    NotNegative(2.0 * (Half(b, c.timeDecel) - y), b);
  }

  lemma {:induction false} NotNegative(x: real, y: real)
    requires x >= 0.0 && y > 0.0
    ensures x / y >= 0.0
  {
  }

  lemma {:induction false} AtTimeAcc(c: Vars, x: real, t: real)
    requires Sound(c) && 0.0 <= x <= c.distAcc && TimeFor(c, x, t)
    ensures 0.0 <= t <= Duration(c) && Travelled(c, t) == x
  {
    HalfRoot(c.maxAcc, x, t);
    HalfOrder(c.maxAcc, c.timeAcc, t);
  }

  lemma {:induction false} AtTimeConst(c: Vars, x: real, t: real)
    requires Sound(c) && c.distAcc < x <= c.distAcc + c.distConst && TimeFor(c, x, t)
    ensures 0.0 <= t <= Duration(c) && Travelled(c, t) == x
  {
    Quotient(x - c.distAcc, c.velocity);
    ConstOrder(c.velocity, 0.0, t - c.timeAcc);
    ConstOrder(c.velocity, c.timeConst, t - c.timeAcc);
  }

  lemma {:induction false} AtTimeDecel(c: Vars, x: real, t: real)
    requires Sound(c) && c.distAcc + c.distConst < x <= Total(c) && c.distConst >= 0.0 && TimeFor(c, x, t)
    ensures 0.0 <= t <= Duration(c) && Travelled(c, t) == x
  {
    DecelRoot(c, x, t);
    HalfOrder(c.minAcc, Duration(c) - t, c.timeDecel);
    TravelledDecel(c, t);
  }

  /** The time the function gives for a distance is the one after which the vehicle is there. */
  lemma {:induction false} TravelledAtTime(c: Vars, x: real, t: real)
    requires Sound(c) && 0.0 <= x <= Total(c) && TimeFor(c, x, t)
    ensures 0.0 <= t <= Duration(c) && Travelled(c, t) == x
  {
    PositiveProduct(c.velocity, c.timeConst);
    if x <= c.distAcc {
      AtTimeAcc(c, x, t);
    } else if x <= c.distAcc + c.distConst {
      AtTimeConst(c, x, t);
    } else {
      AtTimeDecel(c, x, t);
    }
  }

  /** A longer distance takes longer, across the phase borders too. */
  lemma {:induction false} TimeIncreases(c: Vars, x: real, s: real, y: real, t: real)
    requires Sound(c) && 0.0 <= x < y <= Total(c) && TimeFor(c, x, s) && TimeFor(c, y, t)
    ensures s < t
  {
    TravelledAtTime(c, x, s);
    TravelledAtTime(c, y, t);
    if t < s { AlwaysForward(c, t, s); }
  }

  /** The whole route takes exactly the sum of the phase times. */
  lemma {:induction false} WholeRoute(c: Vars, t: real)
    requires Sound(c)
    ensures TimeFor(c, Total(c), t) <==> t == Duration(c)
  {
    assert Half(c.minAcc, 0.0) == 0.0;
    TravelledDecel(c, Duration(c));
    TimeOfTravelled(c, Duration(c));
    if TimeFor(c, Total(c), t) {
      PhaseOf(c, Duration(c));
      TravelledAtTime(c, Total(c), t);
      if t < Duration(c) { AlwaysForward(c, t, Duration(c)); }
    }
  }

  /** The results that are calculated are sound on long routes and for equal accelerations. */
  lemma {:induction false} CalculatedSound(k: Drive, accRoot: real, decRoot: real)
    requires Physical(k) && Roots(k, accRoot, decRoot)
    requires k.distance > 0.0 && (k.distance > Threshold(k) || k.acc == k.dec)
    ensures var c := CalculateVariables(k, accRoot, decRoot); Sound(c) && Total(c) == k.distance
  {
    VerifiedIff(k, accRoot, decRoot);
    if Short(k) {
      ShortSound(k, accRoot, decRoot);
    } else {
      LongSound(k, accRoot, decRoot);
    }
  }

  lemma {:induction false} ShortSound(k: Drive, accRoot: real, decRoot: real)
    requires Physical(k) && Short(k) && Roots(k, accRoot, decRoot) && k.distance > 0.0 && k.acc == k.dec
    ensures Sound(CalculateVariables(k, accRoot, decRoot))
  {
    EqualPhases(k, accRoot, decRoot);
    ShortTotal(k, accRoot, decRoot);
    ShortSquares(k, accRoot, decRoot);
    assert accRoot != 0.0;
    PositiveProduct(k.acc, accRoot);
  }

  lemma {:induction false} LongSound(k: Drive, accRoot: real, decRoot: real)
    requires Physical(k) && !Short(k)
    ensures Sound(CalculateVariables(k, accRoot, decRoot))
  {
    LongTotal(k, accRoot, decRoot);
    PositiveQuotient(k.velocity, k.acc);
    PositiveQuotient(k.velocity, k.dec);
    HalfSquare(k.velocity, k.dec);
  }
}
