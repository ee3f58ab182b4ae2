/**
The times at which a vehicle passes the intersections of its route: for which kinematics and which
intersections the calculation goes through, said of the inputs alone.
*/
module RouteTimes {
  import opened MotionTime

  const TOLERANCE: real := EPSILON / 2.0

  /** The squares of the deceleration time that is used and of the one that would stop the vehicle. */
  function UsedSquare(k: Drive): real
    requires Physical(k)
  {
    2.0 * k.distance / (k.acc + k.dec)
  }

  function NeededSquare(k: Drive): real
    requires Physical(k)
  {
    2.0 * k.distance * k.acc / (k.dec * (k.acc + k.dec))
  }

  function TimeGap(k: Drive): real
    requires Physical(k)
  {
    UsedSquare(k) - NeededSquare(k) - TOLERANCE * TOLERANCE
  }

  /** The time of the whole route is the sum of the phases' times within the tolerance. */
  predicate TimesAgree(k: Drive)
    requires Physical(k)
  {
    Short(k) ==>
      TimeGap(k) < 0.0 || Mul(TimeGap(k), TimeGap(k)) < 4.0 * (TOLERANCE * TOLERANCE) * NeededSquare(k)
  }

  /** A point at distance x from the start is not past the end of the route. */
  predicate OnRoute(k: Drive, x: real)
    requires Physical(k)
  {
    if Short(k) then x < EPSILON || Scaled(k, x - EPSILON) <= Reach(k) else x <= k.distance + EPSILON
  }

  /** The condition on the inputs. */
  predicate Accepts(k: Drive, marks: seq<real>)
    requires Physical(k)
  {
    && k.distance != Threshold(k) && AddsUp(k) && TimesAgree(k)
    && forall i :: 0 <= i < |marks| ==> OnRoute(k, marks[i])
  }

  /**
  calculateTimeTillPoints does not throw: verifyCalculation and verifyFunction pass, and no point is past
  the end.  `whole` is the value of the distance-to-time function at the end of the route.
  */
  predicate Calculates(k: Drive, accRoot: real, decRoot: real, whole: real, marks: seq<real>)
    requires Physical(k)
  {
    var c := CalculateVariables(k, accRoot, decRoot);
    && Verified(k, c) && Near(whole, Duration(c))
    && forall i :: 0 <= i < |marks| ==> marks[i] <= Total(c) + EPSILON
  }

  lemma {:induction false} OnRouteIff(k: Drive, accRoot: real, decRoot: real, x: real)
    requires Physical(k) && Roots(k, accRoot, decRoot)
    ensures OnRoute(k, x) <==> x <= Total(CalculateVariables(k, accRoot, decRoot)) + EPSILON
  {
    if Short(k) {
      CoversNothingLess(k, accRoot, decRoot);
      if x >= EPSILON { TotalOrder(k, accRoot, decRoot, x - EPSILON); }
    } else {
      LongTotal(k, accRoot, decRoot);
    }
  }

  // ----- the time of the whole route -----

  /** The time in which the vehicle would stop. */
  function StopTime(c: Vars): real
    requires c.minAcc > 0.0
  {
    c.velocity / c.minAcc
  }

  lemma {:induction false} EndProduct(b: real, g: real, u: real, q: real, v: real, d: real)
    requires q == b * b && v == b * g && d == (b * u * u) / -2.0 + v * u
    ensures v * v - 2.0 * d * b == (g * g - 2.0 * (g * u) + u * u) * q
  {
    assert v * v == (g * g) * q;
    assert (b * u * u) * b == (u * u) * q;
    assert (v * u) * b == (g * u) * q;
  }

  lemma {:induction false} EndSquare(b: real, g: real, u: real, v: real, d: real, w: real)
    requires b > 0.0 && v == b * g && w == g - u && d == (b * u * u) / -2.0 + v * u
    ensures Mul(w, w) * (b * b) == v * v - 2.0 * d * b
  {
    assert Mul(w, w) == g * g - 2.0 * (g * u) + u * u;
    EndProduct(b, g, u, b * b, v, d);
  }

  /** At the end of a short route the radicand is the square of how far the two deceleration times are apart. */
  lemma {:induction false} EndRadicand(c: Vars, w: real)
    requires c.minAcc > 0.0 && w == StopTime(c) - c.timeDecel
    requires c.distDecel == (c.minAcc * c.timeDecel * c.timeDecel) / -2.0 + c.velocity * c.timeDecel
    ensures Radicand(c, c.distDecel) == Mul(w, w)
  {
    var b, v, d := c.minAcc, c.velocity, c.distDecel;
    Quotient(v, b);
    PositiveProduct(b, b);
    EndSquare(b, StopTime(c), c.timeDecel, v, d, w);
    QuotientIs(v * v - 2.0 * d * b, b * b, Mul(w, w));
  }

  lemma {:induction false} RootSquare(r: real, x: real)
    requires IsRoot(r, x)
    ensures r >= 0.0 && Mul(r, r) == x
  {
  }

  lemma {:induction false} RootPastEnd(c: Vars, x: real, t: real)
    requires c.maxAcc > 0.0 && c.minAcc > 0.0 && TimeFor(c, x, t)
    requires x > c.distAcc && x > c.distAcc + c.distConst && x >= Total(c)
    ensures var r, rad := c.timeAcc + c.timeConst + StopTime(c) - t, Radicand(c, c.distDecel);
      r >= 0.0 && Mul(r, r) == if rad < 0.0 then 0.0 else rad
  {
    var r, rad := c.timeAcc + c.timeConst + c.velocity / c.minAcc - t, Radicand(c, c.distDecel);
    var y := x - (c.distAcc + c.distConst);
    assert (if y > c.distDecel then c.distDecel else y) == c.distDecel;
    RootSquare(r, if rad < 0.0 then 0.0 else rad);
  }

  lemma {:induction false} ShortIsPast(k: Drive, accRoot: real, decRoot: real)
    requires Physical(k) && Short(k) && Roots(k, accRoot, decRoot) && k.distance > 0.0
    ensures var c := CalculateVariables(k, accRoot, decRoot);
      && k.distance > c.distAcc && k.distance > c.distAcc + c.distConst && k.distance >= Total(c)
      && c.timeConst == 0.0
  {
    ShortTotal(k, accRoot, decRoot);
    ShortTotalIff(k, accRoot, decRoot);
    AccelerationIsPart(k, accRoot, decRoot);
  }

  /** The time the function gives for a short route: a brake that is too strong loses the difference twice. */
  lemma {:induction false} ShortEnd(k: Drive, accRoot: real, decRoot: real, whole: real)
    requires Physical(k) && Short(k) && Roots(k, accRoot, decRoot) && k.distance > 0.0
    requires TimeFor(CalculateVariables(k, accRoot, decRoot), k.distance, whole)
    ensures var c := CalculateVariables(k, accRoot, decRoot);
      var g := StopTime(c);
      whole == Duration(c) + if g >= c.timeDecel then 0.0 else 2.0 * (g - c.timeDecel)
  {
    var c := CalculateVariables(k, accRoot, decRoot);
    ShortIsPast(k, accRoot, decRoot);
    RootPastEnd(c, k.distance, whole);
    var w := StopTime(c) - c.timeDecel;
    EndRadicand(c, w);
    RootIsDistance(c.timeAcc + c.timeConst + StopTime(c) - whole, w);
  }

  lemma {:induction false} RootIsDistance(r: real, w: real)
    requires r >= 0.0 && Mul(r, r) == if Mul(w, w) < 0.0 then 0.0 else Mul(w, w)
    ensures r == if w >= 0.0 then w else 0.0 - w
  {
    SquareNotNegative(w);
    NegatedSquare(w);
    if w >= 0.0 { SquareOrder(r, w); } else { SquareOrder(r, 0.0 - w); }
  }

  lemma {:induction false} SquareNotNegative(w: real)
    ensures Mul(w, w) >= 0.0
  {
    SquareIsZero(w);
  }

  lemma {:induction false} NegatedSquare(w: real)
    ensures Mul(0.0 - w, 0.0 - w) == Mul(w, w)
  {
  }

  /** The acceleration phase of a route with a length ends before the route does. */
  lemma {:induction false} AccelerationIsPart(k: Drive, accRoot: real, decRoot: real)
    requires Physical(k) && Short(k) && Roots(k, accRoot, decRoot) && k.distance > 0.0
    ensures CalculateVariables(k, accRoot, decRoot).distAcc < k.distance
  {
    var a, b, s, d, x := k.acc, k.dec, k.acc + k.dec, k.distance, (k.acc * accRoot * accRoot) / 2.0;
    ShortSquares(k, accRoot, decRoot);
    AccelerationShare(a, s, accRoot, d, b, x);
    PositiveProduct(d, a);
    assert Mul(d, s) == Mul(d, b) + Mul(d, a);
    ProductOrder(x, d, s);
  }

  lemma {:induction false} AccelerationShare(a: real, s: real, r: real, d: real, b: real, x: real)
    requires (r * r) * (a * s) == (2.0 * d) * b && x == (a * r * r) / 2.0
    ensures Mul(x, s) == Mul(d, b)
  {
    assert (a * r * r) * s == (r * r) * (a * s);
  }

  // ----- the condition on the inputs -----

  lemma {:induction false} DecelSquares(k: Drive, accRoot: real, decRoot: real)
    requires Physical(k) && Short(k) && Roots(k, accRoot, decRoot)
    ensures var c := CalculateVariables(k, accRoot, decRoot);
      && StopTime(c) >= 0.0 && c.timeDecel >= 0.0
      && Mul(c.timeDecel, c.timeDecel) == UsedSquare(k) && Mul(StopTime(c), StopTime(c)) == NeededSquare(k)
  {
    var s, v := k.acc + k.dec, k.acc * accRoot;
    ShortSquares(k, accRoot, decRoot);
    QuotientIs(2.0 * k.distance, s, Mul(decRoot, decRoot));
    PositiveProduct(k.acc, accRoot);
    ReachedSquare(k.acc, k.dec, s, k.distance, accRoot, v);
    StopSquare(k, v, v / k.dec);
  }

  lemma {:induction false} StopSquare(k: Drive, v: real, g: real)
    requires Physical(k) && v >= 0.0 && g == v / k.dec
    requires Mul(Mul(v, v), k.acc + k.dec) == 2.0 * Mul(k.distance, Mul(k.acc, k.dec))
    ensures g >= 0.0 && Mul(g, g) == NeededSquare(k)
  {
    var a, b, s, d := k.acc, k.dec, k.acc + k.dec, k.distance;
    QuotientNotNegative(v, b);
    Quotient(v, b);
    PositiveProduct(b, s);
    NeededProduct(a, b, s, d, v, g);
    QuotientIs(2.0 * d * a, b * s, Mul(g, g));
  }

  lemma {:induction false} QuotientNotNegative(x: real, y: real)
    requires x >= 0.0 && y > 0.0
    ensures x / y >= 0.0
  {
  }

  lemma {:induction false} NeededProduct(a: real, b: real, s: real, d: real, v: real, g: real)
    requires b > 0.0 && g * b == v && Mul(Mul(v, v), s) == 2.0 * Mul(d, Mul(a, b))
    ensures Mul(g, g) * (b * s) == 2.0 * d * a
  {
    var p := Mul(g, g);
    assert Mul(v, v) == p * (b * b);
    assert (p * (b * s)) * b == (p * (b * b)) * s;
    assert (2.0 * d * a) * b == 2.0 * (d * (a * b));
    CancelReal(p * (b * s), 2.0 * d * a, b);
  }

  /** p exceeds g by less than e, said of their squares. */
  lemma {:induction false} ExceedsByLess(p: real, g: real, e: real)
    requires p >= 0.0 && g >= 0.0 && e > 0.0
    ensures p - g < e <==>
      var gap := Mul(p, p) - Mul(g, g) - e * e; gap < 0.0 || Mul(gap, gap) < 4.0 * (e * e) * Mul(g, g)
  {
    var gap, h := Mul(p, p) - Mul(g, g) - e * e, 2.0 * (e * g);
    SquareOrder(p, g + e);
    assert Mul(g + e, g + e) == Mul(g, g) + h + e * e;
    PositiveProduct(e, g);
    assert Mul(h, h) == 4.0 * (e * e) * Mul(g, g);
    if gap >= 0.0 { SquareOrder(gap, h); }
  }

  lemma {:induction false} TimesAgreeIff(k: Drive, accRoot: real, decRoot: real, whole: real)
    requires Physical(k) && Roots(k, accRoot, decRoot)
    requires var c := CalculateVariables(k, accRoot, decRoot); Verified(k, c) && TimeFor(c, k.distance, whole)
    ensures Near(whole, Duration(CalculateVariables(k, accRoot, decRoot))) <==> TimesAgree(k)
  {
    var c := CalculateVariables(k, accRoot, decRoot);
    VerifiedIff(k, accRoot, decRoot);
    if !Short(k) {
      LongSound(k, accRoot, decRoot);
      WholeRoute(c, whole);
    } else {
      ShortAgrees(k, accRoot, decRoot, whole);
    }
  }

  lemma {:induction false} ShortAgrees(k: Drive, accRoot: real, decRoot: real, whole: real)
    requires Physical(k) && Short(k) && Roots(k, accRoot, decRoot)
    requires TimeFor(CalculateVariables(k, accRoot, decRoot), k.distance, whole)
    ensures Near(whole, Duration(CalculateVariables(k, accRoot, decRoot))) <==> TimesAgree(k)
  {
    var c := CalculateVariables(k, accRoot, decRoot);
    DecelSquares(k, accRoot, decRoot);
    ExceedsByLess(c.timeDecel, StopTime(c), TOLERANCE);
    if k.distance > 0.0 {
      ShortEnd(k, accRoot, decRoot, whole);
    } else {
      NoRoute(k, accRoot, decRoot, whole);
    }
  }

  lemma {:induction false} NoRoute(k: Drive, accRoot: real, decRoot: real, whole: real)
    requires Physical(k) && Short(k) && Roots(k, accRoot, decRoot) && k.distance == 0.0
    requires TimeFor(CalculateVariables(k, accRoot, decRoot), k.distance, whole)
    ensures accRoot == 0.0 && decRoot == 0.0 && whole == 0.0
  {
    assert AccSquare(k) == 0.0 && DecSquare(k) == 0.0;
    RootOfZero(accRoot);
    RootOfZero(decRoot);
    assert CalculateVariables(k, accRoot, decRoot).distAcc == 0.0;
    assert 2.0 * k.distance / k.acc == 0.0;
    RootOfZero(whole);
  }

  lemma {:induction false} RootOfZero(r: real)
    requires IsRoot(r, 0.0)
    ensures r == 0.0
  {
    RootSquare(r, 0.0);
    SquareIsZero(r);
  }

  /** The calculation goes through exactly when the inputs are acceptable. */
  lemma {:induction false} CalculatesIff(k: Drive, accRoot: real, decRoot: real, whole: real, marks: seq<real>)
    requires Physical(k) && Roots(k, accRoot, decRoot)
    requires var c := CalculateVariables(k, accRoot, decRoot); Verified(k, c) ==> TimeFor(c, k.distance, whole)
    ensures Calculates(k, accRoot, decRoot, whole, marks) <==> Accepts(k, marks)
  {
    var c := CalculateVariables(k, accRoot, decRoot);
    VerifiedIff(k, accRoot, decRoot);
    if Verified(k, c) { TimesAgreeIff(k, accRoot, decRoot, whole); }
    forall i | 0 <= i < |marks|
      ensures OnRoute(k, marks[i]) <==> marks[i] <= Total(c) + EPSILON
    {
      OnRouteIff(k, accRoot, decRoot, marks[i]);
    }
  }

  /** On a route longer than the threshold the times of all points on it are found. */
  lemma {:induction false} LongAccepts(k: Drive, marks: seq<real>)
    requires Physical(k) && k.distance > Threshold(k) && forall i :: 0 <= i < |marks| ==> marks[i] <= k.distance
    ensures Accepts(k, marks)
  {
  }

  lemma {:induction false} UnverifiedRejected(k: Drive, accRoot: real, decRoot: real, marks: seq<real>)
    requires Physical(k) && Roots(k, accRoot, decRoot) && !Verified(k, CalculateVariables(k, accRoot, decRoot))
    ensures !Accepts(k, marks)
  {
    VerifiedIff(k, accRoot, decRoot);
  }

  lemma {:induction false} StrongBrake(marks: seq<real>)
    ensures !Accepts(Drive(10.0, 10.0, 1.0, 4.0), marks)
  {
    StrongBrakeRejected();
    UnverifiedRejected(Drive(10.0, 10.0, 1.0, 4.0), 4.0, 2.0, marks);
  }

  lemma {:induction false} UnitThreshold(k: Drive)
    requires Physical(k) && k.velocity == 1.0 && k.acc == 1.0 && k.dec == 1.0
    ensures Threshold(k) == 1.0
  {
    assert k.velocity * k.velocity == 1.0;
  }

  lemma {:induction false} EqualBrake(k: Drive, marks: seq<real>)
    requires Physical(k) && k.velocity == 1.0 && k.acc == 1.0 && k.dec == 1.0 && k.distance > 1.0
    requires forall i :: 0 <= i < |marks| ==> marks[i] <= k.distance
    ensures Accepts(k, marks)
  {
    UnitThreshold(k);
    LongAccepts(k, marks);
  }

  lemma {:induction false} FourfoldGap(d: real, gap: real)
    requires d >= 0.0 && gap == 0.3 * d - 0.000025
    ensures gap < 0.0 || Mul(gap, gap) < 0.00001 * d <==> d < 0.00025
  {
    var x, y := d - 0.00025, 0.09 * d - 0.0000025;
    assert Mul(gap, gap) - 0.00001 * d == Mul(x, y);
    if gap >= 0.0 {
      PositiveProduct(x, y);
      PositiveProduct(0.0 - x, y);
      assert Mul(0.0 - x, y) == 0.0 - Mul(x, y);
      assert y > 0.0;
    }
  }

  /** With a brake four times as strong as the motor even the times agree only on the first quarter of a millimetre. */
  lemma {:induction false} FourfoldTimes(k: Drive)
    requires Physical(k) && Short(k) && k.acc == 1.0 && k.dec == 4.0
    ensures TimesAgree(k) <==> k.distance < 0.00025
  {
    var d := k.distance;
    assert UsedSquare(k) == 0.4 * d;
    assert NeededSquare(k) == 0.1 * d;
    FourfoldGap(d, TimeGap(k));
  }
}
