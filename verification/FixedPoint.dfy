/** One step of the implicit trapezoidal rule for Newton's law of cooling, its implicit equation
    solved by fixed-point iteration. Temperatures are exact reals; `u` stands for the difference of
    a temperature to the surroundings, and `q` for half of step size times cooling coefficient. */
module FixedPoint {
  import opened Reals

  const TOLERANCE := 0.05

  // ---------------------------------------------------------------- one step

  /** The `k`-th guess for the next temperature; the first is the forward Euler step. */
  function Guess(q: real, u: real, k: nat): real {
    if k == 0 then u - 2.0 * q * u else u - q * u - q * Guess(q, u, k - 1)
  }

  function Gap(q: real, u: real, k: nat): real { Guess(q, u, k + 1) - Guess(q, u, k) }

  /** Two guesses as close as the tolerance, for the first time. */
  ghost predicate Accepted(q: real, u: real, k: nat) {
    Abs(Gap(q, u, k)) <= TOLERANCE && forall j: nat :: j < k ==> Abs(Gap(q, u, j)) > TOLERANCE
  }

  /** What the iteration makes of `u`: the guess behind the first accepted one. */
  ghost predicate Step(q: real, u: real, v: real) {
    exists k: nat :: Accepted(q, u, k) && v == Guess(q, u, k + 1)
  }

  /** The solution of the implicit equation `v == u - q u - q v`. */
  function Implicit(q: real, u: real): real
    requires q != -1.0
  {
    (1.0 - q) * u / (1.0 + q)
  }

  lemma ImplicitSolves(q: real, u: real, v: real)
    ensures q != -1.0 ==> (v == u - q * u - q * v <==> v == Implicit(q, u))
    ensures q == -1.0 ==> (v == u - q * u - q * v <==> u == 0.0)
  {
    if q != -1.0 {
      ImplicitTimes(q, u);
      SameProduct(1.0 + q, v, Implicit(q, u));
    }
  }

  /** One gap follows another. */
  ghost predicate Follows(q: real, x: real, y: real) { y == -q * x }

  lemma GapStep(q: real, u: real, k: nat)
    ensures Follows(q, Gap(q, u, k), Gap(q, u, k + 1))
  {
  }

  /** The size of the first gap. */
  function FirstSize(q: real, u: real): real { 2.0 * q * q * Abs(u) }

  /** The gaps shrink, or grow, by the factor `|q|`. */
  lemma GapSize(q: real, u: real, k: nat)
    ensures Abs(Gap(q, u, k)) == Scale(Abs(q), FirstSize(q, u), k)
  {
    var gaps := (j: nat) => Gap(q, u, j);
    forall j: nat ensures Follows(q, gaps(j), gaps(j + 1)) { GapStep(q, u, j); }
    Geometric(gaps, q, k);
  }

  lemma {:induction false} Geometric(x: nat -> real, q: real, k: nat)
    requires forall j: nat :: Follows(q, x(j), x(j + 1))
    ensures Abs(x(k)) == Scale(Abs(q), Abs(x(0)), k)
  {
    if k > 0 {
      Geometric(x, q, k - 1);
      assert Follows(q, x(k - 1), x(k - 1 + 1));
      AbsProduct(q, x(k - 1));
    }
  }

  /** How far an accepted step is from solving the implicit equation. */
  lemma Residual(q: real, u: real, v: real) returns (gap: real)
    requires Step(q, u, v)
    ensures (1.0 + q) * v == (1.0 - q) * u + q * gap && Abs(gap) <= TOLERANCE
  {
    var k: nat :| Accepted(q, u, k) && v == Guess(q, u, k + 1);
    gap := Gap(q, u, k);
  }

  /** The bound on the error of an accepted step that starts with an error of at most `b`. */
  function NextBound(q: real, b: real): real
    requires q != -1.0
  {
    (Abs(1.0 - q) * b + TOLERANCE * Abs(q)) / Abs(1.0 + q)
  }

  /** An accepted step from near `e` ends near the exact step from `e`, if there is one. */
  lemma StepNear(q: real, u: real, v: real, e: real, b: real)
    requires q != -1.0 && Step(q, u, v) && Abs(u - e) <= b
    ensures Abs(v - Implicit(q, e)) <= NextBound(q, b)
  {
    var gap := Residual(q, u, v);
    ImplicitTimes(q, e);
    Nearby(q, u, v, e, Implicit(q, e), gap, b);
  }

  lemma Divided(c: real, x: real, y: real)
    requires c > 0.0 && c * x <= y
    ensures x <= y / c
  {
    assert c * (y / c) == y;
  }

  /** An accepted step is close to the solution of the implicit equation, if that has one. */
  lemma StepError(q: real, u: real, v: real)
    requires q != -1.0 && Step(q, u, v)
    ensures Abs(v - Implicit(q, u)) <= TOLERANCE * Abs(q) / Abs(1.0 + q)
  {
    StepNear(q, u, v, u, 0.0);
  }

  lemma ImplicitTimes(q: real, u: real)
    requires q != -1.0
    ensures ExactFrom(q, u, Implicit(q, u))
  {
  }

  /** `f` is the exact step from `e`. */
  ghost predicate ExactFrom(q: real, e: real, f: real) { (1.0 + q) * f == (1.0 - q) * e }

  lemma Nearby(q: real, u: real, v: real, e: real, f: real, gap: real, b: real)
    requires q != -1.0 && (1.0 + q) * v == (1.0 - q) * u + q * gap && ExactFrom(q, e, f)
    requires Abs(gap) <= TOLERANCE && Abs(u - e) <= b
    ensures Abs(v - f) <= NextBound(q, b)
  {
    assert (1.0 + q) * (v - f) == (1.0 - q) * (u - e) + q * gap;
    Errors(q, v - f, u - e, gap, b);
  }

  lemma Errors(q: real, d': real, d: real, gap: real, b: real)
    requires q != -1.0 && (1.0 + q) * d' == (1.0 - q) * d + q * gap && Abs(gap) <= TOLERANCE && Abs(d) <= b
    ensures Abs(d') <= NextBound(q, b)
  {
    Differences(1.0 + q, 1.0 - q, q, d', d, gap, b);
    Divided(Abs(1.0 + q), Abs(d'), Abs(1.0 - q) * b + TOLERANCE * Abs(q));
  }

  lemma Differences(a: real, b: real, c: real, x: real, y: real, z: real, bound: real)
    requires a * x == b * y + c * z && Abs(y) <= bound && Abs(z) <= TOLERANCE
    ensures Abs(a) * Abs(x) <= Abs(b) * bound + TOLERANCE * Abs(c)
  {
    Triangle(a, b, c, x, y, z);
    Combine(Abs(a) * Abs(x), Abs(b), Abs(c), Abs(y), Abs(z), bound);
  }

  lemma Combine(x: real, p: real, r: real, y: real, z: real, b: real)
    requires x <= p * y + r * z && p >= 0.0 && r >= 0.0 && y <= b && z <= TOLERANCE
    ensures x <= p * b + TOLERANCE * r
  {
    Monotone(p, y, b);
    Monotone(r, z, TOLERANCE);
  }

  lemma Triangle(a: real, b: real, c: real, x: real, y: real, z: real)
    requires a * x == b * y + c * z
    ensures Abs(a) * Abs(x) <= Abs(b) * Abs(y) + Abs(c) * Abs(z)
  {
    AbsProduct(a, x);
    AbsProduct(b, y);
    AbsProduct(c, z);
  }

  // ---------------------------------------------------------------- when the iteration ends

  /** Either the gaps shrink, or the first one is small enough. */
  predicate Settles(q: real, u: real) {
    Abs(q) < 1.0 || FirstSize(q, u) <= TOLERANCE
  }

  /** Powers of `q < 1` fall at least as fast as `1 / (1 + k (1 - q))`. */
  lemma {:induction false} PowersFall(q: real, c: real, k: nat)
    requires 0.0 <= q < 1.0 && c >= 0.0
    ensures Scale(q, c, k) * (1.0 + k as real * (1.0 - q)) <= c
  {
    if k > 0 {
      PowersFall(q, c, k - 1);
      ScaleGrows(q, c, k - 1);
      FallStep(q, c, (k - 1) as real, k as real, Scale(q, c, k - 1), Scale(q, c, k));
    }
  }

  lemma FallStep(q: real, c: real, x: real, x': real, p: real, p': real)
    requires 0.0 <= q < 1.0 && x >= 0.0 && x' == x + 1.0 && p >= 0.0 && p' == q * p
    requires p * (1.0 + x * (1.0 - q)) <= c
    ensures p' * (1.0 + x' * (1.0 - q)) <= c
  {
    var d := x * (1.0 - q);
    assert x' * (1.0 - q) == d + (1.0 - q);
    Shrinks(q, d);
    var y := q * (2.0 + d - q);
    assert p' * (2.0 + d - q) == p * y;
    Monotone(p, y, 1.0 + d);
  }

  lemma Shrinks(q: real, d: real)
    requires 0.0 <= q < 1.0 && d >= 0.0
    ensures q * (2.0 + d - q) <= 1.0 + d
  {
    assert q * d <= d;
    assert (1.0 - q) * (1.0 - q) >= 0.0;
    assert (1.0 - q) * (1.0 - q) == 1.0 - 2.0 * q + q * q;
    assert q * (2.0 + d - q) == 2.0 * q + q * d - q * q;
  }

  /** Some power of `q < 1` makes any `c` small. */
  lemma SmallPower(q: real, c: real) returns (k: nat)
    requires 0.0 <= q < 1.0 && c >= 0.0
    ensures Scale(q, c, k) <= TOLERANCE
  {
    var e := TOLERANCE * (1.0 - q);
    assert e > 0.0;
    var x := c / e;
    assert x * e == c;
    assert x < 0.0 ==> x * e < 0.0;
    k := x.Floor + 1;
    PowersFall(q, c, k);
    ScaleGrows(q, c, k);
    SmallEnough(q, c, e, x, k as real, Scale(q, c, k));
  }

  lemma SmallEnough(q: real, c: real, e: real, x: real, y: real, p: real)
    requires 0.0 <= q < 1.0 && e == TOLERANCE * (1.0 - q) && x * e == c && x <= y && p >= 0.0 && y >= 0.0
    requires p * (1.0 + y * (1.0 - q)) <= c
    ensures p <= TOLERANCE
  {
    var d := y * (1.0 - q);
    assert d >= 0.0;
    Monotone(e, x, y);
    assert e * y == TOLERANCE * d;
    assert (p - TOLERANCE) * (1.0 + d) == p * (1.0 + d) - TOLERANCE - TOLERANCE * d;
    assert p > TOLERANCE ==> (p - TOLERANCE) * (1.0 + d) > 0.0;
  }

  /** The iteration ends exactly if it settles. */
  lemma SettlesIff(q: real, u: real)
    ensures Settles(q, u) <==> exists k: nat :: Abs(Gap(q, u, k)) <= TOLERANCE
  {
    if Abs(q) < 1.0 {
      var k := SmallPower(Abs(q), FirstSize(q, u));
      GapSize(q, u, k);
    } else {
      forall k: nat ensures Abs(Gap(q, u, k)) >= FirstSize(q, u) { GapStays(q, u, k); }
      assert Abs(Gap(q, u, 0)) <= TOLERANCE <==> Settles(q, u);
    }
  }

  lemma GapStays(q: real, u: real, k: nat)
    requires Abs(q) >= 1.0
    ensures Abs(Gap(q, u, k)) >= FirstSize(q, u)
  {
    GapSize(q, u, k);
    ScaleGrows(Abs(q), FirstSize(q, u), k);
  }

  /** One degree above the surroundings, with a step of 2 seconds and the coefficient 1, the guesses
      go back and forth between -1 and 1 for ever. */
  lemma {:induction false} NeverAccepted(k: nat)
    ensures Abs(Gap(1.0, 1.0, k)) == 2.0
    ensures !Settles(1.0, 1.0) && !exists v :: Step(1.0, 1.0, v)
  {
    StepIff(1.0, 1.0);
    if k > 0 {
      NeverAccepted(k - 1);
      GapStep(1.0, 1.0, k - 1);
    }
  }

  lemma {:induction false} FirstAccepted(q: real, u: real, k: nat) returns (j: nat)
    requires Abs(Gap(q, u, k)) <= TOLERANCE || exists i: nat :: i < k && Abs(Gap(q, u, i)) <= TOLERANCE
    ensures j <= k && Accepted(q, u, j)
  {
    if i: nat :| i < k && Abs(Gap(q, u, i)) <= TOLERANCE {
      j := FirstAccepted(q, u, i);
    } else {
      j := k;
    }
  }

  /** There is a next temperature exactly if the iteration settles, and then there is just one. */
  lemma StepIff(q: real, u: real)
    ensures Settles(q, u) <==> exists v :: Step(q, u, v)
    ensures forall v, w :: Step(q, u, v) && Step(q, u, w) ==> v == w
  {
    SettlesIff(q, u);
    if Settles(q, u) {
      var k: nat :| Abs(Gap(q, u, k)) <= TOLERANCE;
      var j := FirstAccepted(q, u, k);
      assert Step(q, u, Guess(q, u, j + 1));
    }
    forall v, w | Step(q, u, v) && Step(q, u, w) ensures v == w {
      var i: nat :| Accepted(q, u, i) && v == Guess(q, u, i + 1);
      var j: nat :| Accepted(q, u, j) && w == Guess(q, u, j + 1);
      assert !(i < j) && !(j < i);
    }
  }
}
