/** Whole runs of the implicit trapezoidal rule: how far they are from the exact rule, when they
    end, and the program. */
module Trapezoid {
  import opened Reals
  import opened FixedPoint

  // ---------------------------------------------------------------- the whole run

  ghost predicate Run(q: real, us: seq<real>) {
    us != [] && forall i {:trigger StepAt(q, us, i)} :: 0 <= i < |us| - 1 ==> StepAt(q, us, i)
  }

  ghost predicate StepAt(q: real, us: seq<real>, i: int)
    requires 0 <= i < |us| - 1
  {
    Step(q, us[i], us[i + 1])
  }

  /** The trapezoidal rule itself, with every implicit equation solved exactly. */
  function Exact(q: real, u: real, n: nat): real
    requires q != -1.0
  {
    if n == 0 then u else Implicit(q, Exact(q, u, n - 1))
  }

  function Max(x: real, y: real): real { if x < y then y else x }

  /** The factor by which the exact rule changes differences. */
  function Factor(q: real): real
    requires q != -1.0
  {
    Abs(1.0 - q) / Abs(1.0 + q)
  }

  /** The bound on the error of one step and of all that follow it. */
  function Limit(q: real): real { 0.025 * Max(1.0, Abs(q)) }

  /** How far `n` accepted steps can be from `n` exact ones. */
  function RunBound(q: real, n: nat): real
    requires q != -1.0
  {
    var s := Scale(Factor(q), Limit(q), n);
    if q >= 0.0 then Limit(q) - s else s - Limit(q)
  }

  /** The factor is at most 1 exactly where errors do not pile up. */
  lemma FactorIs(q: real, m: real)
    requires q != -1.0 && m * Abs(1.0 + q) == Abs(1.0 - q)
    ensures m == Factor(q) && m >= 0.0 && (if q >= 0.0 then m <= 1.0 else m >= 1.0)
  {
    var c := Abs(1.0 + q);
    Quotient(c, Abs(1.0 - q), m);
    assert m < 0.0 ==> m * c < 0.0;
    assert q >= 0.0 && m > 1.0 ==> (m - 1.0) * c > 0.0;
    assert q < 0.0 && m < 1.0 ==> (m - 1.0) * c < 0.0;
  }

  /** The bound in closed form. */
  lemma RunBoundIs(q: real, n: nat, m: real)
    requires q != -1.0 && m * Abs(1.0 + q) == Abs(1.0 - q)
    ensures RunBound(q, n) == 0.025 * Max(1.0, Abs(q)) * Abs(1.0 - Scale(m, 1.0, n))
  {
    FactorIs(q, m);
    var b, s := Limit(q), Scale(m, 1.0, n);
    ScaleFactor(m, b, n);
    if q >= 0.0 { ScaleShrinks(m, 1.0, n); } else { ScaleGrows(m, 1.0, n); }
    Distribute(b, s);
  }

  lemma Distribute(b: real, s: real)
    ensures b * (1.0 - s) == b - b * s && b * (s - 1.0) == b * s - b
  {
  }

  /** For a cooling coefficient that is not negative, errors do not pile up. */
  lemma BoundedRun(q: real, n: nat)
    requires q >= 0.0
    ensures RunBound(q, n) <= 0.025 * Max(1.0, q)
  {
    var m, c := Factor(q), Abs(1.0 + q);
    assert m * c == Abs(1.0 - q);
    assert m < 0.0 ==> m * c < 0.0;
    ScaleGrows(m, Limit(q), n);
  }

  /** The bound grows as the errors do. */
  lemma BoundStep(q: real, n: nat)
    requires q != -1.0 && n > 0
    ensures RunBound(q, n) == NextBound(q, RunBound(q, n - 1))
  {
    BoundTimes(q, n);
    Quotient(Abs(1.0 + q), Abs(1.0 - q) * RunBound(q, n - 1) + TOLERANCE * Abs(q), RunBound(q, n));
  }

  lemma Quotient(c: real, x: real, y: real)
    requires c > 0.0 && x == c * y
    ensures y == x / c
  {
  }

  lemma BoundTimes(q: real, n: nat)
    requires q != -1.0 && n > 0
    ensures Abs(1.0 - q) * RunBound(q, n - 1) + TOLERANCE * Abs(q) == Abs(1.0 + q) * RunBound(q, n)
  {
    var m, b := Factor(q), Limit(q);
    var s, s' := Scale(m, b, n - 1), Scale(m, b, n);
    FactorTimes(q, s, s');
    LimitFits(q, b);
    if q >= 0.0 {
      BoundGrows(Abs(1.0 - q), Abs(1.0 + q), TOLERANCE * Abs(q), b, s, s');
    } else {
      BoundFalls(Abs(1.0 - q), Abs(1.0 + q), TOLERANCE * Abs(q), b, s, s');
    }
  }

  lemma FactorTimes(q: real, s: real, s': real)
    requires q != -1.0 && s' == Factor(q) * s
    ensures Abs(1.0 + q) * s' == Abs(1.0 - q) * s
  {
    var m, c := Factor(q), Abs(1.0 + q);
    assert c * m == Abs(1.0 - q);
    assert c * (m * s) == (c * m) * s;
  }

  lemma LimitFits(q: real, b: real)
    requires b == Limit(q)
    ensures q >= 0.0 ==> Abs(1.0 - q) * b + TOLERANCE * Abs(q) == Abs(1.0 + q) * b
    ensures q < 0.0 ==> Abs(1.0 - q) * b - TOLERANCE * Abs(q) == Abs(1.0 + q) * b
  {
  }

  lemma BoundGrows(a: real, c: real, e: real, b: real, s: real, s': real)
    requires c * s' == a * s && a * b + e == c * b
    ensures a * (b - s) + e == c * (b - s')
  {
  }

  lemma BoundFalls(a: real, c: real, e: real, b: real, s: real, s': real)
    requires c * s' == a * s && a * b - e == c * b
    ensures a * (s - b) + e == c * (s' - b)
  {
  }

  /** The error of a whole run. */
  lemma RunError(q: real, us: seq<real>, n: nat)
    requires q != -1.0 && Run(q, us) && n < |us|
    ensures Abs(us[n] - Exact(q, us[0], n)) <= RunBound(q, n)
  {
    var es, bs := (k: nat) => Exact(q, us[0], k), (k: nat) => RunBound(q, k);
    forall k: nat | k > 0 ensures es(k) == Implicit(q, es(k - 1)) && bs(k) == NextBound(q, bs(k - 1)) {
      BoundStep(q, k);
    }
    Follow(q, us, es, bs, n);
  }

  lemma {:induction false} Follow(q: real, us: seq<real>, es: nat -> real, bs: nat -> real, n: nat)
    requires q != -1.0 && Run(q, us) && n < |us| && es(0) == us[0] && bs(0) == 0.0
    requires forall k: nat :: k > 0 ==> es(k) == Implicit(q, es(k - 1)) && bs(k) == NextBound(q, bs(k - 1))
    ensures Abs(us[n] - es(n)) <= bs(n)
  {
    if n > 0 {
      Follow(q, us, es, bs, n - 1);
      assert StepAt(q, us, n - 1);
      StepNear(q, us[n - 1], us[n], es(n - 1), bs(n - 1));
    }
  }

  // ---------------------------------------------------------------- when the run ends

  /** For `|q| >= 1` each step is the first corrected guess, and enlarges `u` by this factor. */
  function Growth(q: real): real { 1.0 - 2.0 * q + 2.0 * q * q }

  /** All of `n` steps from `u` settle. */
  predicate RunSettles(q: real, u: real, n: nat) {
    Abs(q) < 1.0 || n == 0 || Scale(Growth(q), FirstSize(q, u), n - 1) <= TOLERANCE
  }

  lemma LargeStep(q: real, u: real, v: real)
    requires Abs(q) >= 1.0 && Step(q, u, v)
    ensures Grows(Growth(q), FirstSize(q, u), FirstSize(q, v))
  {
    StepIff(q, u);
    assert Accepted(q, u, 0);
    assert Step(q, u, Guess(q, u, 1));
    LargeGuess(q, u, v);
  }

  lemma LargeGuess(q: real, u: real, v: real)
    requires Abs(q) >= 1.0 && v == Guess(q, u, 1)
    ensures Grows(Growth(q), FirstSize(q, u), FirstSize(q, v))
  {
    var g, c := Growth(q), 2.0 * q * q;
    var v0 := Guess(q, u, 0);
    assert q * v0 == q * u - 2.0 * q * q * u;
    assert v == u - q * u - q * v0;
    assert v == g * u;
    AbsProduct(g, u);
    assert c * (g * Abs(u)) == g * (c * Abs(u));
  }

  ghost predicate Grows(g: real, x: real, y: real) { y == g * x }

  lemma {:induction false} Multiples(xs: seq<real>, g: real, n: nat)
    requires n < |xs| && forall i :: 0 <= i < |xs| - 1 ==> Grows(g, xs[i], xs[i + 1])
    ensures xs[n] == Scale(g, xs[0], n)
  {
    if n > 0 {
      Multiples(xs, g, n - 1);
      assert Grows(g, xs[n - 1], xs[n - 1 + 1]);
    }
  }

  lemma RunGrows(q: real, us: seq<real>, n: nat)
    requires Abs(q) >= 1.0 && Run(q, us) && n < |us|
    ensures FirstSize(q, us[n]) == Scale(Growth(q), FirstSize(q, us[0]), n)
  {
    var sizes := seq(|us|, i requires 0 <= i < |us| => FirstSize(q, us[i]));
    forall i | 0 <= i < |us| - 1 ensures Grows(Growth(q), sizes[i], sizes[i + 1]) {
      assert StepAt(q, us, i);
      LargeStep(q, us[i], us[i + 1]);
    }
    Multiples(sizes, Growth(q), n);
  }

  lemma {:induction false} ScaleMonotone(g: real, c: real, m: nat, n: nat)
    requires g >= 1.0 && c >= 0.0 && m <= n
    ensures Scale(g, c, m) <= Scale(g, c, n)
  {
    if m < n {
      ScaleMonotone(g, c, m, n - 1);
      ScaleGrows(g, c, n - 1);
      var s := Scale(g, c, n - 1);
      assert (g - 1.0) * s >= 0.0;
    }
  }

  /** If the whole run settles, its next step does. */
  lemma NextSettles(q: real, us: seq<real>, n: nat)
    requires Run(q, us) && |us| <= n && RunSettles(q, us[0], n)
    ensures Settles(q, us[|us| - 1])
  {
    if Abs(q) >= 1.0 {
      RunGrows(q, us, |us| - 1);
      ScaleMonotone(Growth(q), FirstSize(q, us[0]), |us| - 1, n - 1);
    }
  }

  lemma RunSnoc(q: real, us: seq<real>, v: real)
    requires Run(q, us) && Step(q, us[|us| - 1], v)
    ensures Run(q, us + [v])
  {
    var us' := us + [v];
    forall i | 0 <= i < |us'| - 1 ensures StepAt(q, us', i) {
      if i < |us| - 1 { assert StepAt(q, us, i); }
    }
  }

  /** There is a run of `n` steps exactly if it settles: always for `|q| < 1`, and otherwise if the
      first gap of its last step is small enough. */
  lemma {:induction false} RunIff(q: real, u: real, n: nat)
    ensures RunSettles(q, u, n) <==> exists us :: Run(q, us) && |us| == n + 1 && us[0] == u
  {
    if RunSettles(q, u, n) {
      var us := [u];
      while |us| <= n
        invariant Run(q, us) && |us| <= n + 1 && us[0] == u
        decreases n + 1 - |us|
      {
        NextSettles(q, us, n);
        StepIff(q, us[|us| - 1]);
        var v :| Step(q, us[|us| - 1], v);
        RunSnoc(q, us, v);
        us := us + [v];
      }
      assert Run(q, us) && |us| == n + 1 && us[0] == u;
    }
    if us :| Run(q, us) && |us| == n + 1 && us[0] == u {
      if n > 0 && Abs(q) >= 1.0 {
        assert StepAt(q, us, n - 1);
        StepIff(q, us[n - 1]);
        RunGrows(q, us, n - 1);
      }
    }
  }

  // ---------------------------------------------------------------- the program

  /** The number of steps of size `h` until `total` is reached. */
  function Steps(h: real, total: real): nat
    requires h > 0.0 || total <= 0.0
  {
    if total <= 0.0 then 0 else
      Positive(total, h);
      var n := (total / h).Floor;
      if n as real * h < total then n + 1 else n
  }

  /** Steps that do not go forward never reach a positive end. */
  lemma NoEnd(h: real, total: real, n: nat)
    requires h <= 0.0 && total > 0.0
    ensures n as real * h < total
  {
    assert n as real * h <= 0.0;
  }

  lemma Positive(x: real, h: real)
    requires x > 0.0 && h > 0.0
    ensures x / h > 0.0 && x / h * h == x
  {
  }

  lemma StepsIs(h: real, total: real, n: nat)
    requires h > 0.0 || (total <= 0.0 && n == 0)
    ensures n as real * h < total <==> n < Steps(h, total)
  {
    if total <= 0.0 {
      assert n as real * h >= 0.0;
    } else {
      Positive(total, h);
      var x := total / h;
      Compare(n as real, x, h, total);
      Compare(x.Floor as real, x, h, total);
    }
  }

  lemma Compare(n: real, x: real, h: real, total: real)
    requires h > 0.0 && x * h == total
    ensures n * h < total <==> n < x
  {
  }

  /** The forward Euler step, the first guess. */
  method FirstGuess(Tn: real, Ts: real, h: real, r: real, ghost q: real) returns (T: real)
    requires q == h * r / 2.0
    ensures T - Ts == Guess(q, Tn - Ts, 0)
  {
    T := Tn - (h * r) * (Tn - Ts);
  }

  /** A guess corrected by the trapezoidal rule. */
  method Correct(Tn: real, Ts: real, h: real, r: real, Tk: real, ghost q: real, ghost k: nat) returns (T: real)
    requires q == h * r / 2.0 && Tk - Ts == Guess(q, Tn - Ts, k)
    ensures T - Ts == Guess(q, Tn - Ts, k + 1)
  {
    T := Tn + (h / 2.0) * ((-r * (Tn - Ts)) + (-r * (Tk - Ts)));
  }

  /** The inner loop: guesses are corrected until two of them are close. */
  method NextTemperature(Tn: real, Ts: real, h: real, r: real, ghost q: real) returns (T: real)
    requires q == h * r / 2.0 && Settles(q, Tn - Ts)
    ensures Step(q, Tn - Ts, T - Ts)
  {
    ghost var u := Tn - Ts;
    SettlesIff(q, u);
    ghost var last: nat :| Abs(Gap(q, u, last)) <= TOLERANCE;
    T := FirstGuess(Tn, Ts, h, r, q);
    var k := 0;
    var tolerance := 1.0;
    while tolerance > 0.05
      invariant 0 <= k <= last + 1 && T - Ts == Guess(q, u, k)
      invariant k == 0 ==> tolerance == 1.0
      invariant k > 0 ==> tolerance == Abs(Gap(q, u, k - 1))
      invariant forall j: nat :: j < k - 1 ==> Abs(Gap(q, u, j)) > TOLERANCE
      decreases last + 1 - k
    {
      var next := Correct(Tn, Ts, h, r, T, q, k);
      tolerance := Abs(next - T);
      T := next;
      k := k + 1;
    }
    assert Accepted(q, u, k - 1);
  }

  /** The differences of temperatures to the surroundings. */
  ghost function Over(temps: seq<real>, Ts: real): seq<real> {
    seq(|temps|, i requires 0 <= i < |temps| => temps[i] - Ts)
  }

  lemma OverSnoc(temps: seq<real>, Ts: real, T: real)
    ensures Over(temps + [T], Ts) == Over(temps, Ts) + [T - Ts]
  {
  }

  ghost predicate Grid(times: seq<real>, h: real) {
    forall i :: 0 <= i < |times| ==> times[i] == i as real * h
  }

  /** The solver: temperatures at the multiples of `h`, up to the first that is not before
      `tFinal` minutes. */
  method EulerTrapezoidal(Ti: real, Ts: real, h: real, r: real, tFinal: real, ghost q: real, ghost n: nat)
    returns (temps: seq<real>, times: seq<real>)
    requires (h > 0.0 || tFinal <= 0.0) && q == h * r / 2.0
    requires n == Steps(h, tFinal * 60.0) && RunSettles(q, Ti - Ts, n)
    ensures |temps| == |times| == n + 1 && temps[0] == Ti
    ensures Run(q, Over(temps, Ts)) && Grid(times, h)
    ensures q != -1.0 ==>
      forall i :: 0 <= i < |temps| ==> Abs(temps[i] - Ts - Exact(q, Ti - Ts, i)) <= RunBound(q, i)
  {
    var t, T := 0.0, Ti;
    temps, times := [T], [0.0];
    StepsIs(h, tFinal * 60.0, 0);
    while t < tFinal * 60.0
      invariant 0 < |temps| == |times| <= n + 1 && temps[0] == Ti && T == temps[|temps| - 1]
      invariant Run(q, Over(temps, Ts)) && Grid(times, h)
      invariant t == times[|times| - 1] && (t < tFinal * 60.0 <==> |temps| - 1 < n)
      decreases n + 1 - |temps|
    {
      NextSettles(q, Over(temps, Ts), n);
      T := NextTemperature(T, Ts, h, r, q);
      NextTime(|times| - 1, t, h);
      t := t + h;
      RunSnoc(q, Over(temps, Ts), T - Ts);
      OverSnoc(temps, Ts, T);
      temps := temps + [T];
      times := times + [t];
      StepsIs(h, tFinal * 60.0, |temps| - 1);
    }
    forall i | 0 <= i < |temps| && q != -1.0 ensures Abs(temps[i] - Ts - Exact(q, Ti - Ts, i)) <= RunBound(q, i) {
      RunError(q, Over(temps, Ts), i);
    }
  }

  lemma NextTime(i: nat, t: real, h: real)
    requires t == i as real * h
    ensures t + h == (i + 1) as real * h
  {
  }
}
