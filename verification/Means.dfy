/** A product of many positive factors kept as a fraction and a power of two, and the mean that is
    computed from these. */
module Means {
  import opened Reals

  /** `x` times the `e`-th power of two. */
  function Shift(x: real, e: int): real
    decreases if e < 0 then -e else e
  {
    if e == 0 then x else if e > 0 then 2.0 * Shift(x, e - 1) else Shift(x, e + 1) / 2.0
  }

  function Power(x: real, n: nat): real { if n == 0 then 1.0 else x * Power(x, n - 1) }

  lemma {:induction false} ShiftPositive(x: real, e: int)
    requires x > 0.0
    ensures Shift(x, e) > 0.0
    decreases if e < 0 then -e else e
  {
    if e > 0 { ShiftPositive(x, e - 1); } else if e < 0 { ShiftPositive(x, e + 1); }
  }

  lemma {:induction false} ShiftTwice(x: real, a: int, b: int)
    ensures Shift(x, a + b) == Shift(Shift(x, a), b)
    decreases if b < 0 then -b else b
  {
    if b > 0 {
      ShiftTwice(x, a, b - 1);
    } else if b < 0 {
      ShiftTwice(x, a, b + 1);
    }
  }

  lemma {:induction false} ShiftProduct(x: real, y: real, z: real, e: int)
    requires z == x * y
    ensures Shift(z, e) == Shift(x, e) * y
    decreases if e < 0 then -e else e
  {
    if e > 0 {
      ShiftProduct(x, y, z, e - 1);
    } else if e < 0 {
      ShiftProduct(x, y, z, e + 1);
    }
  }

  // ---------------------------------------------------------------- frexp

  datatype Split = Split(frac: real, exp: int)

  predicate Normal(s: Split) { 0.5 <= s.frac < 1.0 }

  function Value(s: Split): real { Shift(s.frac, s.exp) }

  /** A positive number as a fraction in [1/2, 1) times a power of two. */
  function Frexp(x: real): (s: Split)
    requires x > 0.0
    ensures Normal(s) && Value(s) == x
  {
    if x >= 1.0 then Halve(x) else Double(x)
  }

  function Halve(x: real): (s: Split)
    requires x >= 0.5
    ensures Normal(s) && Value(s) == x
    decreases x.Floor
  {
    if x < 1.0 then Split(x, 0) else
      var s := Halve(x / 2.0);
      Split(s.frac, s.exp + 1)
  }

  function Double(x: real): (s: Split)
    requires 0.0 < x < 1.0
    ensures Normal(s) && Value(s) == x
    decreases Inverse(x)
  {
    if x >= 0.5 then Split(x, 0) else
      var s := Double(2.0 * x);
      Split(s.frac, s.exp - 1)
  }

  function Inverse(x: real): int
    requires x > 0.0
  {
    (1.0 / x).Floor
  }

  function Product(x: real, y: real): real { x * y }

  /** The product with one more factor. */
  function Times(s: Split, x: real): (p: Split)
    requires s.frac > 0.0 && x > 0.0
    ensures Normal(p) && Value(p) == Product(Value(s), x)
  {
    var r := Frexp(x);
    var y := s.frac * r.frac;
    var t := Frexp(y);
    ExponentsAdd(s.frac, s.exp, r.frac, r.exp, t.frac, t.exp, x, y);
    Split(t.frac, t.exp + r.exp + s.exp)
  }

  lemma ExponentsAdd(a: real, i: int, b: real, j: int, f: real, k: int, x: real, y: real)
    requires Shift(b, j) == x && y == a * b && Shift(f, k) == y
    ensures Shift(f, k + j + i) == Product(Shift(a, i), x)
  {
    TimesValue(a, i, b, j, x, y);
    ShiftTwice(f, k + j, i);
    ShiftTwice(f, k, j);
  }

  lemma TimesValue(a: real, i: int, b: real, j: int, x: real, y: real)
    requires Shift(b, j) == x && y == a * b
    ensures Shift(Shift(y, j), i) == Product(Shift(a, i), x)
  {
    FactorOut(a, b, j, x, y);
    ShiftProduct(a, x, Shift(y, j), i);
  }

  lemma FactorOut(a: real, b: real, j: int, x: real, y: real)
    requires Shift(b, j) == x && y == a * b
    ensures Shift(y, j) == a * x
  {
    ShiftProduct(b, a, y, j);
  }

  // ---------------------------------------------------------------- the mean

  /** `r` is `frac * pow(2, exp / n)`, where `pow` is exact. */
  ghost predicate Reported(s: Split, n: nat, r: real) {
    r > 0.0 && Power(r, n) == Shift(Power(s.frac, n), s.exp)
  }

  /** `g` is the geometric mean of `n` numbers whose product is `x`. */
  ghost predicate GeometricMean(x: real, n: nat, g: real) {
    g > 0.0 && Power(g, n) == x
  }

  lemma {:induction false} PowerPositive(x: real, n: nat)
    requires x > 0.0
    ensures Power(x, n) > 0.0
  {
    if n > 0 { PowerPositive(x, n - 1); }
  }

  lemma {:induction false} PowerIncreases(x: real, y: real, n: nat)
    requires 0.0 < x < y && n > 0
    ensures Power(x, n) < Power(y, n)
  {
    if n > 1 {
      PowerIncreases(x, y, n - 1);
      PowerPositive(x, n - 1);
    }
  }

  lemma {:induction false} PowerOfOne(n: nat)
    ensures Power(1.0, n) == 1.0
  {
    if n > 0 { PowerOfOne(n - 1); }
  }

  /** The share of the fraction in the `n`-th power of what is reported. */
  lemma ReportedPower(s: Split, n: nat, r: real) returns (share: real)
    requires Normal(s) && n > 0 && Reported(s, n, r)
    ensures Power(r, n) == Value(s) * share
    ensures 0.0 < share <= 1.0 && (share == 1.0 <==> n == 1)
  {
    share := Power(s.frac, n - 1);
    ShiftProduct(s.frac, share, Power(s.frac, n), s.exp);
    PowerPositive(s.frac, n - 1);
    PowerOfOne(n - 1);
    if n > 1 { PowerIncreases(s.frac, 1.0, n - 1); }
  }

  lemma Lessens(x: real, share: real, y: real)
    requires 0.0 < share <= 1.0 && x > 0.0 && y == x * share
    ensures y <= x && (y == x <==> share == 1.0)
  {
    assert x * (1.0 - share) == x - y;
    if y == x { SameProduct(x, share, 1.0); }
  }

  /** Positive numbers are in the order of their `n`-th powers. */
  lemma PowerOrder(x: real, y: real, n: nat)
    requires x > 0.0 && y > 0.0 && n > 0
    ensures Power(x, n) <= Power(y, n) <==> x <= y
    ensures Power(x, n) == Power(y, n) <==> x == y
  {
    if x < y { PowerIncreases(x, y, n); } else if y < x { PowerIncreases(y, x, n); }
  }

  /** What is reported is the geometric mean of exactly one number, and too small for more, since
      the fraction is not taken to the `n`-th root. */
  lemma ReportedMean(s: Split, n: nat, r: real, g: real)
    requires Normal(s) && n > 0 && Reported(s, n, r) && GeometricMean(Value(s), n, g)
    ensures r == g <==> n == 1
    ensures r <= g
  {
    var share := ReportedPower(s, n, r);
    ShiftPositive(s.frac, s.exp);
    Lessens(Value(s), share, Power(r, n));
    PowerOrder(r, g, n);
  }

  /** If the product is at most 1, so is what is reported. */
  lemma ReportedAtMostOne(s: Split, n: nat, r: real)
    requires Normal(s) && n > 0 && Reported(s, n, r) && Value(s) <= 1.0
    ensures r <= 1.0
  {
    var share := ReportedPower(s, n, r);
    ShiftPositive(s.frac, s.exp);
    Lessens(Value(s), share, Power(r, n));
    PowerOfOne(n);
    PowerOrder(r, 1.0, n);
  }
}
