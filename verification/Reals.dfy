/** Facts of real arithmetic. */
module Reals {

  function Abs(x: real): real { if x < 0.0 then -x else x }

  /** `c` times the `n`-th power of `q`. */
  function Scale(q: real, c: real, n: nat): real { if n == 0 then c else q * Scale(q, c, n - 1) }

  lemma AbsProduct(x: real, y: real)
    ensures Abs(x * y) == Abs(x) * Abs(y) && Abs(-x * y) == Abs(x) * Abs(y)
  {
  }

  lemma SameProduct(c: real, x: real, y: real)
    requires c != 0.0
    ensures c * x == c * y <==> x == y
  {
    assert c * (x - y) == c * x - c * y;
  }

  lemma Monotone(p: real, x: real, y: real)
    requires p >= 0.0 && x <= y
    ensures p * x <= p * y
  {
  }

  lemma {:induction false} ScaleGrows(q: real, c: real, n: nat)
    requires c >= 0.0 && q >= 0.0
    ensures Scale(q, c, n) >= 0.0
    ensures q >= 1.0 ==> Scale(q, c, n) >= c
  {
    if n > 0 {
      ScaleGrows(q, c, n - 1);
      var s := Scale(q, c, n - 1);
      assert q >= 1.0 ==> (q - 1.0) * s >= 0.0;
    }
  }

  lemma {:induction false} ScaleShrinks(q: real, c: real, n: nat)
    requires c >= 0.0 && 0.0 <= q <= 1.0
    ensures 0.0 <= Scale(q, c, n) <= c
  {
    if n > 0 {
      ScaleShrinks(q, c, n - 1);
      var s := Scale(q, c, n - 1);
      Monotone(s, 0.0, q);
      Monotone(s, q, 1.0);
    }
  }

  lemma {:induction false} ScaleFactor(q: real, c: real, n: nat)
    ensures Scale(q, c, n) == c * Scale(q, 1.0, n)
  {
    if n > 0 {
      ScaleFactor(q, c, n - 1);
      Reorder(q, c, Scale(q, 1.0, n - 1));
    }
  }

  lemma Reorder(x: real, y: real, z: real)
    ensures x * (y * z) == y * (x * z)
  {
  }
}
