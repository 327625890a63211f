/** The K-best sampler: of all measurements so far it keeps the `kbest` smallest, in order. */
module KBest {

  // ---------------------------------------------------------------- sort everything, take k

  ghost predicate Sorted(s: seq<real>) {
    forall i, j :: 0 <= i < j < |s| ==> s[i] <= s[j]
  }

  /** `x` in its place, behind what is equal to it. */
  ghost function Insert(x: real, s: seq<real>): seq<real> {
    if s == [] || s[|s| - 1] <= x then s + [x] else Insert(x, s[..|s| - 1]) + [s[|s| - 1]]
  }

  ghost function SortAll(samples: seq<real>): seq<real> {
    if samples == [] then [] else Insert(samples[|samples| - 1], SortAll(samples[..|samples| - 1]))
  }

  ghost function Min(a: nat, b: nat): nat { if a < b then a else b }

  ghost function Best(samples: seq<real>, k: nat): seq<real> {
    var all := SortAll(samples);
    all[..Min(|all|, k)]
  }

  lemma SortedSnoc(s: seq<real>, x: real)
    requires Sorted(s) && (s == [] || s[|s| - 1] <= x)
    ensures Sorted(s + [x])
  {
  }

  lemma MultisetSnoc(s: seq<real>, x: real)
    ensures multiset(s + [x]) == multiset(s) + multiset{x}
  {
  }

  lemma {:induction false} InsertSorts(x: real, s: seq<real>)
    requires Sorted(s)
    ensures Sorted(Insert(x, s)) && |Insert(x, s)| == |s| + 1
    ensures multiset(Insert(x, s)) == multiset(s) + multiset{x}
    ensures Insert(x, s)[|s|] == if s == [] || s[|s| - 1] <= x then x else s[|s| - 1]
  {
    if s == [] || s[|s| - 1] <= x {
      SortedSnoc(s, x);
      MultisetSnoc(s, x);
    } else {
      var front, last := s[..|s| - 1], s[|s| - 1];
      InsertSorts(x, front);
      SortedSnoc(Insert(x, front), last);
      MultisetSnoc(Insert(x, front), last);
      MultisetSnoc(front, last);
      assert s == front + [last];
    }
  }

  /** Sorting keeps the samples. */
  lemma {:induction false} SortAllSorts(samples: seq<real>)
    ensures Sorted(SortAll(samples)) && multiset(SortAll(samples)) == multiset(samples)
    ensures |SortAll(samples)| == |samples|
  {
    if samples != [] {
      var before, x := samples[..|samples| - 1], samples[|samples| - 1];
      assert samples == before + [x];
      SortAllSorts(before);
      InsertSorts(x, SortAll(before));
    }
  }

  /** The best are the smallest: every other sample is at least as large. */
  lemma BestAreSmallest(samples: seq<real>, k: nat) returns (rest: seq<real>)
    ensures Sorted(Best(samples, k)) && |Best(samples, k)| == Min(|samples|, k)
    ensures multiset(samples) == multiset(Best(samples, k)) + multiset(rest)
    ensures forall i, j :: 0 <= i < |Best(samples, k)| && 0 <= j < |rest| ==> Best(samples, k)[i] <= rest[j]
  {
    SortAllSorts(samples);
    var all := SortAll(samples);
    rest := all[Min(|all|, k)..];
    assert all == Best(samples, k) + rest;
  }

  lemma BestIsMinimum(samples: seq<real>, k: nat)
    requires samples != [] && k > 0
    ensures Best(samples, k) != [] && Best(samples, k)[0] in samples
    ensures forall x :: x in samples ==> Best(samples, k)[0] <= x
  {
    SortAllSorts(samples);
    var all := SortAll(samples);
    assert all[0] in multiset(all);
    forall x | x in samples ensures all[0] <= x {
      assert x in multiset(samples) && x in multiset(all);
      var i :| 0 <= i < |all| && all[i] == x;
    }
  }

  /** The place of an inserted element. */
  lemma {:induction false} InsertAt(x: real, s: seq<real>, pos: nat)
    requires pos <= |s| && (pos > 0 ==> s[pos - 1] <= x) && forall j :: pos <= j < |s| ==> s[j] > x
    ensures Insert(x, s) == s[..pos] + [x] + s[pos..]
  {
    if pos < |s| {
      var front, last := s[..|s| - 1], s[|s| - 1];
      InsertAt(x, front, pos);
      assert s[..pos] == front[..pos] && s[pos..] == front[pos..] + [last];
    }
  }

  ghost function Shifted(s: seq<real>, x: real, pos: nat): seq<real>
    requires pos <= |s|
  {
    s[..pos] + [x] + s[pos..]
  }

  /** To know the best after one more sample, the best so far are enough. */
  lemma {:induction false} InsertTake(x: real, s: seq<real>, k: nat)
    requires Sorted(s) && 0 < k <= |s|
    ensures |Insert(x, s)| == |s| + 1
    ensures Insert(x, s)[..k] == if x < s[k - 1] then Insert(x, s[..k - 1]) else s[..k]
  {
    InsertSorts(x, s);
    if s[|s| - 1] > x {
      var front, last := s[..|s| - 1], s[|s| - 1];
      if k < |s| {
        InsertTake(x, front, k);
        assert front[..k] == s[..k] && front[..k - 1] == s[..k - 1];
      }
    }
  }

  lemma TakeTwice(s: seq<real>, k: nat)
    requires 0 < k <= |s|
    ensures s[..k][..k - 1] == s[..k - 1] && s[..k][k - 1] == s[k - 1]
  {
  }

  /** The best after one more sample. */
  lemma BestStep(samples: seq<real>, x: real, k: nat)
    requires k > 0
    ensures |Best(samples, k)| == Min(|samples|, k)
    ensures Best(samples + [x], k) ==
      if |samples| < k then Insert(x, Best(samples, k))
      else if x < Best(samples, k)[k - 1] then Insert(x, Best(samples, k)[..k - 1])
      else Best(samples, k)
  {
    var all := SortAll(samples);
    SortAllSorts(samples);
    InsertSorts(x, all);
    SortAllSnoc(samples, x);
    if |samples| < k {
      assert all[..|all|] == all && Insert(x, all)[..|all| + 1] == Insert(x, all);
    } else {
      InsertTake(x, all, k);
      TakeTwice(all, k);
    }
  }

  lemma SortAllSnoc(samples: seq<real>, x: real)
    ensures SortAll(samples + [x]) == Insert(x, SortAll(samples))
  {
    assert (samples + [x])[..|samples|] == samples;
  }

  /** The `k` smallest samples have been found, and agree within `epsilon`. */
  ghost predicate Converged(samples: seq<real>, k: nat, epsilon: real) {
    Agree(Best(samples, k), k, epsilon)
  }

  predicate Agree(best: seq<real>, k: nat, epsilon: real) {
    |best| == k > 0 && (1.0 + epsilon) * best[0] >= best[k - 1]
  }

  lemma BestIsSorted(samples: seq<real>, k: nat)
    ensures Sorted(Best(samples, k)) && |Best(samples, k)| == Min(|samples|, k)
  {
    var rest := BestAreSmallest(samples, k);
  }

  ghost predicate Within(x: real, y: real, epsilon: real) { y <= (1.0 + epsilon) * x }

  /** There are `k` samples, and of the `k` smallest none exceeds another by more than the factor
      1 + epsilon. */
  ghost predicate Close(samples: seq<real>, k: nat, epsilon: real) {
    |samples| >= k && AllWithin(Best(samples, k), epsilon)
  }

  ghost predicate AllWithin(best: seq<real>, epsilon: real) {
    forall i, j {:trigger Within(best[i], best[j], epsilon)} ::
      0 <= i < |best| && 0 <= j < |best| ==> Within(best[i], best[j], epsilon)
  }

  lemma ScaledUp(f: real, least: real, greatest: real, x: real, y: real)
    requires f >= 0.0 && f * least >= greatest && least <= x && y <= greatest
    ensures y <= f * x
  {
    assert f * (x - least) >= 0.0;
  }

  /** Comparing the smallest with the `k`-th is enough, unless the factor is negative. */
  lemma EndsWithin(best: seq<real>, epsilon: real)
    requires best != [] && Sorted(best) && 1.0 + epsilon >= 0.0
    ensures Within(best[0], best[|best| - 1], epsilon) <==> AllWithin(best, epsilon)
  {
    if Within(best[0], best[|best| - 1], epsilon) {
      forall i, j | 0 <= i < |best| && 0 <= j < |best| ensures Within(best[i], best[j], epsilon) {
        ScaledUp(1.0 + epsilon, best[0], best[|best| - 1], best[i], best[j]);
      }
    }
  }

  lemma ConvergedIsClose(samples: seq<real>, k: nat, epsilon: real)
    requires k > 0 && 1.0 + epsilon >= 0.0
    ensures Converged(samples, k, epsilon) <==> Close(samples, k, epsilon)
  {
    BestIsSorted(samples, k);
    if |samples| >= k { EndsWithin(Best(samples, k), epsilon); }
  }

  /** The first `n` measurements. */
  ghost function Taken(measured: nat -> real, n: nat): seq<real> {
    if n == 0 then [] else Taken(measured, n - 1) + [measured(n - 1)]
  }

  lemma {:induction false} TakenIs(measured: nat -> real, n: nat)
    ensures |Taken(measured, n)| == n && forall i :: 0 <= i < n ==> Taken(measured, n)[i] == measured(i)
  {
    if n > 0 { TakenIs(measured, n - 1); }
  }

  /** The first `j` measurements have converged. */
  ghost predicate ConvergedAt(measured: nat -> real, j: nat, k: nat, epsilon: real) {
    Converged(Taken(measured, j), k, epsilon)
  }

  /** Of all numbers of measurements, `n` is the first at which they are close, or at least `max`. */
  ghost predicate FirstClose(measured: nat -> real, n: nat, max: int, k: nat, epsilon: real) {
    && (Close(Taken(measured, n), k, epsilon) || n >= max)
    && forall j :: 1 <= j < n ==> !Close(Taken(measured, j), k, epsilon)
  }

  lemma StopsAtFirst(measured: nat -> real, n: nat, max: int, k: nat, epsilon: real)
    requires k > 0 && (ConvergedAt(measured, n, k, epsilon) || n >= max)
    requires forall j :: 1 <= j < n ==> !ConvergedAt(measured, j, k, epsilon)
    ensures 1.0 + epsilon >= 0.0 ==> FirstClose(measured, n, max, k, epsilon)
  {
    if 1.0 + epsilon >= 0.0 {
      ConvergedIsClose(Taken(measured, n), k, epsilon);
      forall j | 1 <= j < n ensures !Close(Taken(measured, j), k, epsilon) {
        assert !ConvergedAt(measured, j, k, epsilon);
        ConvergedIsClose(Taken(measured, j), k, epsilon);
      }
    }
  }

  // ---------------------------------------------------------------- the sampler

  class Sampler {
    const kbest: nat
    const maxsamples: int
    const epsilon: real
    var values: array<real>
    var samplecount: nat
    ghost var samples: seq<real>

    ghost predicate Valid()
      reads this, values
    {
      && kbest > 0 && values.Length == kbest && samplecount == |samples|
      && values[..Min(samplecount, kbest)] == Best(samples, kbest)
    }

    constructor (kbest: nat, maxsamples: int, epsilon: real)
      ensures this.kbest == kbest && this.maxsamples == maxsamples && this.epsilon == epsilon
    {
      this.kbest, this.maxsamples, this.epsilon := kbest, maxsamples, epsilon;
      values := new real[0];
      samplecount := 0;
      samples := [];
    }

    method InitSampler()
      requires kbest > 0
      modifies this
      ensures Valid() && samples == [] && fresh(values)
    {
      values := new real[kbest](_ => 0.0);
      samplecount := 0;
      samples := [];
    }

    method AddSample(val: real)
      requires Valid()
      modifies this`samplecount, this`samples, values
      ensures Valid() && samples == old(samples) + [val]
    {
      BestStep(samples, val, kbest);
      BestIsSorted(samples, kbest);
      ghost var best := values[..Min(samplecount, kbest)];
      samples := samples + [val];
      if samplecount < kbest {
        values[samplecount] := val;
        assert values[..samplecount] == best;
        samplecount := samplecount + 1;
        Sink(samplecount - 1, best, val);
      } else {
        samplecount := samplecount + 1;
        if val < values[kbest - 1] {
          values[kbest - 1] := val;
          assert values[..kbest - 1] == best[..kbest - 1];
          Sink(kbest - 1, best[..kbest - 1], val);
        }
      }
    }

    /** The insertion sort: the value at `start` moves down to its place. */
    method Sink(start: nat, ghost best: seq<real>, ghost val: real)
      requires start < values.Length && values[..start] == best && values[start] == val && Sorted(best)
      modifies values
      ensures values[..start + 1] == Insert(val, best)
    {
      var pos := start;
      assert values[..start + 1] == Shifted(best, val, pos);
      while pos > 0 && values[pos - 1] > values[pos]
        invariant 0 <= pos <= start < values.Length && |best| == start
        invariant values[..start + 1] == Shifted(best, val, pos)
        invariant forall j :: pos <= j < start ==> best[j] > val
      {
        ghost var s := values[..start + 1];
        var temp := values[pos - 1];
        values[pos - 1] := values[pos];
        values[pos] := temp;
        assert values[..start + 1] == s[pos - 1 := s[pos]][pos := s[pos - 1]];
        pos := pos - 1;
      }
      InsertAt(val, best, pos);
    }

    method HasConverged() returns (b: bool)
      requires Valid()
      ensures b <==> Converged(samples, kbest, epsilon)
      ensures 1.0 + epsilon >= 0.0 ==> (b <==> Close(samples, kbest, epsilon))
    {
      if 1.0 + epsilon >= 0.0 { ConvergedIsClose(samples, kbest, epsilon); }
      BestIsSorted(samples, kbest);
      ghost var best := values[..Min(samplecount, kbest)];
      b := samplecount >= kbest && (1.0 + epsilon) * values[0] >= values[kbest - 1];
      assert samplecount >= kbest ==> best[0] == values[0] && best[kbest - 1] == values[kbest - 1];
      assert b <==> Agree(best, kbest, epsilon);
    }

    /** One more sample; is it enough? */
    method Step(cyc: real) returns (done: bool)
      requires Valid()
      modifies this`samplecount, this`samples, values
      ensures Valid() && samples == old(samples) + [cyc]
      ensures done <==> Converged(samples, kbest, epsilon) || samplecount >= maxsamples
    {
      AddSample(cyc);
      done := HasConverged();
      done := done || samplecount >= maxsamples;
    }

    /** The first of the values kept. */
    method Least() returns (result: real)
      requires Valid() && samples != []
      ensures result in samples && forall x :: x in samples ==> result <= x
    {
      BestIsMinimum(samples, kbest);
      result := values[0];
      assert result == values[..Min(samplecount, kbest)][0];
    }

    /** Measure until the best values have converged or there are enough samples: `measured(i)` is
        what the `i`-th measurement gives. The result is the smallest of all measurements taken. */
    method Fcyc(measured: nat -> real) returns (result: real)
      requires kbest > 0
      modifies this
      ensures Valid() && samples == Taken(measured, samplecount)
      ensures 1 <= samplecount && (samplecount <= maxsamples || samplecount == 1)
      ensures ConvergedAt(measured, samplecount, kbest, epsilon) || samplecount >= maxsamples
      ensures forall j :: 1 <= j < samplecount ==> !ConvergedAt(measured, j, kbest, epsilon)
      ensures 1.0 + epsilon >= 0.0 ==> FirstClose(measured, samplecount, maxsamples, kbest, epsilon)
      ensures result in samples && forall x :: x in samples ==> result <= x
    {
      InitSampler();
      while true
        invariant Valid() && fresh(values) && samples == Taken(measured, samplecount)
        invariant samplecount < maxsamples || samplecount == 0
        invariant forall j :: 1 <= j <= samplecount ==> !ConvergedAt(measured, j, kbest, epsilon)
        decreases maxsamples - samplecount
      {
        var done := Step(measured(samplecount));
        assert samples == Taken(measured, samplecount);
        if done { break; }
      }
      StopsAtFirst(measured, samplecount, maxsamples, kbest, epsilon);
      result := Least();
    }
  }
}
