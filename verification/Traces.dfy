/** Traces of allocator requests, and which ids hold a block after a prefix of a trace. */
module Traces {
  import opened Machine

  datatype Op = Alloc(index: int, size: int) | Free(index: int) | Realloc(index: int, size: int)

  /** The ids that hold a block after one more request. */
  function LiveStep(op: Op, live: set<int>): set<int> {
    match op
    case Alloc(i, _) => live + {i}
    case Free(i) => live - {i}
    case Realloc(i, _) => live + {i}
  }

  function Live(ops: seq<Op>): set<int> {
    if ops == [] then {} else LiveStep(ops[|ops| - 1], Live(ops[..|ops| - 1]))
  }

  /** Ids are in range, sizes are non-negative `int`s, and what is freed or reallocated is held. */
  ghost predicate OpOk(ops: seq<Op>, n: nat, i: nat)
    requires i < |ops|
  {
    var op := ops[i];
    && 0 <= op.index < n
    && (!op.Free? ==> 0 <= op.size <= INT_MAX)
    && (!op.Alloc? ==> op.index in Live(ops[..i]))
  }

  ghost predicate Runnable(ops: seq<Op>, n: nat) {
    forall i {:trigger OpOk(ops, n, i)} :: 0 <= i < |ops| ==> OpOk(ops, n, i)
  }

  /** No id is allocated while it holds a block. */
  ghost predicate NoReuse(ops: seq<Op>) {
    forall i :: 0 <= i < |ops| && ops[i].Alloc? ==> ops[i].index !in Live(ops[..i])
  }

  /** Every block asked for is asked for with a positive size. */
  predicate Positive(ops: seq<Op>) {
    forall i :: 0 <= i < |ops| ==> ops[i].Free? || ops[i].size > 0
  }

  lemma LivePrefix(ops: seq<Op>, i: nat)
    requires i < |ops|
    ensures Live(ops[..i + 1]) == LiveStep(ops[i], Live(ops[..i]))
  {
    assert ops[..i + 1][..i] == ops[..i];
  }

  /** The size `id` was last given. */
  function SizeOf(ops: seq<Op>, id: int): int {
    if ops == [] then 0
    else
      var op, before := ops[|ops| - 1], ops[..|ops| - 1];
      if op.Free? || op.index != id then SizeOf(before, id) else op.size
  }

  /** The total of requested bytes after one more request, by an id that last asked for `was`. */
  function Changed(op: Op, total: int, was: int): int {
    match op
    case Alloc(_, n) => total + n
    case Realloc(_, n) => total + (n - was)
    case Free(_) => total - was
  }

  /** The bytes requested and not given back. */
  function Demand(ops: seq<Op>): int {
    if ops == [] then 0
    else
      var op, before := ops[|ops| - 1], ops[..|ops| - 1];
      Changed(op, Demand(before), SizeOf(before, op.index))
  }

  /** The high-water mark of the demand. */
  function Peak(ops: seq<Op>): int {
    if ops == [] then 0
    else
      var before := Peak(ops[..|ops| - 1]);
      if Demand(ops) > before then Demand(ops) else before
  }

  lemma {:induction false} PeakIsPeak(ops: seq<Op>)
    ensures forall i :: 0 <= i <= |ops| ==> Demand(ops[..i]) <= Peak(ops)
    ensures exists i :: 0 <= i <= |ops| && Demand(ops[..i]) == Peak(ops)
  {
    assert ops[..|ops|] == ops;
    if ops != [] {
      var before := ops[..|ops| - 1];
      PeakIsPeak(before);
      assert forall i :: 0 <= i <= |before| ==> before[..i] == ops[..i];
      var i :| 0 <= i <= |before| && Demand(before[..i]) == Peak(before);
      assert Demand(ops[..i]) == Peak(before);
    }
  }
}
