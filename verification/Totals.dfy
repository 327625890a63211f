/** The running total of the driver: it is the sum of the sizes of all blocks in use. */
module Totals {
  import opened HeapAccounting
  import opened Ledger
  import opened Traces

  /** Each id holds a block of the size it was last given, and the sizes add up to the demand. */
  ghost predicate Totalled(ops: seq<Op>, i: int, b: Book) {
    && 0 <= i <= |ops|
    && b.at.Keys == Live(ops[..i]) && Positive(ops[..i])
    && AllSized(ops[..i], b) && Unshared(b)
    && MapSum(b.asked) == Demand(ops[..i])
  }

  lemma {:induction false} ManyAsked(at: map<int, int>, asked: set<int>)
    requires forall i :: i in at ==> at[i] in asked
    requires forall i, j :: i in at && j in at && i != j ==> at[i] != at[j]
    ensures |at| <= |asked|
    decreases |at|
  {
    if |at| > 0 {
      SomeKey(at);
      var k :| k in at;
      SmallerMap(at, k);
      ManyAsked(at - {k}, asked - {at[k]});
    }
  }

  lemma {:induction false} SumNotNegative(m: map<int, int>)
    requires forall k :: k in m ==> m[k] > 0
    ensures MapSum(m) >= 0
    decreases |m|
  {
    if |m| > 0 {
      SomeKey(m);
      var k :| k in m;
      MapSumAt(m, k);
      SmallerMap(m, k);
      SumNotNegative(m - {k});
    }
  }

  // ---------------------------------------------------------------- one request

  lemma AskedMore(asked: map<int, int>, asked': map<int, int>, h: int, n: int)
    requires h !in asked && asked' == asked[h := n]
    ensures MapSum(asked') == MapSum(asked) + n
  {
    MapSumAdd(asked, h, n);
  }

  lemma AskedLess(asked: map<int, int>, asked': map<int, int>, h: int)
    requires h in asked && asked' == asked - {h}
    ensures MapSum(asked') == MapSum(asked) - asked[h]
  {
    MapSumAt(asked, h);
  }

  lemma ExchangeSum(asked: map<int, int>, a: int, h: int, n: int)
    requires a in asked && h !in asked
    ensures MapSum((asked - {a})[h := n]) == MapSum(asked) + (n - asked[a])
  {
    AskedLess(asked, asked - {a}, a);
    AskedMore(asked - {a}, (asked - {a})[h := n], h, n);
  }

  lemma GrantSum(b: Book, b': Book, id: int, n: int)
    requires HandedOut(b, b', id, n)
    ensures MapSum(b'.asked) == MapSum(b.asked) + n
  {
    var h :| h !in b.asked && b' == Assigned(b.(asked := b.asked[h := n]), id, h);
    AskedMore(b.asked, b'.asked, h, n);
  }

  lemma ExchangedSum(b: Book, b': Book, id: int, n: int)
    requires Exchanged(b, b', id, n) && b.at[id] in b.asked
    ensures MapSum(b'.asked) == MapSum(b.asked) + (n - b.asked[b.at[id]])
  {
    var h :| h !in b.asked && b' == Assigned(Retired(b.(asked := b.asked[h := n]), id), id, h);
    MovedAsked(b.asked, b'.asked, b.at[id], h, n);
    ExchangeSum(b.asked, b.at[id], h, n);
  }

  lemma RetiredSum(b: Book, b': Book, id: int, was: int)
    requires id in b.at && b.at[id] in b.asked && b' == Retired(b, id) && was == b.asked[b.at[id]]
    ensures MapSum(b'.asked) == MapSum(b.asked) - was
  {
    AskedLess(b.asked, b'.asked, b.at[id]);
  }

  lemma MovedAsked(asked: map<int, int>, asked': map<int, int>, a: int, h: int, n: int)
    requires a in asked && h !in asked && asked' == asked[h := n] - {a}
    ensures asked' == (asked - {a})[h := n]
  {
  }

  lemma StepSum(op: Op, b: Book, b': Book, was: int)
    requires Stepped(op, b, b')
    requires !op.Alloc? ==> op.index in b.at && b.at[op.index] in b.asked && was == b.asked[b.at[op.index]]
    ensures MapSum(b'.asked) == Changed(op, MapSum(b.asked), was)
  {
    match op
    case Alloc(id, n) => GrantSum(b, b', id, n);
    case Realloc(id, n) => ExchangedSum(b, b', id, n);
    case Free(id) => RetiredSum(b, b', id, was);
  }

  /** `id` holds a block of the size it was last given. */
  ghost predicate Sized(ops: seq<Op>, b: Book, id: int) {
    id in b.at ==> b.at[id] in b.asked && b.asked[b.at[id]] == SizeOf(ops, id)
  }

  ghost predicate AllSized(ops: seq<Op>, b: Book) {
    forall id {:trigger Sized(ops, b, id)} :: Sized(ops, b, id)
  }

  lemma SizeStep(ops: seq<Op>, i: nat, id: int)
    requires i < |ops|
    ensures SizeOf(ops[..i + 1], id) ==
      if ops[i].Free? || ops[i].index != id then SizeOf(ops[..i], id) else ops[i].size
    ensures Demand(ops[..i + 1]) == Changed(ops[i], Demand(ops[..i]), SizeOf(ops[..i], ops[i].index))
  {
    assert ops[..i + 1][..i] == ops[..i];
  }

  lemma StepSized(ops: seq<Op>, i: nat, b: Book, b': Book, id: int)
    requires i < |ops| && Stepped(ops[i], b, b')
    requires AllSized(ops[..i], b) && Unshared(b)
    ensures Sized(ops[..i + 1], b', id)
  {
    SizeStep(ops, i, id);
    assert Sized(ops[..i], b, id) && Sized(ops[..i], b, ops[i].index) && Different(b, id, ops[i].index);
  }

  lemma StepUnshared(op: Op, b: Book, b': Book)
    requires Stepped(op, b, b') && Unshared(b) && forall id :: id in b.at ==> b.at[id] in b.asked
    ensures Unshared(b')
  {
    forall i, j {:trigger Different(b', i, j)} ensures Different(b', i, j) {
      assert Different(b, i, j);
    }
  }

  lemma StepAllSized(ops: seq<Op>, i: nat, b: Book, b': Book, done: seq<Op>)
    requires i < |ops| && Stepped(ops[i], b, b') && AllSized(ops[..i], b) && Unshared(b) && done == ops[..i + 1]
    ensures AllSized(done, b')
  {
    forall id {:trigger Sized(done, b', id)} ensures Sized(done, b', id) { StepSized(ops, i, b, b', id); }
  }

  /** The ids and sizes follow each request. */
  lemma StepTotalled(ops: seq<Op>, i: nat, b: Book, b': Book)
    requires i < |ops| && Stepped(ops[i], b, b') && Demanding(ops[i]) && Totalled(ops, i, b)
    requires !ops[i].Alloc? ==> ops[i].index in b.at
    ensures Totalled(ops, i + 1, b')
    ensures Demand(ops[..i + 1]) == Changed(ops[i], Demand(ops[..i]), SizeOf(ops[..i], ops[i].index))
  {
    var was := SizeOf(ops[..i], ops[i].index);
    assert Sized(ops[..i], b, ops[i].index);
    StepSum(ops[i], b, b', was);
    SizeStep(ops, i, 0);
    StepAllSized(ops, i, b, b', ops[..i + 1]);
    forall id | id in b.at ensures b.at[id] in b.asked { assert Sized(ops[..i], b, id); }
    StepUnshared(ops[i], b, b');
    StepPositive(ops, i, b, b');
  }

  lemma PositiveSnoc(ops: seq<Op>, i: nat)
    requires i < |ops| && Demanding(ops[i]) && Positive(ops[..i])
    ensures Positive(ops[..i + 1])
  {
    forall j | 0 <= j < i ensures ops[j].Free? || ops[j].size > 0 { assert ops[..i][j] == ops[j]; }
  }

  lemma StepPositive(ops: seq<Op>, i: nat, b: Book, b': Book)
    requires i < |ops| && Stepped(ops[i], b, b') && Demanding(ops[i])
    requires b.at.Keys == Live(ops[..i]) && Positive(ops[..i])
    ensures b'.at.Keys == Live(ops[..i + 1]) && Positive(ops[..i + 1])
  {
    LivePrefix(ops, i);
    PositiveSnoc(ops, i);
  }

  lemma NothingTotalled(ops: seq<Op>)
    ensures Totalled(ops, 0, EmptyBook())
  {
  }

  lemma NextSpendable(ops: seq<Op>, i: nat, b: Book, n: nat)
    requires Runnable(ops, n) && i < |ops| && Totalled(ops, i, b)
    ensures Servable(ops[i], b, n) && (Positive(ops) ==> Demanding(ops[i]))
    ensures !ops[i].Alloc? ==>
      b.at[ops[i].index] in b.asked && SizeOf(ops[..i], ops[i].index) == b.asked[b.at[ops[i].index]]
  {
    assert OpOk(ops, n, i);
    assert Sized(ops[..i], b, ops[i].index);
  }

  lemma AllTotalled(ops: seq<Op>, b: Book)
    requires Totalled(ops, |ops|, b)
    ensures Positive(ops)
  {
  }
}
