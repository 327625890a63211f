/** From the text of a trace to an empty heap: what the balancer accepts, the driver can run, and
    what it puts out leaves nothing mapped. */
module EndToEnd {
  import opened Machine
  import opened Outcomes
  import opened Words
  import opened CheckTraces
  import opened Traces
  import Drivers

  /** A request line as the driver reads it: `a id size`, `r id size` or `f id`, in decimal. */
  predicate Plain(line: string, n: nat) {
    var w := WordsIn(line);
    && ((|w| == 3 && (w[0] == "a" || w[0] == "r")) || (|w| == 2 && w[0] == "f"))
    && Numeral(w[1]) && NatOf(w[1]) < n
    && (|w| == 3 ==> Numeral(w[2]) && NatOf(w[2]) <= INT_MAX)
  }

  ghost predicate AllPlain(lines: seq<string>, n: nat) {
    forall i {:trigger Plain(lines[i], n)} :: 0 <= i < |lines| ==> Plain(lines[i], n)
  }

  /** The request on a plain line. */
  function OpOf(line: string): Op {
    var w := WordsIn(line);
    var id, size := NatOf(Id(line)), if |w| > 2 then NatOf(w[2]) else 0;
    if Cmd(line) == "a" then Alloc(id, size) else if Cmd(line) == "r" then Realloc(id, size) else Free(id)
  }

  lemma NumeralIsWord(s: string)
    requires Numeral(s)
    ensures NoSpace(s) && s != ""
  {
  }

  lemma BlankThen(w: string)
    ensures WordsIn(" " + w) == WordsIn(w)
  {
    GapSkipped(" ", w);
  }

  lemma TwoWords(cmd: string, id: string)
    requires cmd != "" && NoSpace(cmd) && id != "" && NoSpace(id)
    ensures WordsIn(cmd + (" " + id)) == [cmd, id]
  {
    FirstWord(cmd, " " + id);
    BlankThen(id);
    LastWord(id);
  }

  lemma ThreeWords(cmd: string, id: string, size: string)
    requires cmd != "" && NoSpace(cmd) && id != "" && NoSpace(id) && size != "" && NoSpace(size)
    ensures WordsIn(cmd + (" " + (id + (" " + size)))) == [cmd, id, size]
  {
    FirstWord(cmd, " " + (id + (" " + size)));
    BlankThen(id + (" " + size));
    TwoWords(id, size);
  }

  lemma Regroup(x: string, y: string, z: string)
    ensures x + y + z == x + (y + z)
  {
  }

  lemma PrintedWords(cmd: string, id: nat, size: nat)
    requires cmd != "" && NoSpace(cmd)
    ensures WordsIn(cmd + " " + Decimal(id) + " " + Decimal(size)) == [cmd, Decimal(id), Decimal(size)]
    ensures WordsIn(cmd + " " + Decimal(id)) == [cmd, Decimal(id)]
  {
    var i, n := Decimal(id), Decimal(size);
    ReadBack(id);
    ReadBack(size);
    NumeralIsWord(i);
    NumeralIsWord(n);
    Regroup(cmd + " " + i, " ", n);
    Regroup(cmd + " ", i, " " + n);
    Regroup(cmd, " ", i + (" " + n));
    ThreeWords(cmd, i, n);
    Regroup(cmd, " ", i);
    TwoWords(cmd, i);
  }

  lemma ReadIs(line: string, cmd: string, id: nat, size: nat)
    requires WordsIn(line) == [cmd, Decimal(id), Decimal(size)] || (cmd == "f" && WordsIn(line) == [cmd, Decimal(id)])
    requires cmd == "a" || cmd == "r" || cmd == "f"
    ensures OpOf(line) == if cmd == "a" then Alloc(id, size) else if cmd == "r" then Realloc(id, size) else Free(id)
  {
    ReadBack(id);
    ReadBack(size);
  }

  /** A line printed for a request is read as that request. */
  lemma PrintedIsRead(id: nat, size: nat)
    ensures OpOf("a " + Decimal(id) + " " + Decimal(size)) == Alloc(id, size)
    ensures OpOf("r " + Decimal(id) + " " + Decimal(size)) == Realloc(id, size)
    ensures OpOf("f " + Decimal(id)) == Free(id)
  {
    assert "a " == "a" + " " && "r " == "r" + " " && "f " == "f" + " ";
    PrintedWords("a", id, size);
    ReadIs("a " + Decimal(id) + " " + Decimal(size), "a", id, size);
    PrintedWords("r", id, size);
    ReadIs("r " + Decimal(id) + " " + Decimal(size), "r", id, size);
    PrintedWords("f", id, size);
    ReadIs("f " + Decimal(id), "f", id, size);
  }

  function OpsOf(lines: seq<string>): seq<Op> {
    seq(|lines|, i requires 0 <= i < |lines| => OpOf(lines[i]))
  }

  lemma OpsAt(lines: seq<string>, i: nat)
    requires i <= |lines|
    ensures |OpsOf(lines)| == |lines| && OpsOf(lines)[..i] == OpsOf(lines[..i])
    ensures i < |lines| ==> OpsOf(lines)[i] == OpOf(lines[i])
  {
  }

  lemma LiveSnoc(lines: seq<string>)
    requires lines != []
    ensures Live(OpsOf(lines)) == LiveStep(OpOf(lines[|lines| - 1]), Live(OpsOf(lines[..|lines| - 1])))
  {
    assert OpsOf(lines)[..|OpsOf(lines)| - 1] == OpsOf(lines[..|lines| - 1]);
  }

  /** The outstanding ids of the text are the ids that hold a block. */
  ghost predicate SameLive(lines: seq<string>, live: set<int>) {
    && (forall id :: Numeral(id) ==> (NatOf(id) in live <==> Last(lines, id) == Present("a")))
    && (forall id :: Last(lines, id) == Absent || (Last(lines, id) == Present("a") && Numeral(id)))
    && (forall x :: x in live ==> exists id :: Numeral(id) && NatOf(id) == x)
  }

  lemma {:induction false} LiveIsOutstanding(lines: seq<string>, n: nat)
    requires AllPlain(lines, n) && Consistent(lines)
    ensures SameLive(lines, Live(OpsOf(lines)))
  {
    if lines != [] {
      var before, line := lines[..|lines| - 1], lines[|lines| - 1];
      assert lines == before + [line];
      ConsistentPrefix(before, [line]);
      forall i | 0 <= i < |before| ensures Plain(before[i], n) { assert Plain(lines[i], n); }
      LiveIsOutstanding(before, n);
      LiveSnoc(lines);
      assert Plain(line, n) && LineOk(lines, |before|) && lines[..|before|] == before;
      LiveStepIs(before, line, n, Live(OpsOf(before)), Live(OpsOf(lines)));
    }
  }

  lemma LiveStepIs(lines: seq<string>, line: string, n: nat, live: set<int>, live': set<int>)
    requires SameLive(lines, live) && Plain(line, n) && live' == LiveStep(OpOf(line), live)
    requires Cmd(line) == "r" ==> Last(lines, Id(line)) != Absent
    ensures SameLive(lines + [line], live')
  {
    var lines' := lines + [line];
    forall id ensures Last(lines', id) == Absent || (Last(lines', id) == Present("a") && Numeral(id)) {}
    forall id | Numeral(id) ensures NatOf(id) in live' <==> Last(lines', id) == Present("a") {
      if NatOf(id) == NatOf(Id(line)) { SameNumeral(id, Id(line)); }
    }
  }

  /** On plain lines, the balancer's test is exactly that the trace can be run, and that no id is
      allocated while it holds a block. */
  lemma AcceptedIsRunnable(lines: seq<string>, n: nat)
    requires AllPlain(lines, n)
    ensures Accepted(lines) <==> Runnable(OpsOf(lines), n) && NoReuse(OpsOf(lines))
  {
    var ops := OpsOf(lines);
    OpsAt(lines, 0);
    if Consistent(lines) {
      LiveIsOutstanding(lines, n);
      forall i | 0 <= i < |ops| ensures OpOk(ops, n, i) && (ops[i].Alloc? ==> ops[i].index !in Live(ops[..i])) {
        ConsistentAt(lines, i, n);
        LineIsOp(lines, i, n);
      }
    } else if Runnable(ops, n) && NoReuse(ops) {
      assert lines[..|lines|] == lines;
      RunnableIsConsistent(lines, n, |lines|);
    }
  }

  lemma ConsistentAt(lines: seq<string>, i: nat, n: nat)
    requires AllPlain(lines, n) && Consistent(lines) && i < |lines|
    ensures LineOk(lines, i) && Consistent(lines[..i]) && AllPlain(lines[..i], n)
  {
    assert lines == lines[..i] + lines[i..];
    ConsistentPrefix(lines[..i], lines[i..]);
    forall j | 0 <= j < i ensures Plain(lines[..i][j], n) { assert Plain(lines[j], n); }
  }

  /** A line is in order exactly if the request on it is. */
  lemma LineIsOp(lines: seq<string>, i: nat, n: nat)
    requires AllPlain(lines, n) && i < |lines| == |OpsOf(lines)|
    requires Consistent(lines[..i]) && AllPlain(lines[..i], n)
    ensures LineOk(lines, i) <==>
      OpOk(OpsOf(lines), n, i) && (OpsOf(lines)[i].Alloc? ==> OpsOf(lines)[i].index !in Live(OpsOf(lines)[..i]))
  {
    assert Plain(lines[i], n);
    OpsAt(lines, i);
    LiveIsOutstanding(lines[..i], n);
  }

  lemma {:induction false} RunnableIsConsistent(lines: seq<string>, n: nat, i: nat)
    requires AllPlain(lines, n) && i <= |lines| == |OpsOf(lines)|
    requires Runnable(OpsOf(lines), n) && NoReuse(OpsOf(lines))
    ensures Consistent(lines[..i])
  {
    if i > 0 {
      RunnableIsConsistent(lines, n, i - 1);
      assert forall j :: 0 <= j < i - 1 ==> lines[..i - 1][j] == lines[j];
      LineIsOp(lines, i - 1, n);
      assert OpOk(OpsOf(lines), n, i - 1);
      assert lines[..i] == lines[..i - 1] + [lines[i - 1]];
      ConsistentSnoc(lines[..i - 1], lines[i - 1]);
      assert lines[..i][..i - 1] == lines[..i - 1];
    } else {
      assert lines[..i] == [];
    }
  }

  // ---------------------------------------------------------------- the balanced trace

  lemma {:induction false} OutstandingIsPlain(lines: seq<string>, n: nat, id: string)
    requires AllPlain(lines, n) && Last(lines, id) != Absent
    ensures Numeral(id) && NatOf(id) < n
  {
    var before, line := lines[..|lines| - 1], lines[|lines| - 1];
    assert Plain(line, n);
    forall i | 0 <= i < |before| ensures Plain(before[i], n) { assert Plain(lines[i], n); }
    if Id(line) != id { OutstandingIsPlain(before, n, id); }
  }

  lemma FreeLineIsPlain(key: string, n: nat)
    requires Numeral(key) && NatOf(key) < n
    ensures Plain(FreeLine(key), n)
  {
    FirstWord("f", [' '] + key);
    assert FreeLine(key) == "f" + ([' '] + key);
    LastWord(key);
  }

  /** The balanced trace extends the requests by frees. */
  lemma BalancedIsPlain(t: Trace, t': Trace, keys: seq<string>, n: nat)
    requires AllPlain(Kept(t.lines), n) && Balances(t, t', keys)
    ensures AllPlain(t'.lines, n)
    ensures OpsOf(Kept(t.lines)) <= OpsOf(t'.lines)
    ensures Positive(OpsOf(t'.lines)) <==> Positive(OpsOf(Kept(t.lines)))
  {
    var lines, ops, ops' := Kept(t.lines), OpsOf(Kept(t.lines)), OpsOf(t'.lines);
    assert |t'.lines| == |lines| + |keys|;
    forall i | 0 <= i < |t'.lines|
      ensures Plain(t'.lines[i], n) && (i >= |lines| ==> ops'[i].Free?)
    {
      if i < |lines| {
        assert Plain(lines[i], n);
      } else {
        AddedLine(lines, keys, i - |lines|, n);
        assert t'.lines[i] == FreeLine(keys[i - |lines|]);
      }
    }
    assert forall i :: 0 <= i < |lines| ==> ops'[i] == ops[i];
  }

  lemma AddedLine(lines: seq<string>, keys: seq<string>, k: nat, n: nat)
    requires AllPlain(lines, n) && Outstanding(lines, keys) && k < |keys|
    ensures Plain(FreeLine(keys[k]), n) && OpOf(FreeLine(keys[k])).Free?
  {
    var key := keys[k];
    assert key in keys;
    OutstandingIsPlain(lines, n, key);
    FreeLineIsPlain(key, n);
    FreeLineIs(key);
  }

  /** What the balancer puts out can be run, and gives back every block it gets. */
  lemma BalancedGivesBack(t: Trace, t': Trace, keys: seq<string>, n: nat)
    requires AllPlain(Kept(t.lines), n) && Accepted(Kept(t.lines)) && Balances(t, t', keys)
    ensures Runnable(OpsOf(t'.lines), n) && NoReuse(OpsOf(t'.lines)) && Live(OpsOf(t'.lines)) == {}
  {
    BalancedIsPlain(t, t', keys, n);
    BalancedIsBalanced(t, t', keys);
    AcceptedIsRunnable(t'.lines, n);
    LiveIsOutstanding(t'.lines, n);
    NoneLive(t'.lines, Live(OpsOf(t'.lines)));
  }

  lemma NoneLive(lines: seq<string>, live: set<int>)
    requires SameLive(lines, live) && Settled(lines)
    ensures live == {}
  {
    forall id | Numeral(id) ensures NatOf(id) !in live {
      assert Last(lines, id) == Absent;
    }
    assert forall x :: x !in live;
  }

  /** Balance a trace and replay it: when all requests are served, no page of it is left mapped, even
      before the memory is reset. */
  method Replay(t: Trace, d: Drivers.Driver) returns (r: Outcome<bool>)
    requires AllPlain(Kept(t.lines), d.blocks.Length)
    requires d.Apart() && d.mm !in d.mm.lib.pagemap.Repr && d.mm.lib.Valid()
    requires !d.mm.lib.mmapFailed
    modifies d`book, d.mm, d.mm.lib, d.mm.lib.pagemap.Repr, d.list, d.blocks, d.sizes
    ensures r.Aborted? <==> d.mm.lib.mmapFailed || !Accepted(Kept(t.lines))
    ensures r.Done? ==> (r.value <==> Positive(OpsOf(Kept(t.lines))))
    ensures r.Done? && r.value ==> d.mm.lib.pagemap.Pages == old(d.mm.lib.pagemap.Pages)
  {
    var t', keys := Balance(t);
    if t'.Aborted? { return Aborted; }
    BalancedIsPlain(t, t'.value, keys, d.blocks.Length);
    BalancedGivesBack(t, t'.value, keys, d.blocks.Length);
    d.Start();
    r := d.RunOps(OpsOf(t'.value.lines));
  }
}
