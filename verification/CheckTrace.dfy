/** The balancer of traces: it rejects an inconsistent trace, and appends the frees that a
    consistent one lacks. */
module CheckTraces {
  import opened Outcomes
  import opened Words

  /** A trace file: four header values and the request lines, without their line ends. */
  datatype Trace = Trace(heapSize: string, numBlocks: string, numOps: int, weight: string, lines: seq<string>)

  datatype Entry = Absent | Present(cmd: string)

  function Cmd(line: string): string { var w := WordsIn(line); if |w| > 0 then w[0] else "" }

  function Id(line: string): string { var w := WordsIn(line); if |w| > 1 then w[1] else "" }

  /** Lines without a command, or with the command `0`, are passed over. */
  predicate Skipped(line: string) { Cmd(line) == "" || Cmd(line) == "0" }

  function Kept(lines: seq<string>): seq<string> {
    if lines == [] then []
    else
      var before, line := Kept(lines[..|lines| - 1]), lines[|lines| - 1];
      if Skipped(line) then before else before + [line]
  }

  /** Exactly the lines without a word and those whose first word is `0` are passed over. */
  lemma KeptSnoc(lines: seq<string>, line: string)
    ensures Kept([]) == []
    ensures Kept(lines + [line]) ==
      if WordsIn(line) != [] && WordsIn(line)[0] != "0" then Kept(lines) + [line] else Kept(lines)
  {
    WordsHaveNoSpace(line);
    assert (lines + [line])[..|lines|] == lines;
  }

  // ---------------------------------------------------------------- what a trace means

  /** The last command for `id` that is not `r`; absent if there is none or if it is `f`. */
  function Last(lines: seq<string>, id: string): Entry {
    if lines == [] then Absent
    else
      var line := lines[|lines| - 1];
      if Id(line) != id || Cmd(line) == "r" then Last(lines[..|lines| - 1], id)
      else if Cmd(line) == "f" then Absent
      else Present(Cmd(line))
  }

  /** Line `i` is the last one for `id` whose command is not `r`. */
  ghost predicate LastAt(lines: seq<string>, id: string, i: int) {
    && 0 <= i < |lines| && Id(lines[i]) == id && Cmd(lines[i]) != "r"
    && forall j :: i < j < |lines| && Id(lines[j]) == id ==> Cmd(lines[j]) == "r"
  }

  lemma LastAtBefore(lines: seq<string>, id: string, n: nat, i: int)
    requires |lines| == n + 1
    ensures Id(lines[n]) != id || Cmd(lines[n]) == "r" ==> (LastAt(lines, id, i) <==> LastAt(lines[..n], id, i))
    ensures Id(lines[n]) == id && Cmd(lines[n]) != "r" ==> (LastAt(lines, id, i) <==> i == n)
  {
  }

  /** What is outstanding for `id` is the command of that line, unless it is `f` or missing. */
  lemma {:induction false} LastIs(lines: seq<string>, id: string)
    ensures Last(lines, id) == Absent <==> forall i :: LastAt(lines, id, i) ==> Cmd(lines[i]) == "f"
    ensures forall i :: LastAt(lines, id, i) && Cmd(lines[i]) != "f" ==> Last(lines, id) == Present(Cmd(lines[i]))
  {
    if lines != [] {
      var n := |lines| - 1;
      LastIs(lines[..n], id);
      forall i { LastAtBefore(lines, id, n, i); }
      if Id(lines[n]) != id || Cmd(lines[n]) == "r" {
        assert forall i :: LastAt(lines, id, i) ==> LastAt(lines[..n], id, i) && lines[..n][i] == lines[i];
      } else {
        assert LastAt(lines, id, n);
      }
    }
  }

  /** No block is allocated twice, and what is freed or reallocated is outstanding. */
  ghost predicate LineOk(lines: seq<string>, i: int)
    requires 0 <= i < |lines|
  {
    var last, cmd := Last(lines[..i], Id(lines[i])), Cmd(lines[i]);
    && (cmd == "a" ==> last != Present("a"))
    && (cmd == "r" || cmd == "f" ==> last != Absent)
  }

  ghost predicate Consistent(lines: seq<string>) {
    forall i {:trigger LineOk(lines, i)} :: 0 <= i < |lines| ==> LineOk(lines, i)
  }

  /** A consistent trace in which all that is outstanding was allocated. */
  ghost predicate Accepted(lines: seq<string>) {
    Consistent(lines) && forall id :: Last(lines, id) == Absent || Last(lines, id) == Present("a")
  }

  /** Nothing is outstanding. */
  ghost predicate Settled(lines: seq<string>) {
    forall id :: Last(lines, id) == Absent
  }

  // ---------------------------------------------------------------- reading

  /** The hash holds the outstanding ids. */
  ghost predicate Mirrors(hash: map<string, string>, lines: seq<string>) {
    forall id {:trigger EntryOf(hash, id)} :: EntryOf(hash, id) == Last(lines, id)
  }

  function EntryOf(hash: map<string, string>, id: string): Entry {
    if id in hash then Present(hash[id]) else Absent
  }

  lemma ConsistentSnoc(lines: seq<string>, line: string)
    requires Consistent(lines)
    ensures Consistent(lines + [line]) <==> LineOk(lines + [line], |lines|)
  {
    var lines' := lines + [line];
    forall i | 0 <= i < |lines| ensures LineOk(lines', i) {
      assert LineOk(lines, i);
      assert lines'[..i] == lines[..i];
    }
  }

  /** What has gone wrong stays wrong. */
  lemma {:induction false} ConsistentPrefix(lines: seq<string>, more: seq<string>)
    requires Consistent(lines + more)
    ensures Consistent(lines)
  {
    forall i | 0 <= i < |lines| ensures LineOk(lines, i) {
      assert LineOk(lines + more, i);
      assert (lines + more)[..i] == lines[..i];
    }
  }

  lemma {:induction false} KeptPrefix(lines: seq<string>, i: nat) returns (more: seq<string>)
    requires i <= |lines|
    ensures Kept(lines) == Kept(lines[..i]) + more
  {
    more := [];
    if i < |lines| {
      var before := lines[..|lines| - 1];
      assert before[..i] == lines[..i];
      more := KeptPrefix(before, i);
      if !Skipped(lines[|lines| - 1]) { more := more + [lines[|lines| - 1]]; }
    } else {
      assert lines[..i] == lines;
    }
  }

  lemma {:induction false} LastIsWord(lines: seq<string>, id: string)
    requires Last(lines, id) != Absent
    ensures NoSpace(id)
  {
    var line := lines[|lines| - 1];
    if Id(line) == id && Cmd(line) != "r" {
      WordsHaveNoSpace(line);
    } else {
      LastIsWord(lines[..|lines| - 1], id);
    }
  }

  lemma {:induction false} LastIsNotFree(lines: seq<string>, id: string)
    ensures Last(lines, id) != Present("f") && Last(lines, id) != Present("r")
  {
    if lines != [] { LastIsNotFree(lines[..|lines| - 1], id); }
  }

  /** One request line. Two of the tests of the source can never succeed. */
  method CheckLine(hash: map<string, string>, cmd: string, id: string, ghost lines: seq<string>, ghost line: string)
    returns (r: Outcome<map<string, string>>)
    requires Mirrors(hash, lines) && Consistent(lines) && cmd == Cmd(line) && id == Id(line)
    ensures r.Done? <==> Consistent(lines + [line])
    ensures r.Done? ==> Mirrors(r.value, lines + [line])
  {
    ConsistentSnoc(lines, line);
    assert (lines + [line])[..|lines|] == lines;
    assert EntryOf(hash, id) == Last(lines, id);
    LastIsNotFree(lines, id);
    if cmd == "r" {
      if id !in hash { return Aborted; }
      return Done(hash);
    }
    if cmd == "a" && id in hash && hash[id] == "a" { return Aborted; }
    if cmd == "a" && id in hash && hash[id] == "f" { assert false; return Aborted; }
    if cmd == "f" && id !in hash { return Aborted; }
    if cmd == "f" && (if id in hash then "" else "1") == "f" { assert false; return Aborted; }
    if cmd == "f" {
      Removed(hash, lines, line, id);
      return Done(hash - {id});
    }
    Stored(hash, lines, line, id);
    return Done(hash[id := cmd]);
  }

  lemma Removed(hash: map<string, string>, lines: seq<string>, line: string, id: string)
    requires Mirrors(hash, lines) && Cmd(line) == "f" && id == Id(line)
    ensures Mirrors(hash - {id}, lines + [line])
  {
    forall k ensures EntryOf(hash - {id}, k) == Last(lines + [line], k) {
      assert k != id ==> EntryOf(hash - {id}, k) == EntryOf(hash, k);
    }
  }

  lemma Stored(hash: map<string, string>, lines: seq<string>, line: string, id: string)
    requires Mirrors(hash, lines) && Cmd(line) != "f" && Cmd(line) != "r" && id == Id(line)
    ensures Mirrors(hash[id := Cmd(line)], lines + [line])
  {
    forall k ensures EntryOf(hash[id := Cmd(line)], k) == Last(lines + [line], k) {
      assert k != id ==> EntryOf(hash[id := Cmd(line)], k) == EntryOf(hash, k);
    }
  }

  /** Read all lines; the run dies exactly on an inconsistent trace. */
  method Read(input: seq<string>) returns (r: Outcome<map<string, string>>, lines: seq<string>)
    ensures r.Done? <==> Consistent(Kept(input))
    ensures r.Done? ==> lines == Kept(input) && Mirrors(r.value, lines)
  {
    var hash: map<string, string> := map[];
    lines := [];
    for n := 0 to |input|
      invariant lines == Kept(input[..n]) && Consistent(lines) && Mirrors(hash, lines)
    {
      var line := input[n];
      assert input[..n + 1][..n] == input[..n];
      if !Skipped(line) {
        var next := CheckLine(hash, Cmd(line), Id(line), lines, line);
        lines := lines + [line];
        if next.Aborted? {
          ghost var more := KeptPrefix(input, n + 1);
          if Consistent(Kept(input)) { ConsistentPrefix(lines, more); }
          return Aborted, lines;
        }
        hash := next.value;
      }
    }
    assert input[..|input|] == input;
    r := Done(hash);
  }

  // ---------------------------------------------------------------- writing

  function FreeLine(key: string): string { "f " + key }

  function FreeLines(keys: seq<string>): seq<string> {
    seq(|keys|, i requires 0 <= i < |keys| => FreeLine(keys[i]))
  }

  lemma FreeLinesSnoc(keys: seq<string>, k: nat)
    requires k < |keys|
    ensures FreeLines(keys[..k + 1]) == FreeLines(keys[..k]) + ["f " + keys[k]]
  {
  }

  /** `keys` lists the outstanding ids of `lines` in increasing order. */
  ghost predicate Outstanding(lines: seq<string>, keys: seq<string>) {
    Ascending(keys) && forall id :: id in keys <==> Last(lines, id) != Absent
  }

  /** `t'` is `t` without the skipped lines, with frees of `keys` appended and counted. */
  ghost predicate Balances(t: Trace, t': Trace, keys: seq<string>) {
    && Outstanding(Kept(t.lines), keys)
    && t' == Trace(t.heapSize, t.numBlocks, t.numOps + |keys|, t.weight, Kept(t.lines) + FreeLines(keys))
  }

  /** The run succeeds exactly on an accepted trace. */
  method Balance(t: Trace) returns (r: Outcome<Trace>, ghost keys: seq<string>)
    ensures r.Done? <==> Accepted(Kept(t.lines))
    ensures r.Done? ==> Balances(t, r.value, keys)
  {
    var hash, lines;
    hash, lines := Read(t.lines);
    keys := [];
    if hash.Aborted? { return Aborted, keys; }
    forall id ensures id in hash.value <==> Last(lines, id) != Absent {
      assert EntryOf(hash.value, id) == Last(lines, id);
    }
    var sorted := SortKeys(hash.value.Keys);
    var out := lines;
    keys := sorted;
    for k := 0 to |sorted|
      invariant out == lines + FreeLines(sorted[..k])
      invariant forall j :: 0 <= j < k ==> Last(lines, sorted[j]) == Present("a")
    {
      var key := sorted[k];
      assert key in sorted && EntryOf(hash.value, key) == Last(lines, key);
      LastIsNotFree(lines, key);
      if hash.value[key] != "a" && hash.value[key] != "r" { return Aborted, keys; }
      FreeLinesSnoc(sorted, k);
      out := out + ["f " + key];
    }
    assert sorted[..|sorted|] == sorted;
    assert |hash.value.Keys| == |hash.value|;
    r := Done(Trace(t.heapSize, t.numBlocks, t.numOps + |hash.value|, t.weight, out));
  }

  /** The summary: is the trace balanced as it stands? It does not look at the residue. */
  method Summarize(t: Trace) returns (r: Outcome<bool>)
    ensures r.Done? <==> Consistent(Kept(t.lines))
    ensures r.Done? ==> (r.value <==> Settled(Kept(t.lines)))
  {
    var hash, lines;
    hash, lines := Read(t.lines);
    if hash.Aborted? { return Aborted; }
    forall id ensures id in hash.value <==> Last(lines, id) != Absent {
      assert EntryOf(hash.value, id) == Last(lines, id);
    }
    var empty: map<string, string> := map[];
    assert (forall id :: id !in hash.value) ==> hash.value == empty;
    if hash.value == empty {
      forall id ensures Last(lines, id) == Absent { assert EntryOf(empty, id) == Last(lines, id); }
    }
    r := Done(hash.value == empty);
  }

  // ---------------------------------------------------------------- what balancing achieves

  lemma FreeLineIs(key: string)
    requires NoSpace(key)
    ensures Cmd(FreeLine(key)) == "f" && Id(FreeLine(key)) == key
  {
    FirstWord("f", [' '] + key);
    assert FreeLine(key) == "f" + ([' '] + key);
    if key != "" { LastWord(key); }
  }

  /** One free line for an outstanding id. */
  lemma FreeOne(lines: seq<string>, key: string)
    requires Consistent(lines) && Last(lines, key) != Absent
    ensures Consistent(lines + [FreeLine(key)])
    ensures forall id :: Last(lines + [FreeLine(key)], id) == if id == key then Absent else Last(lines, id)
  {
    LastIsWord(lines, key);
    FreeLineIs(key);
    assert (lines + [FreeLine(key)])[..|lines|] == lines;
    ConsistentSnoc(lines, FreeLine(key));
    forall id ensures Last(lines + [FreeLine(key)], id) == if id == key then Absent else Last(lines, id) {}
  }

  /** After the frees of the first `k` keys just these are gone. */
  ghost predicate TakenAway(lines: seq<string>, now: seq<string>, gone: seq<string>) {
    Consistent(now) && forall id :: Last(now, id) == if id in gone then Absent else Last(lines, id)
  }

  lemma TakeOneMore(lines: seq<string>, before: seq<string>, gone: seq<string>, key: string)
    requires TakenAway(lines, before, gone) && key !in gone && Last(lines, key) != Absent
    ensures TakenAway(lines, before + [FreeLine(key)], gone + [key])
  {
    FreeOne(before, key);
  }

  lemma OneLineMore(lines: seq<string>, keys: seq<string>, i: nat, k: nat)
    requires i < |keys| && k == i + 1
    ensures keys[..k] == keys[..i] + [keys[i]]
    ensures lines + FreeLines(keys[..k]) == lines + FreeLines(keys[..i]) + [FreeLine(keys[i])]
  {
  }

  lemma KeyIsNew(lines: seq<string>, keys: seq<string>, i: nat)
    requires Outstanding(lines, keys) && i < |keys|
    ensures Last(lines, keys[i]) != Absent && keys[i] !in keys[..i]
  {
    AscendingNew(keys, i);
    assert keys[i] in keys;
  }

  lemma {:induction false} FreesTakeAway(lines: seq<string>, keys: seq<string>, k: nat)
    requires Consistent(lines) && Outstanding(lines, keys) && k <= |keys|
    ensures TakenAway(lines, lines + FreeLines(keys[..k]), keys[..k])
  {
    if k == 0 {
      assert lines + FreeLines(keys[..k]) == lines;
    } else {
      FreesTakeAway(lines, keys, k - 1);
      KeyIsNew(lines, keys, k - 1);
      TakeOneMore(lines, lines + FreeLines(keys[..k - 1]), keys[..k - 1], keys[k - 1]);
      OneLineMore(lines, keys, k - 1, k);
    }
  }

  lemma {:induction false} KeptAll(lines: seq<string>)
    requires forall i :: 0 <= i < |lines| ==> !Skipped(lines[i])
    ensures Kept(lines) == lines
  {
    if lines != [] {
      var before, line := lines[..|lines| - 1], lines[|lines| - 1];
      KeptAll(before);
      assert lines == before + [line];
    }
  }

  lemma {:induction false} KeptAreNotSkipped(lines: seq<string>, i: nat)
    requires i < |Kept(lines)|
    ensures !Skipped(Kept(lines)[i])
  {
    var before := lines[..|lines| - 1];
    if i < |Kept(before)| { KeptAreNotSkipped(before, i); }
  }

  /** Balancing keeps the requests, in front; the result is consistent and leaves nothing
      outstanding. */
  lemma BalancedIsBalanced(t: Trace, t': Trace, keys: seq<string>)
    requires Accepted(Kept(t.lines)) && Balances(t, t', keys)
    ensures Kept(t'.lines) == t'.lines
    ensures Kept(t.lines) <= t'.lines
    ensures Accepted(t'.lines) && Settled(t'.lines)
    ensures t'.numOps - |t'.lines| == t.numOps - |Kept(t.lines)|
  {
    var lines := Kept(t.lines);
    assert keys[..|keys|] == keys;
    FreesTakeAway(lines, keys, |keys|);
    forall i | 0 <= i < |t'.lines| ensures !Skipped(t'.lines[i]) {
      if i < |lines| {
        KeptAreNotSkipped(t.lines, i);
      } else {
        var key := keys[i - |lines|];
        assert key in keys;
        LastIsWord(lines, key);
        FreeLineIs(key);
      }
    }
    KeptAll(t'.lines);
  }

  lemma NoneOutstanding(lines: seq<string>, keys: seq<string>)
    requires Settled(lines) && Outstanding(lines, keys)
    ensures keys == []
  {
    NoKeys(keys);
  }

  /** A second pass accepts the result and changes nothing. */
  lemma SecondPass(t: Trace, t': Trace, t'': Trace, keys: seq<string>, keys': seq<string>)
    requires Accepted(Kept(t.lines)) && Balances(t, t', keys)
    ensures Accepted(Kept(t'.lines))
    ensures Balances(t', t'', keys') ==> t'' == t'
  {
    BalancedIsBalanced(t, t', keys);
    if Balances(t', t'', keys') {
      NoneOutstanding(t'.lines, keys');
      assert t''.lines == t'.lines + [];
    }
  }

  /** A trace is left alone exactly if nothing is outstanding (and it has no skipped lines). */
  lemma LeftAlone(t: Trace, t': Trace, keys: seq<string>)
    requires Accepted(Kept(t.lines)) && Balances(t, t', keys)
    ensures t' == t <==> Kept(t.lines) == t.lines && Settled(t.lines)
  {
    BalancedIsBalanced(t, t', keys);
    if Kept(t.lines) == t.lines && Settled(t.lines) {
      NoneOutstanding(t.lines, keys);
      assert t'.lines == t.lines + [];
    }
  }

  // ---------------------------------------------------------------- what the output holds

  /** The line is a request to allocate, reallocate or free. */
  predicate IsRequest(line: string) {
    WordsIn(line) != [] && (WordsIn(line)[0] == "a" || WordsIn(line)[0] == "r" || WordsIn(line)[0] == "f")
  }

  /** The requests among the lines. */
  function Requests(lines: seq<string>): seq<string> {
    if lines == [] then []
    else
      var before, line := Requests(lines[..|lines| - 1]), lines[|lines| - 1];
      if IsRequest(line) then before + [line] else before
  }

  lemma RequestsSnoc(lines: seq<string>, line: string)
    ensures Requests(lines + [line]) == if IsRequest(line) then Requests(lines) + [line] else Requests(lines)
  {
    assert (lines + [line])[..|lines|] == lines;
  }

  lemma {:induction false} RequestsKept(lines: seq<string>)
    ensures Requests(Kept(lines)) == Requests(lines)
  {
    if lines != [] {
      var before, line := lines[..|lines| - 1], lines[|lines| - 1];
      RequestsKept(before);
      RequestsSnoc(Kept(before), line);
    }
  }

  lemma {:induction false} RequestsAdded(lines: seq<string>, keys: seq<string>, k: nat)
    requires k <= |keys| && forall i :: 0 <= i < |keys| ==> NoSpace(keys[i])
    ensures Requests(lines + FreeLines(keys[..k])) == Requests(lines) + FreeLines(keys[..k])
  {
    if k == 0 {
      assert lines + FreeLines(keys[..k]) == lines;
    } else {
      RequestsAdded(lines, keys, k - 1);
      OneLineMore(lines, keys, k - 1, k);
      FreeLineIs(keys[k - 1]);
      RequestsSnoc(lines + FreeLines(keys[..k - 1]), FreeLine(keys[k - 1]));
      OneLineMore(Requests(lines), keys, k - 1, k);
    }
  }

  /** The requests of the output are those of the input, in order, and then the frees. */
  lemma OutputRequests(t: Trace, t': Trace, keys: seq<string>)
    requires Balances(t, t', keys)
    ensures Requests(t'.lines) == Requests(t.lines) + FreeLines(keys)
    ensures forall k :: 0 <= k < |keys| ==> FreeLines(keys)[k] == "f " + keys[k]
  {
    var lines := Kept(t.lines);
    forall i | 0 <= i < |keys| ensures NoSpace(keys[i]) {
      assert keys[i] in keys;
      LastIsWord(lines, keys[i]);
    }
    RequestsKept(t.lines);
    RequestsAdded(lines, keys, |keys|);
    assert keys[..|keys|] == keys;
  }
}
