/** Intrusive doubly linked lists whose links are two adjacent words of raw memory.
    Both lists of the allocator have this shape: a free block keeps `prev` and `next`
    in its first two payload words, a page chunk in its first two header words. */
module LinkedWords {
  import opened Machine
  import opened Sequences

  /** The pointer stored for position `i`: null before the first and after the last node. */
  function At(s: seq<int>, i: int): int {
    if 0 <= i < |s| then s[i] else 0
  }

  /** Memory holds, from `head`, a null-terminated list with consistent back links whose
      nodes are exactly `s`. */
  ghost predicate DList(m: Memory, s: seq<int>, head: int) {
    && Distinct(s)
    && head == At(s, 0)
    && forall i {:trigger NodeAt(m, s, i)} :: 0 <= i < |s| ==> NodeAt(m, s, i)
  }

  ghost predicate NodeAt(m: Memory, s: seq<int>, i: nat)
    requires i < |s|
  {
    && s[i] > 0 && s[i] % 16 == 0
    && s[i] in m && s[i] + 8 in m
    && m[s[i]] == At(s, i - 1) && m[s[i] + 8] == At(s, i + 1)
  }

  ghost predicate IsLink(s: seq<int>, x: int) {
    x in s || x - 8 in s
  }

  /** Same addresses, and the same contents everywhere but in the links of `s`. */
  ghost predicate AgreeOffLinks(m: Memory, m': Memory, s: seq<int>) {
    && m'.Keys == m.Keys
    && forall x :: x in m && !IsLink(s, x) ==> m'[x] == m[x]
  }

  /** The three writes that put node `n` in front of the list starting at `head`. */
  function PushFront(m: Memory, head: int, n: int): Memory {
    var m1 := m[n := 0][n + 8 := head];
    if head != 0 then m1[head := n] else m1
  }

  /** The writes that make `prev` and `next` neighbours. */
  function Join(m: Memory, prev: int, next: int): Memory {
    var m1 := if prev != 0 then m[prev + 8 := next] else m;
    if next != 0 then m1[next := prev] else m1
  }

  /** The writes that make the neighbours of `n` bypass it. */
  function Unlink(m: Memory, n: int): Memory
    requires n in m && n + 8 in m
  {
    Join(m, m[n], m[n + 8])
  }

  lemma PushFrontList(m: Memory, s: seq<int>, head: int, n: int)
    requires DList(m, s, head)
    requires n > 0 && n % 16 == 0 && n in m && n + 8 in m && n !in s
    ensures DList(PushFront(m, head, n), [n] + s, n)
    ensures AgreeOffLinks(m, PushFront(m, head, n), [n] + s)
  {
    var m', t := PushFront(m, head, n), [n] + s;
    if head != 0 { assert NodeAt(m, s, 0); }
    forall i | 0 <= i < |t|
      ensures NodeAt(m', t, i)
    {
      if i > 0 {
        assert NodeAt(m, s, i - 1);
        if i > 1 { assert s[0] != s[i - 1]; }
      }
    }
    if head != 0 { assert NodeAt(m, s, 0) && t[1] == head; }
    assert t[0] == n;
    forall x | x in m && !IsLink(t, x)
      ensures m'[x] == m[x]
    {
      assert x != n && x - 8 != n;
    }
  }

  lemma NodeNeighbours(m: Memory, s: seq<int>, head: int, k: nat)
    requires DList(m, s, head) && k < |s|
    ensures s[k] > 0 && s[k] % 16 == 0
    ensures s[k] in m && s[k] + 8 in m && m[s[k]] == At(s, k - 1) && m[s[k] + 8] == At(s, k + 1)
    ensures At(s, k - 1) != 0 ==> At(s, k - 1) % 16 == 0 && At(s, k - 1) + 8 in m
    ensures At(s, k + 1) != 0 ==> At(s, k + 1) % 16 == 0 && At(s, k + 1) in m
  {
    assert NodeAt(m, s, k);
    if k > 0 { assert NodeAt(m, s, k - 1); }
    if k + 1 < |s| { assert NodeAt(m, s, k + 1); }
  }

  /** A walk along the list reads null exactly when it is past the last node. */
  lemma EndOfList(m: Memory, s: seq<int>, head: int, i: nat)
    requires DList(m, s, head) && i <= |s|
    ensures At(s, i) == 0 <==> i == |s|
  {
    assert i < |s| ==> NodeAt(m, s, i);
  }

  lemma UnlinkNode(m: Memory, s: seq<int>, head: int, k: nat, j: nat)
    requires DList(m, s, head) && k < |s| && j < |s| && j != k
    requires s[k] in m && s[k] + 8 in m
    ensures var m' := Unlink(m, s[k]);
      && s[j] in m' && s[j] + 8 in m'
      && m'[s[j]] == (if j == k + 1 then At(s, k - 1) else At(s, j - 1))
      && m'[s[j] + 8] == (if j + 1 == k then At(s, k + 1) else At(s, j + 1))
  {
    var p, q, m' := m[s[k]], m[s[k] + 8], Unlink(m, s[k]);
    NodeNeighbours(m, s, head, k);
    NodeNeighbours(m, s, head, j);
    assert m'[s[j]] == if q == s[j] then p else m[s[j]];
    assert m'[s[j] + 8] == if p == s[j] then q else m[s[j] + 8];
  }

  lemma UnlinkList(m: Memory, s: seq<int>, head: int, n: int)
    requires DList(m, s, head) && n in s
    ensures n in m && n + 8 in m
    ensures DList(Unlink(m, n), Without(s, n), if m[n] == 0 then m[n + 8] else head)
  {
    var k: int := IndexOf(s, n);
    WithoutMembers(s, n);
    NodeNeighbours(m, s, head, k);
    var m', t := Unlink(m, n), Without(s, n);
    forall i: int | 0 <= i < |t|
      ensures NodeAt(m', t, i)
    {
      var j := if i < k then i else i + 1;
      assert NodeAt(m, s, j);
      UnlinkNode(m, s, head, k, j);
      assert At(t, i - 1) == if j == k + 1 then At(s, k - 1) else At(s, j - 1);
      assert At(t, i + 1) == if j + 1 == k then At(s, k + 1) else At(s, j + 1);
    }
    if k > 0 { assert NodeAt(m, s, 0) && NodeAt(m, s, k - 1); }
  }

  lemma UnlinkFrame(m: Memory, s: seq<int>, head: int, n: int)
    requires DList(m, s, head) && n in s
    ensures n in m && n + 8 in m
    ensures AgreeOffLinks(m, Unlink(m, n), s)
    ensures Unlink(m, n)[n] == m[n] && Unlink(m, n)[n + 8] == m[n + 8]
  {
    NodeNeighbours(m, s, head, IndexOf(s, n));
  }

  /** A list whose link words are all unchanged is still that list. */
  lemma ListFrame(m: Memory, m': Memory, s: seq<int>, head: int)
    requires DList(m, s, head)
    requires forall x :: x in m && IsLink(s, x) ==> x in m' && m'[x] == m[x]
    ensures DList(m', s, head)
  {
    forall i | 0 <= i < |s|
      ensures NodeAt(m', s, i)
    {
      assert NodeAt(m, s, i);
      assert IsLink(s, s[i]) && IsLink(s, s[i] + 8);
    }
  }
}
