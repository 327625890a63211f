/** What answering and freeing do to the layout, said once more: in numbers, and without the
    operations on layouts that the allocator is proved against. */
module HeapReference {
  import opened Sequences
  import opened Layouts
  import opened HeapImage
  import opened MallocSpec

  // ---------------------------------------------------------------- mm_malloc

  /** Block `h` of chunk `c`, with `s` bytes, is used for `t` of them: cut exactly if 64 bytes or
      more are left, and the rest then becomes the first listed block. Nothing else changes. */
  ghost predicate Cut(blocks: Blocks, L': Layout, rest: seq<int>, h: int, s: int, t: int, c: int) {
    && h in L'.blocks && L'.blocks[h] == Block(if s - t >= 64 then t else s, true, c)
    && (s - t >= 64 ==> h + t in L'.blocks && L'.blocks[h + t] == Block(s - t, false, c))
    && L'.free == (if s - t >= 64 then [h + t + 16] + rest else rest)
    && KeptBut(blocks, L'.blocks, h, if s - t >= 64 then h + t else h)
  }

  ghost predicate KeptBut(blocks: Blocks, blocks': Blocks, x: int, y: int) {
    forall a {:trigger KeptAt(blocks, blocks', a)} :: a != x && a != y ==> KeptAt(blocks, blocks', a)
  }

  /** The block at `a`, if any, is still what it was. */
  ghost predicate KeptAt(blocks: Blocks, blocks': Blocks, a: int) {
    if a in blocks then a in blocks' && blocks'[a] == blocks[a] else a !in blocks'
  }

  /** The block listed at `i` is the first of at least `t` bytes, and is used for `t`. */
  ghost predicate ReusedAt(L: Layout, L': Layout, t: int, i: int) {
    && 0 <= i < |L.free| && L.free[i] - 16 in L.blocks && L.blocks[L.free[i] - 16].size >= t
    && (forall j :: 0 <= j < i ==> L.free[j] - 16 in L.blocks && L.blocks[L.free[j] - 16].size < t)
    && L'.chunks == L.chunks && L'.order == L.order
    && var b := L.blocks[L.free[i] - 16];
      Cut(L.blocks, L', L.free[..i] + L.free[i + 1..], L.free[i] - 16, b.size, t, b.chunk)
  }

  /** No listed block has `t` bytes; the least number of pages that will do is mapped at `c`, apart
      from all others, and all behind its 32 byte header is used for `t`. */
  ghost predicate MappedAt(L: Layout, L': Layout, t: int, c: int, sz: int) {
    && (forall a :: a in L.blocks && !L.blocks[a].alloc ==> L.blocks[a].size < t)
    && sz % 4096 == 0 && t + 32 <= sz < t + 32 + 4096
    && c > 0 && c % 4096 == 0 && c + sz <= 0x1_0000_0000_0000_0000
    && (forall d :: d in L.chunks ==> d + L.chunks[d] <= c || c + sz <= d)
    && L'.chunks == L.chunks[c := sz] && L'.order == [c] + L.order
    && Cut(L.blocks, L', L.free, c + 32, sz - 32, t, c)
  }

  /** A request for `n` bytes is answered by `bp`. */
  ghost predicate Answered(L: Layout, L': Layout, n: int, bp: int) {
    var t := 16 + (n + 15) / 16 * 16 + 16;
    || (exists i :: ReusedAt(L, L', t, i) && bp == L.free[i])
    || (exists c, sz :: MappedAt(L, L', t, c, sz) && bp == c + 32 + 16)
  }

  lemma CarveCuts(L: Layout, h: int, t: int, s: int)
    requires Tiling(L.chunks, L.blocks) && h in L.blocks && !L.blocks[h].alloc
    requires t % 16 == 0 && 48 <= t <= s == L.blocks[h].size
    ensures var C := Carve(L, h, t);
      C.chunks == L.chunks && C.order == L.order && Cut(L.blocks, C, L.free, h, s, t, L.blocks[h].chunk)
  {
    if s - t >= 64 { SplitTiling(L.chunks, L.blocks, h, t); }
  }

  /** The list without the element at `i`, which is `x`. */
  lemma WithoutAt(s: seq<int>, x: int, i: int)
    requires Distinct(s) && 0 <= i < |s| && s[i] == x
    ensures Without(s, x) == s[..i] + s[i + 1..]
  {
  }

  lemma ReuseIs(L: Layout, L': Layout, t: int, bp: int)
    requires HeapOk(L) && t % 16 == 0 && t >= 48
    requires bp == FirstFit(L.blocks, L.free, t) && bp != 0 && bp - 16 in L.blocks && L' == Reuse(L, bp, t)
    ensures exists i :: ReusedAt(L, L', t, i) && bp == L.free[i]
  {
    NoNullNode(L);
    FirstFitIsFirst(L.blocks, L.free, t);
    var i := IndexOf(L.free, bp);
    WithoutAt(L.free, bp, i);
    CarveCuts(L.(free := Without(L.free, bp)), bp - 16, t, L.blocks[bp - 16].size);
    forall j | 0 <= j < i ensures L.free[j] - 16 in L.blocks && L.blocks[L.free[j] - 16].size < t {
      assert L.free[j] in L.free && !Fits(L.blocks, L.free[j], t);
    }
    assert ReusedAt(L, L', t, i);
  }

  lemma ExtendIs(L: Layout, L': Layout, t: int, c: int, sz: int)
    requires HeapOk(L) && t % 16 == 0 && t >= 48
    requires FirstFit(L.blocks, L.free, t) == 0
    requires FreshRegion(L.chunks, c, sz) && t + 32 <= sz < t + 32 + 4096 && L' == Extend(L, c, sz, t)
    ensures MappedAt(L, L', t, c, sz)
  {
    NoNullNode(L);
    FirstFitIsFirst(L.blocks, L.free, t);
    forall a | a in L.blocks && !L.blocks[a].alloc ensures L.blocks[a].size < t {
      InsideChunk(L.chunks, L.blocks, a);
      assert a + HDRSIZE in L.free && !Fits(L.blocks, a + HDRSIZE, t);
    }
    ExtendPending(L, c, sz);
    AddChunkTiling(L.chunks, L.blocks, c, sz);
    CarveCuts(WithChunk(L, c, sz), c + 32, t, sz - 32);
    assert KeptBut(L.blocks, L'.blocks, c + 32, if sz - 32 - t >= 64 then c + 32 + t else c + 32) by {
      forall a | a != c + 32 && (sz - 32 - t >= 64 ==> a != c + 32 + t) ensures KeptAt(L.blocks, L'.blocks, a) {
        assert KeptAt(WithChunk(L, c, sz).blocks, L'.blocks, a);
      }
    }
  }

  lemma MallocAnswers(L: Layout, L': Layout, n: int, bp: int)
    requires HeapOk(L) && n > 0 && Mallocd(L, L', n, bp)
    ensures Answered(L, L', n, bp)
  {
    AlignOk(n);
    MapSizeOk(n);
    if FirstFit(L.blocks, L.free, TotalSize(n)) != 0 {
      ReuseIs(L, L', TotalSize(n), bp);
    } else {
      ExtendIs(L, L', TotalSize(n), bp - 48, MapSize(n));
    }
  }

  lemma CutUnique(blocks: Blocks, L1: Layout, L2: Layout, rest: seq<int>, h: int, s: int, t: int, c: int)
    requires Cut(blocks, L1, rest, h, s, t, c) && Cut(blocks, L2, rest, h, s, t, c)
    ensures L1.blocks == L2.blocks && L1.free == L2.free
  {
    forall a ensures a in L1.blocks <==> a in L2.blocks {
      assert a != h && !(s - t >= 64 && a == h + t) ==> KeptAt(blocks, L1.blocks, a) && KeptAt(blocks, L2.blocks, a);
    }
    forall a | a in L1.blocks && a in L2.blocks ensures L1.blocks[a] == L2.blocks[a] {
      assert a != h && !(s - t >= 64 && a == h + t) ==> KeptAt(blocks, L1.blocks, a) && KeptAt(blocks, L2.blocks, a);
    }
  }

  lemma {:induction false} FirstFitAt(blocks: Blocks, free: seq<int>, t: int, i: int)
    requires 0 <= i < |free| && Fits(blocks, free[i], t) && forall j :: 0 <= j < i ==> !Fits(blocks, free[j], t)
    ensures FirstFit(blocks, free, t) == free[i]
  {
    if i > 0 { FirstFitAt(blocks, free[1..], t, i - 1); }
  }

  lemma ReuseOnly(L: Layout, L': Layout, t: int, i: int, x: int)
    requires HeapOk(L) && t % 16 == 0 && t >= 48 && ReusedAt(L, L', t, i) && x == L.free[i]
    ensures FirstFit(L.blocks, L.free, t) == x != 0 && x - 16 in L.blocks && L' == Reuse(L, x, t)
  {
    NoNullNode(L);
    assert x in L.free;
    FirstFitAt(L.blocks, L.free, t, i);
    WithoutAt(L.free, x, i);
    var b := L.blocks[x - 16];
    CarveCuts(L.(free := Without(L.free, x)), x - 16, t, b.size);
    CutUnique(L.blocks, L', Reuse(L, x, t), L.free[..i] + L.free[i + 1..], x - 16, b.size, t, b.chunk);
  }

  lemma ExtendOnly(L: Layout, L': Layout, t: int, c: int, sz: int)
    requires HeapOk(L) && t % 16 == 0 && t >= 48 && MappedAt(L, L', t, c, sz)
    ensures FirstFit(L.blocks, L.free, t) == 0 && FreshRegion(L.chunks, c, sz) && L' == Extend(L, c, sz, t)
  {
    NoNullNode(L);
    FirstFitIsFirst(L.blocks, L.free, t);
    ExtendIs(L, Extend(L, c, sz, t), t, c, sz);
    CutUnique(L.blocks, L', Extend(L, c, sz, t), L.free, c + 32, sz - 32, t, c);
  }

  lemma LeastPages(t: int, sz: int)
    requires sz % 4096 == 0 && t + 32 <= sz < t + 32 + 4096
    ensures sz == (t + 32 + 4095) / 4096 * 4096
  {
  }

  /** The two definitions of answering a request are one. */
  lemma MallocIs(L: Layout, L': Layout, n: int, bp: int)
    requires HeapOk(L) && n > 0
    ensures Mallocd(L, L', n, bp) <==> Answered(L, L', n, bp)
  {
    AlignOk(n);
    if Mallocd(L, L', n, bp) { MallocAnswers(L, L', n, bp); }
    if Answered(L, L', n, bp) {
      if i :| ReusedAt(L, L', TotalSize(n), i) && bp == L.free[i] {
        ReuseOnly(L, L', TotalSize(n), i, bp);
      } else {
        var c, sz :| MappedAt(L, L', TotalSize(n), c, sz) && bp == c + 32 + 16;
        ExtendOnly(L, L', TotalSize(n), c, sz);
        LeastPages(TotalSize(n), sz);
      }
    }
  }

  /** Of the `s` bytes at `h`, `t` were used: at least 64 bytes that were left are the free block
      behind, and what leaves fewer is used whole. */
  ghost predicate CutAt64(L': Layout, rest: seq<int>, h: int, s: int, t: int) {
    && h in L'.blocks && L'.blocks[h].alloc && L'.blocks[h].size == (if s - t >= 64 then t else s)
    && (h + t in L'.blocks && !L'.blocks[h + t].alloc <==> s - t >= 64)
    && (s - t >= 64 ==> L'.blocks[h + t].size == s - t)
    && L'.free == (if s - t >= 64 then [h + t + 16] + rest else rest)
  }

  lemma CutEnds(L: Layout, L': Layout, rest: seq<int>, h: int, s: int, t: int, c: int)
    requires Tiling(L'.chunks, L'.blocks) && Cut(L.blocks, L', rest, h, s, t, c) && 0 < t <= s
    requires h + s in L.blocks ==> L.blocks[h + s].alloc
    ensures CutAt64(L', rest, h, s, t)
  {
    if s - t < 64 && h + t in L'.blocks {
      assert BlocksApart(L'.blocks, h, h + t) && BlockOk(L'.chunks, L'.blocks, h + t);
      assert KeptAt(L.blocks, L'.blocks, h + t);
    }
  }

  lemma ReuseCuts(L: Layout, L': Layout, t: int, i: int, x: int, h: int, rest: seq<int>)
    requires NodesFree(L.blocks, L.free) && Coalesced(L.blocks) && Tiling(L'.chunks, L'.blocks) && t > 0
    requires ReusedAt(L, L', t, i) && x == L.free[i] && h == x - 16 && rest == L.free[..i] + L.free[i + 1..]
    ensures CutAt64(L', rest, h, L.blocks[h].size, t)
  {
    assert x in L.free;
    assert NotBothFree(L.blocks, h);
    CutEnds(L, L', rest, h, L.blocks[h].size, t, L.blocks[h].chunk);
  }

  lemma ExtendCuts(L: Layout, L': Layout, t: int, c: int, sz: int, h: int)
    requires HeapOk(L) && Tiling(L'.chunks, L'.blocks) && t > 0 && MappedAt(L, L', t, c, sz) && h == c + 32
    ensures CutAt64(L', L.free, h, sz - 32, t) && h !in L.blocks
  {
    AddChunkTiling(L.chunks, L.blocks, c, sz);
    NoBlockAtChunkEnd(L.chunks[c := sz], AddChunk(L.blocks, c, sz), c);
    CutEnds(L, L', L.free, h, sz - 32, t, c);
  }

  lemma AnsweredCuts(L: Layout, L': Layout, bp: int, h: int, t: int)
    requires HeapOk(L) && Tiling(L'.chunks, L'.blocks) && t > 0 && h == bp - 16
    requires (exists i :: ReusedAt(L, L', t, i) && bp == L.free[i])
      || (exists c, sz :: MappedAt(L, L', t, c, sz) && bp == c + 32 + 16)
    ensures h in L.blocks ==> CutAt64(L', Without(L.free, bp), h, L.blocks[h].size, t)
    ensures h !in L.blocks ==> CutAt64(L', L.free, h, (t + 32 + 4095) / 4096 * 4096 - 32, t)
  {
    if i :| ReusedAt(L, L', t, i) && bp == L.free[i] {
      WithoutAt(L.free, bp, i);
      ReuseCuts(L, L', t, i, bp, h, L.free[..i] + L.free[i + 1..]);
    } else {
      var c, sz :| MappedAt(L, L', t, c, sz) && bp == c + 32 + 16;
      ExtendCuts(L, L', t, c, sz, h);
      LeastPages(t, sz);
    }
  }

  /** A request for `n` bytes takes `t` with header and footer. The block it is answered from, a
      listed one or all that the least number of pages has behind their header, is cut exactly if at
      least 64 bytes are left. */
  lemma MallocCuts(L: Layout, L': Layout, n: int, bp: int, h: int, t: int)
    requires HeapOk(L) && n > 0 && Mallocd(L, L', n, bp) && h == bp - 16 && t == 16 + (n + 15) / 16 * 16 + 16
    ensures h in L.blocks ==> CutAt64(L', Without(L.free, bp), h, L.blocks[h].size, t)
    ensures h !in L.blocks ==> CutAt64(L', L.free, h, (t + 32 + 4095) / 4096 * 4096 - 32, t)
  {
    MallocKeeps(L, L', n, bp);
    MallocAnswers(L, L', n, bp);
    AnsweredCuts(L, L', bp, h, t);
  }

  // ---------------------------------------------------------------- mm_free

  /** The elements of `s` outside of [lo, hi), in order. */
  function Outside(s: seq<int>, lo: int, hi: int): seq<int> {
    if s == [] then [] else (if lo <= s[0] < hi then [] else [s[0]]) + Outside(s[1..], lo, hi)
  }

  /** From `p` to `e` reach the block `h` and the free blocks that touch it. */
  ghost predicate Around(blocks: Blocks, h: int, p: int, e: int)
    requires h in blocks
  {
    && (if p == h then forall a :: a in blocks && a + blocks[a].size == h ==> blocks[a].alloc
        else p in blocks && !blocks[p].alloc && p + blocks[p].size == h)
    && var n := h + blocks[h].size;
      e == if n in blocks && !blocks[n].alloc then n + blocks[n].size else n
  }

  ghost predicate ClearedAt(blocks: Blocks, blocks': Blocks, p: int, e: int, a: int) {
    if p <= a < e then a !in blocks' else KeptAt(blocks, blocks', a)
  }

  /** All blocks in [p, e) are gone, but perhaps `x`; the others are kept. */
  ghost predicate ClearedBut(blocks: Blocks, blocks': Blocks, p: int, e: int, x: int) {
    forall a {:trigger ClearedAt(blocks, blocks', p, e, a)} :: a != x ==> ClearedAt(blocks, blocks', p, e, a)
  }

  /** Block `h` is given back. If it and the free blocks that touch it are all of its chunk behind
      the 32 byte header, the chunk goes; otherwise they are one free block, the first listed. */
  ghost predicate FreedTo(L: Layout, L': Layout, h: int, p: int, e: int) {
    && h in L.blocks && Around(L.blocks, h, p, e) && ClearedBut(L.blocks, L'.blocks, p, e, p)
    && L.blocks[h].chunk in L.chunks
    && var c := L.blocks[h].chunk;
      if p == c + 32 && e == c + L.chunks[c] then
        && L'.chunks == L.chunks - {c} && L'.order == Outside(L.order, c, c + 1)
        && L'.free == Outside(L.free, p, e) && p !in L'.blocks
      else
        && L'.chunks == L.chunks && L'.order == L.order
        && L'.free == [p + 16] + Outside(L.free, p, e)
        && p in L'.blocks && L'.blocks[p] == Block(e - p, false, c)
  }

  ghost predicate Freed(L: Layout, L': Layout, h: int) {
    exists p, e :: FreedTo(L, L', h, p, e)
  }

  lemma {:induction false} OutsideParts(s: seq<int>, t: seq<int>, lo: int, hi: int)
    ensures Outside(s + t, lo, hi) == Outside(s, lo, hi) + Outside(t, lo, hi)
  {
    if s == [] {
      assert s + t == t;
    } else {
      var st, first := s + t, if lo <= s[0] < hi then [] else [s[0]];
      OutsideParts(s[1..], t, lo, hi);
      assert st[0] == s[0] && st[1..] == s[1..] + t;
      Associates(first, Outside(s[1..], lo, hi), Outside(t, lo, hi));
    }
  }

  lemma Associates(a: seq<int>, b: seq<int>, c: seq<int>)
    ensures a + (b + c) == a + b + c
  {
  }

  lemma {:induction false} OutsideAll(s: seq<int>, lo: int, hi: int)
    requires forall i :: 0 <= i < |s| ==> !(lo <= s[i] < hi)
    ensures Outside(s, lo, hi) == s
  {
    if s != [] { OutsideAll(s[1..], lo, hi); }
  }

  lemma OutsideWithout(s: seq<int>, x: int, lo: int, hi: int)
    requires lo <= x < hi
    ensures Outside(Without(s, x), lo, hi) == Outside(s, lo, hi)
  {
    if x in s {
      var i := IndexOf(s, x);
      OutsideParts(s[..i], s[i + 1..], lo, hi);
      OutsideParts(s[..i], s[i..], lo, hi);
      assert s == s[..i] + s[i..] && s[i..][1..] == s[i + 1..];
    }
  }

  lemma OutsideOne(s: seq<int>, x: int)
    requires Distinct(s)
    ensures Outside(s, x, x + 1) == Without(s, x)
  {
    OutsideWithout(s, x, x, x + 1);
    WithoutMembers(s, x);
    var w := Without(s, x);
    forall i | 0 <= i < |w| ensures w[i] != x { assert w[i] in w; }
    OutsideAll(w, x, x + 1);
  }

  /** No listed block lies inside a free block that is on no list. */
  lemma NoneInside(L: Layout, p: int, e: int, idle: int)
    requires Pending(L, p, idle) && e == p + L.blocks[p].size
    ensures Outside(L.free, p, e) == L.free
  {
    forall i | 0 <= i < |L.free| ensures !(p <= L.free[i] < e) {
      var x := L.free[i];
      assert x in L.free;
      assert BlocksApart(L.blocks, p, x - 16) && BlocksApart(L.blocks, x - 16, p);
      assert BlockOk(L.chunks, L.blocks, x - 16);
    }
    OutsideAll(L.free, p, e);
  }

  lemma MergeClears(chunks: Chunks, blocks: Blocks, a: int, n: int, e: int)
    requires Tiling(chunks, blocks) && FreeAt(blocks, a) && FreeAt(blocks, n)
    requires Adjacent(blocks, a, n) && e == n + blocks[n].size
    ensures Merge(blocks, a, n)[a] == Block(e - a, false, blocks[a].chunk) && a < n < e
    ensures ClearedBut(blocks, Merge(blocks, a, n), a, e, a)
  {
    InsideChunk(chunks, blocks, a);
    InsideChunk(chunks, blocks, n);
    forall x | x != a ensures ClearedAt(blocks, Merge(blocks, a, n), a, e, x) {
      if x in blocks { assert BlocksApart(blocks, a, x) && BlocksApart(blocks, n, x); }
    }
  }

  lemma NothingCleared(chunks: Chunks, blocks: Blocks, a: int, e: int)
    requires Tiling(chunks, blocks) && a in blocks && e == a + blocks[a].size
    ensures ClearedBut(blocks, blocks, a, e, a) && a < e
  {
    InsideChunk(chunks, blocks, a);
    forall x | x != a ensures ClearedAt(blocks, blocks, a, e, x) {
      if x in blocks { assert BlocksApart(blocks, a, x); }
    }
  }

  lemma ClearedTwice(blocks: Blocks, blocks1: Blocks, blocks2: Blocks, p: int, n: int, e: int)
    requires ClearedBut(blocks, blocks1, p, n, p) && ClearedBut(blocks1, blocks2, p, e, p) && n <= e
    ensures ClearedBut(blocks, blocks2, p, e, p)
  {
    forall a | a != p ensures ClearedAt(blocks, blocks2, p, e, a) {
      assert ClearedAt(blocks, blocks1, p, n, a) && ClearedAt(blocks1, blocks2, p, e, a);
    }
  }

  lemma JoinPrevAround(L: Layout, L1: Layout, h: int, p: int, n: int, idle: int)
    requires Pending(L, h, idle) && CoalescedBut(L.blocks, h) && idle == L.blocks[h].chunk
    requires p == Start(L.blocks, h) && n == h + L.blocks[h].size && L1 == JoinPrev(L, h)
    ensures p in L1.blocks && L1.blocks[p] == Block(n - p, false, idle) && p <= h < n
    ensures ClearedBut(L.blocks, L1.blocks, p, n, p)
  {
    JoinPrevResult(L, L1, h, p, n, idle);
    InsideChunk(L.chunks, L.blocks, h);
    if FreeAt(L.blocks, PrevBlock(L.blocks, h)) {
      MergeClears(L.chunks, L.blocks, p, h, n);
    } else {
      NothingCleared(L.chunks, L.blocks, h, n);
    }
  }

  /** Both merges make one block of all that is around `h`. */
  lemma JoinedAround(L: Layout, L1: Layout, L2: Layout, h: int, p: int, n: int, e: int, idle: int)
    requires Pending(L, h, idle) && CoalescedBut(L.blocks, h) && idle == L.blocks[h].chunk
    requires p == Start(L.blocks, h) && n == h + L.blocks[h].size
    requires L1 == JoinPrev(L, h) && L2 == JoinNext(L1, p, n)
    requires e == if FreeAt(L.blocks, n) then n + L.blocks[n].size else n
    ensures p in L2.blocks && L2.blocks[p] == Block(e - p, false, idle) && p <= h < n <= e
    ensures ClearedBut(L.blocks, L2.blocks, p, e, p)
  {
    JoinPrevResult(L, L1, h, p, n, idle);
    JoinPrevAround(L, L1, h, p, n, idle);
    assert ClearedAt(L.blocks, L1.blocks, p, n, n);
    if FreeAt(L.blocks, n) {
      MergeClears(L1.chunks, L1.blocks, p, n, e);
    } else {
      NothingCleared(L1.chunks, L1.blocks, p, e);
    }
    ClearedTwice(L.blocks, L1.blocks, L2.blocks, p, n, e);
  }

  /** The merges take exactly the listed blocks around `h` off the list. */
  lemma JoinedList(L: Layout, L1: Layout, L2: Layout, h: int, p: int, n: int, e: int, x: int, y: int, idle: int)
    requires h in L.blocks && L1 == JoinPrev(L, h) && p == Start(L.blocks, h) && L2 == JoinNext(L1, p, n)
    requires x == p + 16 && y == n + 16 && p <= x < e && (FreeAt(L1.blocks, n) ==> p <= y < e)
    requires Pending(L2, p, idle) && e == p + L2.blocks[p].size
    ensures L2.free == Outside(L.free, p, e)
  {
    assert Outside(L1.free, p, e) == Outside(L.free, p, e) by { OutsideWithout(L.free, x, p, e); }
    assert Outside(L2.free, p, e) == Outside(L1.free, p, e) by {
      if FreeAt(L1.blocks, n) { OutsideWithout(L1.free, y, p, e); }
    }
    NoneInside(L2, p, e, idle);
  }

  /** What both merges do. */
  lemma Joins(L: Layout, L2: Layout, h: int, p: int, n: int, e: int, idle: int)
    requires Pending(L, h, idle) && CoalescedBut(L.blocks, h) && idle == L.blocks[h].chunk
    requires p == Start(L.blocks, h) && n == h + L.blocks[h].size
    requires L2 == JoinNext(JoinPrev(L, h), p, n)
    requires e == if FreeAt(L.blocks, n) then n + L.blocks[n].size else n
    ensures p in L2.blocks && L2.blocks[p] == Block(e - p, false, idle) && p <= h < e
    ensures ClearedBut(L.blocks, L2.blocks, p, e, p) && L2.free == Outside(L.free, p, e)
    ensures Pending(L2, p, idle) && Coalesced(L2.blocks)
    ensures Coalesce(L, h) == L2.(free := [p + 16] + L2.free)
  {
    var L1 := JoinPrev(L, h);
    Joining(L, L1, L2, h, p, n, idle);
    JoinedAround(L, L1, L2, h, p, n, e, idle);
    JoinPrevResult(L, L1, h, p, n, idle);
    InsideChunk(L2.chunks, L2.blocks, p);
    if FreeAt(L.blocks, n) { InsideChunk(L.chunks, L.blocks, n); }
    JoinedList(L, L1, L2, h, p, n, e, p + 16, n + 16, idle);
  }

  /** The block enters the list, or its chunk goes. */
  lemma DropFrees(L: Layout, L': Layout, p: int, e: int, c: int)
    requires Pending(L, p, c) && Coalesced(L.blocks) && c == L.blocks[p].chunk && e == p + L.blocks[p].size
    requires Distinct(L.order) && L' == DropIfIdle(L.(free := [p + 16] + L.free), c)
    ensures c in L.chunks
    ensures if p == c + 32 && e == c + L.chunks[c] then
        && L'.chunks == L.chunks - {c} && L'.order == Outside(L.order, c, c + 1) && L'.free == L.free
        && L'.blocks == L.blocks - {p}
      else L' == L.(free := [p + 16] + L.free)
  {
    var L1 := L.(free := [p + 16] + L.free);
    PushJoined(L, p, c);
    DropKeeps(L1, c);
    InsideChunk(L.chunks, L.blocks, p);
    assert BlocksApart(L.blocks, c + 32, p);
    OutsideOne(L.order, c);
  }

  lemma AroundIs(L: Layout, L0: Layout, h: int, p: int, e: int)
    requires Tiling(L.chunks, L.blocks) && h in L.blocks && L0 == L.(blocks := Flag(L.blocks, h, false))
    requires Tiling(L0.chunks, L0.blocks)
    requires p == Start(L0.blocks, h)
    requires var n := h + L.blocks[h].size; e == if FreeAt(L0.blocks, n) then n + L0.blocks[n].size else n
    ensures Around(L.blocks, h, p, e)
  {
    InsideChunk(L.chunks, L.blocks, h);
    if FreeAt(L0.blocks, PrevBlock(L0.blocks, h)) {
      NullIsNoBlock(L0);
      PrevIsBlock(L0.chunks, L0.blocks, h);
      InsideChunk(L0.chunks, L0.blocks, p);
    } else {
      forall a | a in L.blocks && a + L.blocks[a].size == h ensures L.blocks[a].alloc {
        assert IsPrev(L0.blocks, h, a);
        PrevUnique(L0.chunks, L0.blocks, h, a);
      }
    }
  }

  /** What is cleared of the block marked free is cleared of the block in use. */
  lemma FlagCleared(blocks: Blocks, blocks': Blocks, h: int, p: int, e: int)
    requires h in blocks && p <= h < e && ClearedBut(Flag(blocks, h, false), blocks', p, e, p)
    ensures ClearedBut(blocks, blocks', p, e, p) && ClearedBut(blocks, blocks' - {p}, p, e, p)
  {
    forall a | a != p
      ensures ClearedAt(blocks, blocks', p, e, a) && ClearedAt(blocks, blocks' - {p}, p, e, a)
    {
      assert ClearedAt(Flag(blocks, h, false), blocks', p, e, a);
    }
  }

  lemma DropAssembles(L: Layout, L2: Layout, L': Layout, h: int, p: int, e: int, c: int)
    requires h in L.blocks && Around(L.blocks, h, p, e) && p <= h < e && c == L.blocks[h].chunk && Distinct(L.order)
    requires L2.chunks == L.chunks && L2.order == L.order && L2.free == Outside(L.free, p, e)
    requires p in L2.blocks && L2.blocks[p] == Block(e - p, false, c)
    requires ClearedBut(Flag(L.blocks, h, false), L2.blocks, p, e, p)
    requires Pending(L2, p, c) && Coalesced(L2.blocks)
    requires L' == DropIfIdle(L2.(free := [p + 16] + L2.free), c)
    ensures FreedTo(L, L', h, p, e)
  {
    DropFrees(L2, L', p, e, c);
    FlagCleared(L.blocks, L2.blocks, h, p, e);
  }

  /** Marking and merging give `L2`; listing and unmapping are still to come. */
  lemma ReleaseSteps(L: Layout, h: int, c: int) returns (L2: Layout, p: int, e: int)
    requires HeapOk(L) && h in L.blocks && L.blocks[h].alloc && c == L.blocks[h].chunk
    ensures Pending(L2, p, c) && Coalesced(L2.blocks) && p <= h < e && Around(L.blocks, h, p, e)
    ensures L2.chunks == L.chunks && L2.order == L.order && L2.free == Outside(L.free, p, e)
    ensures p in L2.blocks && L2.blocks[p] == Block(e - p, false, c)
    ensures ClearedBut(Flag(L.blocks, h, false), L2.blocks, p, e, p)
    ensures Release(L, h) == DropIfIdle(L2.(free := [p + 16] + L2.free), c)
  {
    var L0, n := L.(blocks := Flag(L.blocks, h, false)), h + L.blocks[h].size;
    FlagPending(L, h);
    p, e := Start(L0.blocks, h), if FreeAt(L0.blocks, n) then n + L0.blocks[n].size else n;
    L2 := JoinNext(JoinPrev(L0, h), p, n);
    AroundIs(L, L0, h, p, e);
    Joins(L0, L2, h, p, n, e, c);
  }

  /** Giving back has only one result. */
  lemma FreedUnique(L: Layout, L1: Layout, L2: Layout, h: int, p: int, e: int, q: int, f: int)
    requires Tiling(L.chunks, L.blocks) && FreedTo(L, L1, h, p, e) && FreedTo(L, L2, h, q, f)
    ensures L1 == L2
  {
    if p != h { assert IsPrev(L.blocks, h, p); PrevUnique(L.chunks, L.blocks, h, p); }
    if q != h { assert IsPrev(L.blocks, h, q); PrevUnique(L.chunks, L.blocks, h, q); }
    forall a ensures a in L1.blocks <==> a in L2.blocks {
      assert a != p ==> ClearedAt(L.blocks, L1.blocks, p, e, a) && ClearedAt(L.blocks, L2.blocks, p, e, a);
    }
    forall a | a in L1.blocks && a in L2.blocks ensures L1.blocks[a] == L2.blocks[a] {
      assert a != p ==> ClearedAt(L.blocks, L1.blocks, p, e, a) && ClearedAt(L.blocks, L2.blocks, p, e, a);
    }
    assert L1.blocks == L2.blocks;
  }

  /** The two definitions of giving back a block are one. */
  lemma ReleaseIs(L: Layout, L': Layout, h: int)
    requires HeapOk(L) && Distinct(L.order) && h in L.blocks && L.blocks[h].alloc
    ensures L' == Release(L, h) <==> Freed(L, L', h)
  {
    var c := L.blocks[h].chunk;
    var L2, p, e := ReleaseSteps(L, h, c);
    DropAssembles(L, L2, Release(L, h), h, p, e, c);
    if Freed(L, L', h) {
      var q, f :| FreedTo(L, L', h, q, f);
      FreedUnique(L, Release(L, h), L', h, p, e, q, f);
    }
  }
}
