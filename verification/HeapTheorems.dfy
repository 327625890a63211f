/** What the invariants of the heap mean for its clients: placement, fragmentation, the round
    trip of allocating and freeing, and the empty heap. */
module HeapTheorems {
  import opened Machine
  import opened Sequences
  import opened Layouts
  import opened HeapImage
  import opened MallocSpec

  /** The headers of the blocks in use. */
  ghost function Used(blocks: Blocks): set<int> {
    set a | a in blocks && blocks[a].alloc
  }

  /** Bytes a client may use at the payload of block `b`. */
  function Capacity(b: Block): int { b.size - HDRSIZE - FDRSIZE }

  // ---------------------------------------------------------------- payloads

  /** Payloads are aligned and inside mapped chunks. */
  lemma PayloadInside(L: Layout, a: int)
    requires HeapOk(L) && a in L.blocks
    ensures (a + HDRSIZE) % 16 == 0
    ensures var c := L.blocks[a].chunk;
      c in L.chunks && c < a + HDRSIZE && a + HDRSIZE + Capacity(L.blocks[a]) < c + L.chunks[c]
  {
    InsideChunk(L.chunks, L.blocks, a);
    Shift16(a, a + HDRSIZE);
  }

  /** Payloads of different blocks are disjoint. */
  lemma PayloadsDisjoint(L: Layout, a: int, b: int)
    requires HeapOk(L) && a in L.blocks && b in L.blocks && a != b
    ensures a + HDRSIZE + Capacity(L.blocks[a]) < b + HDRSIZE || b + HDRSIZE + Capacity(L.blocks[b]) < a + HDRSIZE
  {
    assert BlocksApart(L.blocks, a, b) && BlocksApart(L.blocks, b, a);
  }

  // ---------------------------------------------------------------- placement

  /** `h` is a new used block of at least `total` bytes; all other used blocks are unchanged. */
  ghost predicate Granted(blocks: Blocks, blocks': Blocks, h: int, total: int) {
    && h in blocks' && h !in Used(blocks) && Used(blocks') == Used(blocks) + {h}
    && UsedKept(blocks, blocks', 0)
    && total <= blocks'[h].size
    && (blocks'[h].size == total || blocks'[h].size < total + 64)
  }

  lemma CarveGrants(L: Layout, h: int, total: int)
    requires Tiling(L.chunks, L.blocks) && h in L.blocks && !L.blocks[h].alloc
    requires total % 16 == 0 && 48 <= total <= L.blocks[h].size
    ensures Granted(L.blocks, Carve(L, h, total).blocks, h, total)
  {
    if L.blocks[h].size - total >= 64 { SplitTiling(L.chunks, L.blocks, h, total); }
  }

  lemma ExtendGrants(L: Layout, c: int, n: int, h: int)
    requires HeapOk(L) && n > 0 && FreshRegion(L.chunks, c, MapSize(n)) && h == c + PAGEHDRSIZE
    ensures Granted(L.blocks, Extend(L, c, MapSize(n), TotalSize(n)).blocks, h, TotalSize(n))
  {
    AlignOk(n);
    MapSizeOk(n);
    var L1 := WithChunk(L, c, MapSize(n));
    AddChunkTiling(L.chunks, L.blocks, c, MapSize(n));
    assert Used(L1.blocks) == Used(L.blocks);
    CarveGrants(L1, h, TotalSize(n));
  }

  lemma MallocGrants(L: Layout, L': Layout, n: int, bp: int, h: int)
    requires HeapOk(L) && n > 0 && Mallocd(L, L', n, bp) && h == bp - HDRSIZE
    ensures Granted(L.blocks, L'.blocks, h, TotalSize(n))
  {
    AlignOk(n);
    if FirstFit(L.blocks, L.free, TotalSize(n)) != 0 {
      NoNullNode(L);
      FirstFitIsFirst(L.blocks, L.free, TotalSize(n));
      CarveGrants(L.(free := Without(L.free, bp)), h, TotalSize(n));
    } else {
      ExtendGrants(L, h - PAGEHDRSIZE, n, h);
    }
  }

  /** An answered request yields one new used block, with the capacity asked for and at most 63
      bytes more; all other used blocks stay as they are. */
  lemma MallocGives(L: Layout, L': Layout, n: int, bp: int, h: int)
    requires HeapOk(L) && n > 0 && Mallocd(L, L', n, bp) && h == bp - HDRSIZE
    ensures Granted(L.blocks, L'.blocks, h, TotalSize(n))
    ensures bp > 0 && bp % 16 == 0
    ensures L'.blocks[h].size <= TotalSize(n) + 48 && n <= Capacity(L'.blocks[h]) <= n + 63
  {
    MallocGrants(L, L', n, bp, h);
    MallocKeeps(L, L', n, bp);
    AlignOk(n);
    InsideChunk(L'.chunks, L'.blocks, h);
    Below64(L'.blocks[h].size, TotalSize(n));
    Shift16(h, bp);
  }

  lemma Shift16(h: int, bp: int)
    requires h % 16 == 0 && bp == h + HDRSIZE
    ensures bp % 16 == 0
  {
  }

  lemma Below64(size: int, total: int)
    requires size % 16 == 0 && total % 16 == 0 && (size == total || size < total + 64)
    ensures size <= total + 48
  {
  }

  /** A new chunk is mapped only when no listed block fits, and no fewer pages would do. */
  lemma ExtendIsLeast(L: Layout, L': Layout, n: int, bp: int, pages: nat)
    requires HeapOk(L) && n > 0 && Mallocd(L, L', n, bp) && L'.chunks != L.chunks
    requires pages * APAGE_SIZE >= PAGEHDRSIZE + TotalSize(n)
    ensures forall a :: a in L.blocks && !L.blocks[a].alloc ==> L.blocks[a].size < TotalSize(n)
    ensures exists c :: c !in L.chunks && L'.chunks == L.chunks[c := MapSize(n)]
    ensures MapSize(n) <= pages * APAGE_SIZE
  {
    NoNullNode(L);
    FirstFitIsFirst(L.blocks, L.free, TotalSize(n));
    var fit := FirstFit(L.blocks, L.free, TotalSize(n));
    assert fit == 0;
    forall a | a in L.blocks && !L.blocks[a].alloc ensures L.blocks[a].size < TotalSize(n) {
      InsideChunk(L.chunks, L.blocks, a);
      assert a + HDRSIZE in L.free && !Fits(L.blocks, a + HDRSIZE, TotalSize(n));
    }
    var c := bp - HDRSIZE - PAGEHDRSIZE;
    AddChunkTiling(L.chunks, L.blocks, c, MapSize(n));
    assert c !in L.chunks && L'.chunks == L.chunks[c := MapSize(n)];
  }

  // ---------------------------------------------------------------- giving back

  ghost predicate SameUsed(blocks: Blocks, blocks': Blocks) {
    Used(blocks') == Used(blocks) && UsedKept(blocks, blocks', 0)
  }

  /** Coalescing concerns no block in use. */
  lemma CoalesceUsed(L: Layout, L': Layout, h: int, idle: int)
    requires Pending(L, h, idle) && CoalescedBut(L.blocks, h) && idle == L.blocks[h].chunk
    requires L' == Coalesce(L, h)
    ensures SameUsed(L.blocks, L'.blocks)
  {
  }

  /** Giving back block `h` takes exactly it out of use. */
  lemma ReleaseGives(L: Layout, L': Layout, h: int)
    requires HeapOk(L) && h in Used(L.blocks) && L' == Release(L, h)
    ensures Used(L'.blocks) == Used(L.blocks) - {h} && UsedKept(L.blocks, L'.blocks, h)
  {
    var L0, c := L.(blocks := Flag(L.blocks, h, false)), L.blocks[h].chunk;
    FlagPending(L, h);
    NullIsNoBlock(L);
    var L1 := Coalesce(L0, h);
    CoalesceUsed(L0, L1, h, c);
    assert Used(L0.blocks) == Used(L.blocks) - {h} && UsedKept(L.blocks, L0.blocks, h);
    assert SameUsed(L1.blocks, L'.blocks);
  }

  /** Each chunk of a sound heap holds a block in use. */
  lemma ChunkHasUsed(L: Layout, c: int) returns (a: int)
    requires HeapOk(L) && c in L.chunks
    ensures a in Used(L.blocks) && L.blocks[a].chunk == c
  {
    assert ChunkOk(L.chunks, L.blocks, c) && Busy(L, c);
    a := c + PAGEHDRSIZE;
    if !L.blocks[a].alloc {
      assert BlockOk(L.chunks, L.blocks, a) && NotBothFree(L.blocks, a);
      a := a + L.blocks[a].size;
    }
  }

  lemma NoMembers(s: seq<int>)
    ensures (forall x :: x !in s) ==> s == []
  {
    if s != [] { var x := s[0]; assert x in s; }
  }

  /** With nothing in use there is no chunk, no block and nothing on either list. */
  lemma NothingUsed(L: Layout)
    requires HeapOk(L) && Used(L.blocks) == {}
    requires Members(L.order, L.chunks)
    ensures L == Layout(map[], [], map[], [])
  {
    forall c ensures c !in L.chunks {
      if c in L.chunks {
        var a := ChunkHasUsed(L, c);
      }
    }
    assert L.chunks == map[];
    forall a ensures a !in L.blocks {
      assert a in L.blocks ==> BlockOk(L.chunks, L.blocks, a);
    }
    assert L.blocks == map[];
    NoMembers(L.order);
    NoMembers(L.free);
  }

  lemma DropIdleHasNoUsed(L: Layout, c: int, f: int)
    requires Joined(L, c) && f == c + PAGEHDRSIZE && f in L.blocks && Idle(L.chunks, L.blocks, c)
    ensures forall a :: a in Used(L.blocks) ==> L.blocks[a].chunk != c
  {
    DropChunkTiling(L.chunks, L.blocks, c);
  }

  /** A free unmaps at most one chunk, and that exactly if it gave back the only used block of it. */
  lemma ReleaseChunks(L: Layout, L': Layout, h: int, c: int)
    requires HeapOk(L) && h in Used(L.blocks) && L' == Release(L, h) && c == L.blocks[h].chunk
    ensures L'.chunks == if forall a :: a in Used(L.blocks) && L.blocks[a].chunk == c ==> a == h
                         then L.chunks - {c} else L.chunks
  {
    var L0 := L.(blocks := Flag(L.blocks, h, false));
    FlagPending(L, h);
    var L1 := Coalesce(L0, h);
    CoalesceKeeps(L0, h, c);
    CoalesceUsed(L0, L1, h, c);
    DropKeeps(L1, c);
    ReleaseGives(L, L', h);
    ReleaseKeeps(L, h);
    NullIsNoBlock(L);
    if Idle(L1.chunks, L1.blocks, c) {
      DropIdleHasNoUsed(L1, c, c + PAGEHDRSIZE);
      forall a | a in Used(L.blocks) && a != h ensures L.blocks[a].chunk != c {
        assert a in Used(L1.blocks) && L0.blocks[a] == L.blocks[a];
      }
    } else {
      var a := ChunkHasUsed(L', c);
      assert a != h && a in Used(L.blocks) && L'.blocks[a] == L.blocks[a];
    }
  }

  // ---------------------------------------------------------------- round trip

  /** The predecessor of a free block in a coalesced layout is not free, nor after carving it. */
  lemma CarvedPrev(L: Layout, blocks': Blocks, h: int, n: int)
    requires Tiling(L.chunks, L.blocks) && Coalesced(L.blocks) && FreeAt(L.blocks, h)
    requires Tiling(L.chunks, blocks') && h in blocks' && h < n
    requires forall x :: x in blocks' && x != h && x != n ==> x in L.blocks && blocks'[x] == L.blocks[x]
    ensures !FreeAt(blocks', PrevBlock(blocks', h)) && Start(blocks', h) == h
  {
    var p := PrevBlock(blocks', h);
    PrevIsBlock(L.chunks, blocks', h);
    NullIsNoBlock(Layout(L.chunks, [], blocks', []));
    if p != 0 {
      InsideChunk(L.chunks, blocks', p);
      assert NotBothFree(L.blocks, p);
    }
  }

  lemma SplitMerge(blocks: Blocks, h: int, total: int, n: int)
    requires h in blocks && !blocks[h].alloc && n == h + total && n != h && n !in blocks
    ensures FreeAt(Split(blocks, h, total), n) && Merge(Split(blocks, h, total), h, n) == blocks
  {
  }

  /** Freeing what was just carved by splitting merges the pieces back. */
  lemma SplitBack(L: Layout, C: Layout, h: int, total: int, n: int, idle: int)
    requires Pending(L, h, idle) && Coalesced(L.blocks)
    requires total % 16 == 0 && 48 <= total && total + 64 <= L.blocks[h].size && n == h + total
    requires C.blocks == Split(L.blocks, h, total) && C == L.(blocks := C.blocks, free := [n + HDRSIZE] + L.free)
    ensures Coalesce(C, h) == L.(free := [h + HDRSIZE] + L.free)
  {
    SplitTiling(L.chunks, L.blocks, h, total);
    SplitMerge(L.blocks, h, total, n);
    assert n + HDRSIZE !in L.free;
    CarvedPrev(L, C.blocks, h, n);
    assert JoinPrev(C, h) == C;
    assert JoinNext(C, h, n) == L;
  }

  lemma WholeBack(L: Layout, h: int, idle: int)
    requires Pending(L, h, idle) && Coalesced(L.blocks)
    ensures Coalesce(L, h) == L.(free := [h + HDRSIZE] + L.free)
  {
    CarvedPrev(L, L.blocks, h, h + 1);
    assert NotBothFree(L.blocks, h);
  }

  lemma CarveBack(L: Layout, h: int, total: int, idle: int)
    requires Pending(L, h, idle) && Coalesced(L.blocks)
    requires total % 16 == 0 && 48 <= total <= L.blocks[h].size
    ensures var C := Carve(L, h, total);
      Coalesce(C.(blocks := Flag(C.blocks, h, false)), h) == L.(free := [h + HDRSIZE] + L.free)
  {
    var C := Carve(L, h, total);
    var F := C.(blocks := Flag(C.blocks, h, false));
    if L.blocks[h].size - total >= 64 {
      assert F.blocks == Split(L.blocks, h, total);
      SplitBack(L, F, h, total, h + total, idle);
    } else {
      assert F.blocks == L.blocks;
      WholeBack(L, h, idle);
    }
  }

  /** Freeing what was just allocated restores every chunk and block, the page list, and the free
      list but for the reused block, which has moved to the front. */
  lemma RoundTrip(L: Layout, L': Layout, n: int, bp: int, h: int)
    requires HeapOk(L) && Members(L.order, L.chunks)
    requires n > 0 && Mallocd(L, L', n, bp) && h == bp - HDRSIZE
    ensures h in L'.blocks
    ensures Release(L', h) ==
      if FirstFit(L.blocks, L.free, TotalSize(n)) != 0 then L.(free := [bp] + Without(L.free, bp)) else L
  {
    AlignOk(n);
    MapSizeOk(n);
    NoNullNode(L);
    FirstFitIsFirst(L.blocks, L.free, TotalSize(n));
    if FirstFit(L.blocks, L.free, TotalSize(n)) != 0 {
      ReuseBack(L, L', n, bp, h);
    } else {
      ExtendBack(L, L', n, h - PAGEHDRSIZE, h);
    }
  }

  lemma ReuseBack(L: Layout, L': Layout, n: int, bp: int, h: int)
    requires HeapOk(L) && bp in L.free && Fits(L.blocks, bp, TotalSize(n)) && n > 0 && h == bp - HDRSIZE
    requires L' == Reuse(L, bp, TotalSize(n))
    ensures h in L'.blocks && Release(L', h) == L.(free := [bp] + Without(L.free, bp))
  {
    AlignOk(n);
    var L1 := L.(free := Without(L.free, bp));
    UnlistPending(L, bp);
    CarveBack(L1, h, TotalSize(n), 0);
    var c := L.blocks[h].chunk;
    InsideChunk(L.chunks, L.blocks, h);
    assert c != 0 && Busy(L, c);
  }

  lemma DropBack(L: Layout, c: int, sz: int, h: int)
    requires h == c + PAGEHDRSIZE && h !in L.blocks && c !in L.chunks && c !in L.order && h + HDRSIZE !in L.free
    ensures DropIfIdle(WithChunk(L, c, sz).(free := [h + HDRSIZE] + L.free), c) == L
  {
  }

  lemma ExtendBack(L: Layout, L': Layout, n: int, c: int, h: int)
    requires HeapOk(L) && Members(L.order, L.chunks)
    requires n > 0 && FreshRegion(L.chunks, c, MapSize(n)) && h == c + PAGEHDRSIZE
    requires L' == Extend(L, c, MapSize(n), TotalSize(n))
    ensures h in L'.blocks && Release(L', h) == L
  {
    AlignOk(n);
    MapSizeOk(n);
    ExtendPending(L, c, MapSize(n));
    AddChunkTiling(L.chunks, L.blocks, c, MapSize(n));
    DropBack(L, c, MapSize(n), h);
    CarveBack(WithChunk(L, c, MapSize(n)), h, TotalSize(n), c);
  }
}
