/** What the allocator's operations do to the block layout, and the invariants of the layout
    that every operation keeps. */
module MallocSpec {
  import opened Machine
  import opened Sequences
  import opened Layouts
  import opened HeapImage

  /** The payload size rounded up to the alignment. */
  function Align(n: int): int { (n + 15) / 16 * 16 }

  function TotalSize(n: int): int { HDRSIZE + Align(n) + FDRSIZE }

  /** The size of the region mapped for a request no free block can hold. */
  function MapSize(n: int): int {
    (TotalSize(n) + PAGEHDRSIZE + APAGE_SIZE - 1) / APAGE_SIZE * APAGE_SIZE
  }

  /** The sizes computed for a request of `n` bytes fit into 64 bits, so nothing wraps around. */
  predicate Representable(n: int) {
    TotalSize(n) + PAGEHDRSIZE + APAGE_SIZE - 1 < ADDRESS_LIMIT
  }

  lemma AlignOk(n: int)
    requires n > 0
    ensures Align(n) % 16 == 0 && n <= Align(n) <= n + 15
    ensures TotalSize(n) % 16 == 0 && TotalSize(n) >= 48
  {
  }

  lemma MapSizeOk(n: int)
    requires n > 0
    ensures MapSize(n) % APAGE_SIZE == 0 && MapSize(n) > 0
    ensures TotalSize(n) <= MapSize(n) - PAGEHDRSIZE < TotalSize(n) + APAGE_SIZE
    ensures (MapSize(n) - PAGEHDRSIZE) % 16 == 0
  {
  }

  // ---------------------------------------------------------------- operations on layouts

  predicate Fits(blocks: Blocks, bp: int, total: int) {
    bp - HDRSIZE in blocks && !blocks[bp - HDRSIZE].alloc && blocks[bp - HDRSIZE].size >= total
  }

  /** The first block of the list that is big enough, null if there is none. */
  function FirstFit(blocks: Blocks, free: seq<int>, total: int): int {
    if free == [] then 0
    else if Fits(blocks, free[0], total) then free[0]
    else FirstFit(blocks, free[1..], total)
  }

  /** Use block `h` for `total` bytes: what is left over becomes a free block if it is worth it. */
  function Carve(L: Layout, h: int, total: int): Layout
    requires h in L.blocks
  {
    if L.blocks[h].size - total >= HDRSIZE + MIN_BLOCK_SIZE + FDRSIZE then
      L.(blocks := Flag(Split(L.blocks, h, total), h, true), free := [h + total + HDRSIZE] + L.free)
    else
      L.(blocks := Flag(L.blocks, h, true))
  }

  ghost function Reuse(L: Layout, bp: int, total: int): Layout
    requires bp - HDRSIZE in L.blocks
  {
    Carve(L.(free := Without(L.free, bp)), bp - HDRSIZE, total)
  }

  function Extend(L: Layout, c: int, sz: int, total: int): Layout {
    Carve(WithChunk(L, c, sz), c + PAGEHDRSIZE, total)
  }

  ghost predicate FreeAt(blocks: Blocks, a: int) {
    a in blocks && !blocks[a].alloc
  }

  /** Where the block joined with a free predecessor begins. */
  ghost function Start(blocks: Blocks, h: int): int {
    if FreeAt(blocks, PrevBlock(blocks, h)) then PrevBlock(blocks, h) else h
  }

  /** What a request for `n` bytes answered by `bp` does to the layout: the first adequate block
      is carved, or if there is none a least adequate number of fresh pages is mapped and carved. */
  ghost predicate Mallocd(L: Layout, L': Layout, n: int, bp: int) {
    var fit := FirstFit(L.blocks, L.free, TotalSize(n));
    if fit != 0 then
      bp == fit && bp - HDRSIZE in L.blocks && L' == Reuse(L, bp, TotalSize(n))
    else
      var c := bp - HDRSIZE - PAGEHDRSIZE;
      FreshRegion(L.chunks, c, MapSize(n)) && L' == Extend(L, c, MapSize(n), TotalSize(n))
  }

  /** Join the free block `h`, which is on no list, with its predecessor if that is free. */
  ghost function JoinPrev(L: Layout, h: int): Layout
    requires h in L.blocks
  {
    var p := PrevBlock(L.blocks, h);
    if FreeAt(L.blocks, p) then
      L.(blocks := Merge(L.blocks, p, h), free := Without(L.free, p + HDRSIZE))
    else L
  }

  /** Join the free block `h`, which is on no list, with `n`, right behind it, if that is free. */
  ghost function JoinNext(L: Layout, h: int, n: int): Layout {
    if FreeAt(L.blocks, n) && h in L.blocks then
      L.(blocks := Merge(L.blocks, h, n), free := Without(L.free, n + HDRSIZE))
    else L
  }

  /** Join the free block `h` with its free neighbours and put the result at the front of the list. */
  ghost function Coalesce(L: Layout, h: int): Layout
    requires h in L.blocks
  {
    var p := Start(L.blocks, h);
    var L' := JoinNext(JoinPrev(L, h), p, h + L.blocks[h].size);
    L'.(free := [p + HDRSIZE] + L'.free)
  }

  /** Unmap chunk `c` if it is one free block. */
  ghost function DropIfIdle(L: Layout, c: int): Layout {
    if c in L.chunks && c + PAGEHDRSIZE in L.blocks && Idle(L.chunks, L.blocks, c) then
      DropChunk(L.(free := Without(L.free, c + PAGEHDRSIZE + HDRSIZE)), c)
    else L
  }

  ghost function Release(L: Layout, h: int): Layout
    requires h in L.blocks
  {
    DropIfIdle(Coalesce(L.(blocks := Flag(L.blocks, h, false)), h), L.blocks[h].chunk)
  }

  // ---------------------------------------------------------------- invariants

  ghost predicate NotBothFree(blocks: Blocks, a: int)
    requires a in blocks
  {
    a + blocks[a].size in blocks ==> blocks[a].alloc || blocks[a + blocks[a].size].alloc
  }

  /** No two neighbouring blocks are both free. */
  ghost predicate Coalesced(blocks: Blocks) {
    forall a {:trigger NotBothFree(blocks, a)} :: a in blocks ==> NotBothFree(blocks, a)
  }

  /** Every free block but `but` is on the free list. */
  ghost predicate Listed(blocks: Blocks, free: seq<int>, but: int) {
    forall a :: a in blocks && !blocks[a].alloc && a != but ==> a + HDRSIZE in free
  }

  ghost predicate Busy(L: Layout, c: int)
    requires c in L.chunks
  {
    c + PAGEHDRSIZE in L.blocks && !Idle(L.chunks, L.blocks, c)
  }

  /** No chunk is one free block, but perhaps `but`. */
  ghost predicate NoIdle(L: Layout, but: int) {
    forall c {:trigger Busy(L, c)} :: c in L.chunks && c != but ==> Busy(L, c)
  }

  /** The invariant of the layout between operations. */
  ghost predicate HeapOk(L: Layout) {
    && Tiling(L.chunks, L.blocks)
    && NodesFree(L.blocks, L.free) && Distinct(L.free) && Listed(L.blocks, L.free, 0)
    && Coalesced(L.blocks)
    && NoIdle(L, 0)
  }

  // ---------------------------------------------------------------- find_fit

  /** `bp` is on the list, big enough, and nothing before it is. */
  ghost predicate IsFirstFit(blocks: Blocks, free: seq<int>, total: int, bp: int) {
    && bp in free && Fits(blocks, bp, total)
    && forall j :: 0 <= j < IndexOf(free, bp) ==> !Fits(blocks, free[j], total)
  }

  /** `FirstFit` picks the earliest adequate block, and gives up only if there is none. */
  lemma {:induction false} FirstFitIsFirst(blocks: Blocks, free: seq<int>, total: int)
    requires Distinct(free) && 0 !in free
    ensures var bp := FirstFit(blocks, free, total);
      if bp == 0 then forall n :: n in free ==> !Fits(blocks, n, total)
      else IsFirstFit(blocks, free, total, bp)
  {
    if free != [] {
      var rest := free[1..];
      assert free == [free[0]] + rest;
      if Fits(blocks, free[0], total) {
      } else {
        FirstFitIsFirst(blocks, rest, total);
        var bp := FirstFit(blocks, free, total);
        if bp != 0 {
          var k := IndexOf(rest, bp);
          forall j | 0 <= j < k + 1 ensures !Fits(blocks, free[j], total) {
            assert j > 0 ==> free[j] == rest[j - 1];
          }
        }
      }
    }
  }

  // ---------------------------------------------------------------- mm_malloc keeps the invariant

  /** A layout that is sound but for the free block `h`, which is on no list, and perhaps for
      the chunk `idle`, which may be one free block. */
  ghost predicate Pending(L: Layout, h: int, idle: int) {
    && Tiling(L.chunks, L.blocks)
    && NodesFree(L.blocks, L.free) && Distinct(L.free) && Listed(L.blocks, L.free, h)
    && h in L.blocks && !L.blocks[h].alloc && h + HDRSIZE !in L.free
    && NoIdle(L, idle)
  }

  lemma SplitNotBothFree(L: Layout, h: int, total: int, a: int)
    requires Tiling(L.chunks, L.blocks) && Coalesced(L.blocks)
    requires h in L.blocks && !L.blocks[h].alloc && 48 <= total < L.blocks[h].size
    requires h + total !in L.blocks
    requires a in Split(L.blocks, h, total)
    ensures NotBothFree(Flag(Split(L.blocks, h, total), h, true), a)
  {
    var n := h + total;
    if a == n {
      assert NotBothFree(L.blocks, h);
    } else if a != h {
      assert NotBothFree(L.blocks, a);
      InsideChunk(L.chunks, L.blocks, a);
      assert BlocksApart(L.blocks, a, h) && BlocksApart(L.blocks, h, a);
    }
  }

  /** A chunk with a used block is not one free block. */
  lemma BusyWithUsed(L: Layout, h: int, c: int)
    requires Tiling(L.chunks, L.blocks) && h in L.blocks && L.blocks[h].alloc && c in L.chunks
    ensures L.blocks[h].chunk == c ==> Busy(L, c)
  {
    assert ChunkOk(L.chunks, L.blocks, c);
    InsideChunk(L.chunks, L.blocks, h);
    assert BlocksApart(L.blocks, c + PAGEHDRSIZE, h);
  }

  lemma FlagCoalesced(blocks: Blocks, h: int)
    requires Coalesced(blocks) && h in blocks
    ensures Coalesced(Flag(blocks, h, true))
  {
    forall a | a in blocks ensures NotBothFree(Flag(blocks, h, true), a) {
      assert NotBothFree(blocks, a);
    }
  }

  lemma SplitCoalesced(L: Layout, h: int, total: int)
    requires Tiling(L.chunks, L.blocks) && Coalesced(L.blocks)
    requires h in L.blocks && !L.blocks[h].alloc && 48 <= total < L.blocks[h].size
    requires h + total !in L.blocks
    ensures Coalesced(Flag(Split(L.blocks, h, total), h, true))
  {
    forall a | a in Split(L.blocks, h, total)
      ensures NotBothFree(Flag(Split(L.blocks, h, total), h, true), a)
    {
      SplitNotBothFree(L, h, total, a);
    }
  }

  lemma CarveBusy(L: Layout, h: int, total: int, idle: int)
    requires Tiling(L.chunks, L.blocks) && NoIdle(L, idle)
    requires h in L.blocks && !L.blocks[h].alloc && total <= L.blocks[h].size
    requires idle == 0 || idle == L.blocks[h].chunk
    requires Tiling(Carve(L, h, total).chunks, Carve(L, h, total).blocks)
    requires L.blocks[h].size - total >= 64 ==> h + total !in L.blocks && total > 0
    ensures NoIdle(Carve(L, h, total), 0)
  {
    var L' := Carve(L, h, total);
    forall c | c in L'.chunks ensures Busy(L', c) {
      BusyWithUsed(L', h, c);
      assert ChunkOk(L.chunks, L.blocks, c);
      assert c != idle ==> Busy(L, c);
    }
  }

  lemma CarveSplitKeeps(L: Layout, h: int, total: int, idle: int)
    requires Pending(L, h, idle) && Coalesced(L.blocks)
    requires idle == 0 || idle == L.blocks[h].chunk
    requires total % 16 == 0 && 48 <= total && total + 64 <= L.blocks[h].size
    ensures HeapOk(Carve(L, h, total))
  {
    SplitTiling(L.chunks, L.blocks, h, total);
    FlagTiling(L.chunks, Split(L.blocks, h, total), h, true);
    assert h + total + HDRSIZE !in L.free;
    InsideChunk(L.chunks, L.blocks, h);
    SplitCoalesced(L, h, total);
    CarveBusy(L, h, total, idle);
  }

  lemma CarveWholeKeeps(L: Layout, h: int, total: int, idle: int)
    requires Pending(L, h, idle) && Coalesced(L.blocks)
    requires idle == 0 || idle == L.blocks[h].chunk
    requires total <= L.blocks[h].size < total + 64
    ensures HeapOk(Carve(L, h, total))
  {
    FlagTiling(L.chunks, L.blocks, h, true);
    FlagCoalesced(L.blocks, h);
    InsideChunk(L.chunks, L.blocks, h);
    CarveBusy(L, h, total, idle);
  }

  /** Carving the pending block for a request leaves the heap sound. */
  lemma CarveKeeps(L: Layout, h: int, total: int, idle: int)
    requires Pending(L, h, idle) && Coalesced(L.blocks)
    requires idle == 0 || idle == L.blocks[h].chunk
    requires total % 16 == 0 && 48 <= total <= L.blocks[h].size
    ensures HeapOk(Carve(L, h, total))
  {
    if L.blocks[h].size - total >= 64 {
      CarveSplitKeeps(L, h, total, idle);
    } else {
      CarveWholeKeeps(L, h, total, idle);
    }
  }

  /** No block has the null address, so nothing is excepted. */
  lemma AllListed(L: Layout, h: int)
    requires Tiling(L.chunks, L.blocks) && Listed(L.blocks, L.free, 0)
    ensures Listed(L.blocks, L.free, h)
  {
    forall a | a in L.blocks ensures a != 0 {
      InsideChunk(L.chunks, L.blocks, a);
    }
  }

  /** Taking a listed block off the list leaves it pending. */
  lemma UnlistPending(L: Layout, bp: int)
    requires HeapOk(L) && bp in L.free
    ensures Pending(L.(free := Without(L.free, bp)), bp - HDRSIZE, 0)
  {
    WithoutMembers(L.free, bp);
    AllListed(L, bp - HDRSIZE);
    var L' := L.(free := Without(L.free, bp));
    forall c | c in L'.chunks ensures Busy(L', c) {
      assert ChunkOk(L.chunks, L.blocks, c);
      assert c != 0 ==> Busy(L, c);
    }
  }

  lemma NoNullNode(L: Layout)
    requires Tiling(L.chunks, L.blocks) && NodesFree(L.blocks, L.free)
    ensures 0 !in L.free
  {
    forall n | n in L.free ensures n != 0 {
      InsideChunk(L.chunks, L.blocks, n - HDRSIZE);
    }
  }

  lemma ReuseKeeps(L: Layout, bp: int, total: int)
    requires HeapOk(L) && total % 16 == 0 && total >= 48
    requires bp in L.free && Fits(L.blocks, bp, total)
    ensures HeapOk(Reuse(L, bp, total))
  {
    UnlistPending(L, bp);
    CarveKeeps(L.(free := Without(L.free, bp)), bp - HDRSIZE, total, 0);
  }

  lemma AddChunkCoalesced(chunks: Chunks, blocks: Blocks, c: int, sz: int)
    requires Tiling(chunks, blocks) && Coalesced(blocks) && FreshRegion(chunks, c, sz)
    ensures Coalesced(AddChunk(blocks, c, sz))
  {
    AddChunkTiling(chunks, blocks, c, sz);
    var blocks', f := AddChunk(blocks, c, sz), c + PAGEHDRSIZE;
    NoBlockAtChunkEnd(chunks[c := sz], blocks', c);
    forall a | a in blocks' ensures NotBothFree(blocks', a) {
      if a != f {
        assert NotBothFree(blocks, a);
        OutsideRegion(chunks, blocks, c, sz, a);
      }
    }
  }

  lemma ExtendPending(L: Layout, c: int, sz: int)
    requires HeapOk(L) && FreshRegion(L.chunks, c, sz)
    ensures Pending(WithChunk(L, c, sz), c + PAGEHDRSIZE, c)
    ensures Coalesced(WithChunk(L, c, sz).blocks)
    ensures UsedKept(L.blocks, WithChunk(L, c, sz).blocks, 0) && 0 !in WithChunk(L, c, sz).blocks
  {
    var L', f := WithChunk(L, c, sz), c + PAGEHDRSIZE;
    AddChunkTiling(L.chunks, L.blocks, c, sz);
    AddChunkCoalesced(L.chunks, L.blocks, c, sz);
    NullIsNoBlock(L');
    AllListed(L, f);
    assert f + HDRSIZE !in L.free;
    forall d | d in L'.chunks && d != c ensures Busy(L', d) {
      assert ChunkOk(L.chunks, L.blocks, d);
      assert Busy(L, d);
    }
  }

  lemma ExtendKeeps(L: Layout, c: int, n: int)
    requires HeapOk(L) && n > 0 && FreshRegion(L.chunks, c, MapSize(n))
    ensures HeapOk(Extend(L, c, MapSize(n), TotalSize(n)))
  {
    MapSizeOk(n);
    AlignOk(n);
    ExtendPending(L, c, MapSize(n));
    CarveKeeps(WithChunk(L, c, MapSize(n)), c + PAGEHDRSIZE, TotalSize(n), c);
  }

  /** Serving a request keeps the heap sound. */
  lemma MallocKeeps(L: Layout, L': Layout, n: int, bp: int)
    requires HeapOk(L) && n > 0 && Mallocd(L, L', n, bp)
    ensures HeapOk(L')
  {
    AlignOk(n);
    NoNullNode(L);
    FirstFitIsFirst(L.blocks, L.free, TotalSize(n));
    if FirstFit(L.blocks, L.free, TotalSize(n)) != 0 {
      ReuseKeeps(L, bp, TotalSize(n));
    } else {
      ExtendKeeps(L, bp - HDRSIZE - PAGEHDRSIZE, n);
    }
  }

  // ---------------------------------------------------------------- mm_free keeps the invariant

  /** No two neighbours are free, but perhaps `h` and a neighbour of it. */
  ghost predicate CoalescedBut(blocks: Blocks, h: int) {
    forall a {:trigger NotBothFree(blocks, a)} ::
      a in blocks && a != h && a + blocks[a].size != h ==> NotBothFree(blocks, a)
  }

  ghost predicate PrevUsed(blocks: Blocks, h: int) {
    forall a {:trigger NotBothFree(blocks, a)} :: a in blocks && a + blocks[a].size == h ==> NotBothFree(blocks, a)
  }

  lemma FlagElsewhere(blocks: Blocks, h: int, a: int, n: int)
    requires Coalesced(blocks) && h in blocks && a in blocks && a != h && n == a + blocks[a].size && n != h
    ensures NotBothFree(Flag(blocks, h, false), a)
  {
    assert NotBothFree(blocks, a);
  }

  lemma FlagPending(L: Layout, h: int)
    requires HeapOk(L) && h in L.blocks && L.blocks[h].alloc
    ensures Pending(L.(blocks := Flag(L.blocks, h, false)), h, L.blocks[h].chunk)
    ensures CoalescedBut(Flag(L.blocks, h, false), h)
  {
    var L' := L.(blocks := Flag(L.blocks, h, false));
    FlagTiling(L.chunks, L.blocks, h, false);
    AllListed(L, h);
    InsideChunk(L.chunks, L.blocks, h);
    forall a | a in L'.blocks && a != h && a + L'.blocks[a].size != h ensures NotBothFree(L'.blocks, a) {
      FlagElsewhere(L.blocks, h, a, a + L.blocks[a].size);
    }
    forall c | c in L'.chunks && c != L.blocks[h].chunk ensures Busy(L', c) {
      assert ChunkOk(L.chunks, L.blocks, c);
      assert c != 0 ==> Busy(L, c);
    }
  }

  lemma MergeCoalescedBut(L: Layout, a: int, n: int, h: int)
    requires Tiling(L.chunks, L.blocks) && CoalescedBut(L.blocks, h)
    requires Adjacent(L.blocks, a, n) && (h == a || h == n)
    ensures CoalescedBut(Merge(L.blocks, a, n), a)
  {
    var blocks' := Merge(L.blocks, a, n);
    InsideChunk(L.chunks, L.blocks, a);
    InsideChunk(L.chunks, L.blocks, n);
    assert IsPrev(L.blocks, n, a);
    PrevUnique(L.chunks, L.blocks, n, a);
    forall x | x in blocks' && x != a && x + blocks'[x].size != a ensures NotBothFree(blocks', x) {
      if x + L.blocks[x].size == n {
        assert IsPrev(L.blocks, n, x);
        PrevUnique(L.chunks, L.blocks, n, x);
      }
      assert NotBothFree(L.blocks, x);
    }
  }

  lemma MergeNoIdle(L: Layout, L': Layout, a: int, n: int, idle: int)
    requires Tiling(L.chunks, L.blocks) && NoIdle(L, idle)
    requires Adjacent(L.blocks, a, n) && L.blocks[a].chunk == idle
    requires L'.chunks == L.chunks && L'.blocks == Merge(L.blocks, a, n) && Tiling(L.chunks, L'.blocks)
    ensures NoIdle(L', idle)
  {
    forall c | c in L'.chunks && c != idle ensures Busy(L', c) {
      assert ChunkOk(L.chunks, L.blocks, c) && ChunkOk(L.chunks, L'.blocks, c) && Busy(L, c);
    }
  }

  /** Of two free neighbours `a` and `n`, `h` is on no list and the other, `k`, leaves its list. */
  lemma MergeNodes(blocks: Blocks, free: seq<int>, free': seq<int>, a: int, n: int, h: int, k: int, kp: int)
    requires NodesFree(blocks, free) && Listed(blocks, free, h) && h + HDRSIZE !in free
    requires FreeAt(blocks, a) && FreeAt(blocks, n) && a != n && kp == k + HDRSIZE
    requires (h == a && k == n) || (h == n && k == a)
    requires forall y :: y in free' <==> y in free && y != kp
    ensures NodesFree(Merge(blocks, a, n), free') && Listed(Merge(blocks, a, n), free', a) && a + HDRSIZE !in free'
  {
  }

  lemma MergeLists(blocks: Blocks, free: seq<int>, a: int, n: int, h: int, k: int)
    requires NodesFree(blocks, free) && Distinct(free) && Listed(blocks, free, h)
    requires FreeAt(blocks, a) && FreeAt(blocks, n) && a != n
    requires (h == a && k == n) || (h == n && k == a)
    requires h + HDRSIZE !in free
    ensures var free' := Without(free, k + HDRSIZE);
      && k + HDRSIZE in free
      && NodesFree(Merge(blocks, a, n), free') && Distinct(free')
      && Listed(Merge(blocks, a, n), free', a) && a + HDRSIZE !in free'
  {
    WithoutMembers(free, k + HDRSIZE);
    MergeNodes(blocks, free, Without(free, k + HDRSIZE), a, n, h, k, k + HDRSIZE);
  }

  /** Merging the pending block `h` with its free neighbour `k` takes `k` off the list. */
  lemma MergePending(L: Layout, L': Layout, a: int, n: int, h: int, k: int, idle: int)
    requires Pending(L, h, idle) && CoalescedBut(L.blocks, h)
    requires Adjacent(L.blocks, a, n) && !L.blocks[a].alloc && !L.blocks[n].alloc
    requires (h == a && k == n) || (h == n && k == a)
    requires L.blocks[a].chunk == idle
    requires L' == L.(blocks := Merge(L.blocks, a, n), free := Without(L.free, k + HDRSIZE))
    ensures k + HDRSIZE in L.free
    ensures Pending(L', a, idle) && CoalescedBut(L'.blocks, a) && L'.blocks[a].chunk == idle
  {
    InsideChunk(L.chunks, L.blocks, a);
    MergeCoalescedBut(L, a, n, h);
    MergeTiling(L.chunks, L.blocks, a, n);
    MergeNoIdle(L, L', a, n, idle);
    MergeLists(L.blocks, L.free, a, n, h, k);
  }

  lemma MergedPrevUsed(L: Layout, p: int, h: int)
    requires Tiling(L.chunks, L.blocks) && CoalescedBut(L.blocks, h)
    requires Adjacent(L.blocks, p, h) && !L.blocks[p].alloc
    ensures PrevUsed(Merge(L.blocks, p, h), p)
  {
    var blocks' := Merge(L.blocks, p, h);
    InsideChunk(L.chunks, L.blocks, p);
    InsideChunk(L.chunks, L.blocks, h);
    forall a | a in blocks' && a + blocks'[a].size == p ensures NotBothFree(blocks', a) {
      assert NotBothFree(L.blocks, a);
    }
  }

  lemma PrevNotFree(L: Layout, h: int)
    requires Tiling(L.chunks, L.blocks) && h in L.blocks && !FreeAt(L.blocks, PrevBlock(L.blocks, h))
    ensures PrevUsed(L.blocks, h)
  {
    forall a | a in L.blocks && a + L.blocks[a].size == h ensures NotBothFree(L.blocks, a) {
      assert IsPrev(L.blocks, h, a);
      PrevUnique(L.chunks, L.blocks, h, a);
    }
  }

  lemma NullIsNoBlock(L: Layout)
    requires Tiling(L.chunks, L.blocks)
    ensures 0 !in L.blocks
  {
    forall a | a in L.blocks ensures a != 0 { InsideChunk(L.chunks, L.blocks, a); }
  }

  lemma FreePrev(L: Layout, h: int, p: int)
    requires Tiling(L.chunks, L.blocks) && h in L.blocks && p == PrevBlock(L.blocks, h) && FreeAt(L.blocks, p)
    ensures Adjacent(L.blocks, p, h) && p < h && L.blocks[p].chunk == L.blocks[h].chunk
  {
    PrevIsBlock(L.chunks, L.blocks, h);
    NullIsNoBlock(L);
    InsideChunk(L.chunks, L.blocks, p);
  }

  /** Joining with the predecessor keeps the block behind, and leaves no free predecessor. */
  lemma JoinPrevResult(L: Layout, L': Layout, h: int, p: int, n: int, idle: int)
    requires Pending(L, h, idle) && CoalescedBut(L.blocks, h) && idle == L.blocks[h].chunk
    requires L' == JoinPrev(L, h) && p == Start(L.blocks, h) && n == h + L.blocks[h].size
    ensures Pending(L', p, idle) && CoalescedBut(L'.blocks, p) && L'.blocks[p].chunk == idle
    ensures p + L'.blocks[p].size == n && (FreeAt(L'.blocks, n) <==> FreeAt(L.blocks, n))
    ensures FreeAt(L.blocks, PrevBlock(L.blocks, h)) ==> p != h && Adjacent(L.blocks, p, h)
    ensures PrevUsed(L'.blocks, p)
  {
    InsideChunk(L.chunks, L.blocks, h);
    if FreeAt(L.blocks, PrevBlock(L.blocks, h)) {
      FreePrev(L, h, p);
      MergePending(L, L', p, h, h, p, idle);
      MergedPrevUsed(L, p, h);
    } else {
      PrevNotFree(L, h);
    }
  }

  lemma MergedCoalesced(L: Layout, h: int, n: int)
    requires Tiling(L.chunks, L.blocks) && CoalescedBut(L.blocks, h) && PrevUsed(L.blocks, h)
    requires Adjacent(L.blocks, h, n) && !L.blocks[n].alloc
    ensures Coalesced(Merge(L.blocks, h, n))
  {
    var blocks' := Merge(L.blocks, h, n);
    InsideChunk(L.chunks, L.blocks, h);
    InsideChunk(L.chunks, L.blocks, n);
    forall a | a in blocks' ensures NotBothFree(blocks', a) {
      if a == h {
        assert NotBothFree(L.blocks, n);
      } else {
        assert NotBothFree(L.blocks, a);
        InsideChunk(L.chunks, L.blocks, a);
        assert BlocksApart(L.blocks, a, h) && BlocksApart(L.blocks, h, a) && BlocksApart(L.blocks, n, a);
      }
    }
  }

  lemma JoinNextResult(L: Layout, L': Layout, h: int, n: int, idle: int)
    requires Pending(L, h, idle) && CoalescedBut(L.blocks, h) && idle == L.blocks[h].chunk
    requires PrevUsed(L.blocks, h) && h + L.blocks[h].size == n && L' == JoinNext(L, h, n)
    ensures Pending(L', h, idle) && Coalesced(L'.blocks) && L'.blocks[h].chunk == idle
    ensures FreeAt(L.blocks, n) ==> n + HDRSIZE in L.free
  {
    if FreeAt(L.blocks, n) {
      MergePending(L, L', h, n, h, n, idle);
      MergedCoalesced(L, h, n);
    } else {
      forall a | a in L.blocks ensures NotBothFree(L.blocks, a) {}
    }
  }

  /** A sound heap, but for a chunk that may be one free block. */
  ghost predicate Joined(L: Layout, idle: int) {
    && Tiling(L.chunks, L.blocks)
    && NodesFree(L.blocks, L.free) && Distinct(L.free) && Listed(L.blocks, L.free, 0)
    && Coalesced(L.blocks) && NoIdle(L, idle) && idle in L.chunks
  }

  lemma PushJoined(L: Layout, p: int, idle: int)
    requires Pending(L, p, idle) && Coalesced(L.blocks) && idle == L.blocks[p].chunk
    ensures Joined(L.(free := [p + HDRSIZE] + L.free), idle)
  {
    var L', f := L.(free := [p + HDRSIZE] + L.free), p + HDRSIZE;
    InsideChunk(L.chunks, L.blocks, p);
    forall x | x in L'.free ensures x - HDRSIZE in L.blocks && !L.blocks[x - HDRSIZE].alloc {
      assert x == f || x in L.free;
    }
    forall c | c in L'.chunks && c != idle ensures Busy(L', c) {
      assert Busy(L, c);
    }
  }

  lemma JoinKeeps(L: Layout, L1: Layout, L2: Layout, h: int, p: int, n: int, idle: int)
    requires Pending(L, h, idle) && CoalescedBut(L.blocks, h) && idle == L.blocks[h].chunk
    requires p == Start(L.blocks, h) && n == h + L.blocks[h].size
    requires L1 == JoinPrev(L, h) && L2 == JoinNext(L1, p, n)
    ensures Pending(L2, p, idle) && Coalesced(L2.blocks) && idle == L2.blocks[p].chunk
  {
    JoinPrevResult(L, L1, h, p, n, idle);
    JoinNextResult(L1, L2, p, n, idle);
  }

  /** What both merges give. */
  lemma Joining(L: Layout, L1: Layout, L2: Layout, h: int, p: int, n: int, idle: int)
    requires Pending(L, h, idle) && CoalescedBut(L.blocks, h) && idle == L.blocks[h].chunk
    requires p == Start(L.blocks, h) && n == h + L.blocks[h].size
    requires L1 == JoinPrev(L, h) && L2 == JoinNext(L1, p, n)
    ensures Pending(L2, p, idle) && Coalesced(L2.blocks) && idle == L2.blocks[p].chunk && 0 !in L2.blocks
    ensures Coalesce(L, h) == L2.(free := [p + HDRSIZE] + L2.free)
  {
    JoinKeeps(L, L1, L2, h, p, n, idle);
    NullIsNoBlock(L2);
  }

  lemma CoalesceKeeps(L: Layout, h: int, idle: int)
    requires Pending(L, h, idle) && CoalescedBut(L.blocks, h) && idle == L.blocks[h].chunk
    ensures Joined(Coalesce(L, h), idle)
  {
    var p, n := Start(L.blocks, h), h + L.blocks[h].size;
    var L1 := JoinPrev(L, h);
    var L2 := JoinNext(L1, p, n);
    Joining(L, L1, L2, h, p, n, idle);
    PushJoined(L2, p, idle);
  }

  lemma DropLists(blocks: Blocks, free: seq<int>, f: int)
    requires NodesFree(blocks, free) && Distinct(free) && Listed(blocks, free, 0)
    ensures var free' := Without(free, f + HDRSIZE);
      NodesFree(blocks - {f}, free') && Distinct(free') && Listed(blocks - {f}, free', 0)
  {
    WithoutMembers(free, f + HDRSIZE);
  }

  lemma DropCoalesced(blocks: Blocks, f: int)
    requires Coalesced(blocks)
    ensures Coalesced(blocks - {f})
  {
    forall a | a in blocks - {f} ensures NotBothFree(blocks - {f}, a) {
      assert NotBothFree(blocks, a);
    }
  }

  lemma DropIdleKeeps(L: Layout, L': Layout, c: int, f: int)
    requires Joined(L, c) && f == c + PAGEHDRSIZE && f in L.blocks && Idle(L.chunks, L.blocks, c)
    requires L' == DropChunk(L.(free := Without(L.free, f + HDRSIZE)), c)
    ensures HeapOk(L')
  {
    DropChunkTiling(L.chunks, L.blocks, c);
    DropLists(L.blocks, L.free, f);
    DropCoalesced(L.blocks, f);
    forall d | d in L'.chunks ensures Busy(L', d) {
      assert ChunkOk(L.chunks, L.blocks, d) && Busy(L, d);
    }
  }

  lemma DropKeeps(L: Layout, c: int)
    requires Joined(L, c)
    ensures HeapOk(DropIfIdle(L, c))
    ensures c + PAGEHDRSIZE in L.blocks
    ensures Idle(L.chunks, L.blocks, c) ==> c + PAGEHDRSIZE + HDRSIZE in L.free
  {
    assert ChunkOk(L.chunks, L.blocks, c);
    InsideChunk(L.chunks, L.blocks, c + PAGEHDRSIZE);
    if Idle(L.chunks, L.blocks, c) {
      DropIdleKeeps(L, DropIfIdle(L, c), c, c + PAGEHDRSIZE);
    } else {
      forall d | d in L.chunks ensures Busy(L, d) {}
    }
  }

  /** The walk over the page list of `L0` has passed `i` chunks: either the idle chunk has been
      dropped, or it is still ahead. */
  ghost predicate Swept(L0: Layout, L: Layout, i: nat, dropped: bool, idle: int)
    requires Joined(L0, idle)
  {
    && i <= |L.order| && idle + PAGEHDRSIZE in L0.blocks
    && (dropped ==> L == DropIfIdle(L0, idle) && Idle(L0.chunks, L0.blocks, idle))
    && (!dropped ==> L == L0)
    && (!dropped && Idle(L0.chunks, L0.blocks, idle) ==> idle !in L0.order[..i])
  }

  lemma SweepVisit(L0: Layout, L: Layout, i: nat, dropped: bool, idle: int, pc: int)
    requires Joined(L0, idle) && Swept(L0, L, i, dropped, idle)
    requires i < |L.order| && pc == L.order[i] && pc in L.chunks && Distinct(L.order)
    ensures pc + PAGEHDRSIZE in L.blocks
    ensures Idle(L.chunks, L.blocks, pc) ==> !dropped && pc == idle && pc + PAGEHDRSIZE + HDRSIZE in L.free
    ensures Idle(L.chunks, L.blocks, pc) ==> Swept(L0, DropIfIdle(L, pc), i, true, idle)
    ensures !Idle(L.chunks, L.blocks, pc) ==> DropIfIdle(L, pc) == L && Swept(L0, L, i + 1, dropped, idle)
  {
    DropKeeps(L0, idle);
    assert ChunkOk(L.chunks, L.blocks, pc);
    if dropped {
      assert Busy(L, pc);
    } else {
      assert pc != idle ==> Busy(L, pc);
    }
  }

  /** Giving back a used block keeps the heap sound. */
  lemma ReleaseKeeps(L: Layout, h: int)
    requires HeapOk(L) && h in L.blocks && L.blocks[h].alloc
    ensures HeapOk(Release(L, h))
  {
    var L0, c := L.(blocks := Flag(L.blocks, h, false)), L.blocks[h].chunk;
    FlagPending(L, h);
    CoalesceKeeps(L0, h, c);
    DropKeeps(Coalesce(L0, h), c);
  }
}
