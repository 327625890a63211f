/** The allocator: boundary tags, an intrusive free list and a list of page chunks, all kept in
    the words of mapped memory. The ghost field `layout` is what those words mean. */
module Allocators {
  import opened Machine
  import opened Sequences
  import opened LinkedWords
  import opened Layouts
  import opened HeapImage
  import opened MallocSpec
  import opened HeapReference
  import opened MemLibs
  import opened Outcomes

  function EmptyLayout(): Layout { Layout(map[], [], map[], []) }

  /** The pages of all chunks. */
  ghost function PagesOf(chunks: Chunks): set<int> {
    set c, p | c in chunks && p in PageRange(c, chunks[c]) :: p
  }

  /** What the system hands out lies outside every chunk. */
  lemma RegionIsFresh(m: Memory, L: Layout, p: int, sz: int)
    requires Tiling(L.chunks, L.blocks) && Mapped(m, L.chunks)
    requires Unused(m, p, sz) && sz > 0 && sz % APAGE_SIZE == 0
    ensures FreshRegion(L.chunks, p, sz)
  {
    forall d | d in L.chunks ensures d + L.chunks[d] <= p || p + sz <= d {
      assert ChunkOk(L.chunks, L.blocks, d);
      PageIsOwn(p);
      PageIsOwn(d);
      assert WordIn(m, L.chunks, d, p) && WordIn(m, L.chunks, d, d);
    }
  }

  lemma RegionWords(m: Memory, L: Layout, p: int, sz: int)
    requires Mapped(m, L.chunks)
    ensures Mapped(m + Zeros(p, sz), L.chunks[p := sz])
  {
    var chunks' := L.chunks[p := sz];
    forall c, x | c in chunks' ensures WordIn(m + Zeros(p, sz), chunks', c, x) {
      assert c in L.chunks ==> WordIn(m, L.chunks, c, x);
      assert WordAligned(x) <==> x % 8 == 0;
    }
  }

  lemma HeadElsewhere(m: Memory, L: Layout, freeHead: int, head: int, c: int, sz: int)
    requires Image(m, freeHead, head, L, 0) && FreshRegion(L.chunks, c, sz) && head != 0
    ensures head in m && (head < c || c + sz <= head)
  {
    EndOfList(m, L.order, head, 0);
    NodeNeighbours(m, L.order, head, 0);
    assert head in L.order && ChunkOk(L.chunks, L.blocks, head);
  }

  /** All that mapping a region gives. */
  lemma RegionOk(m: Memory, m': Memory, freeHead: int, pageHead: int, L: Layout, p: int, sz: int)
    requires Image(m, freeHead, pageHead, L, 0)
    requires Unused(m, p, sz) && sz > 0 && sz % APAGE_SIZE == 0 && m' == m + Zeros(p, sz)
    ensures Image(m', freeHead, pageHead, L, 0) && LiveKept(m, m', L.blocks, 0)
    ensures FreshRegion(L.chunks, p, sz) && Mapped(m', L.chunks[p := sz])
    ensures 0 !in L.blocks
  {
    RegionIsFresh(m, L, p, sz);
    RegionWords(m, L, p, sz);
    MoreWords(m, m', freeHead, pageHead, L);
    NullIsNoBlock(L);
  }

  /** The order of the header writes does not matter. */
  lemma HeaderWrites(m: Memory, head: int, c: int, sz: int, f: int)
    requires (head != 0 ==> head != c + 16 && head != c + 24) && f == c + PAGEHDRSIZE
    ensures var m1 := m[c := 0][c + 8 := head][c + 16 := sz][c + 24 := c + sz];
      ChunkWrites(m, head, c, sz) == (if head != 0 then m1[head := c] else m1)[f := sz - PAGEHDRSIZE][f + 8 := 0]
  {
  }

  /** The new block's header is written, and its footer is mapped. */
  lemma NewBlockReady(m: Memory, L: Layout, h: int, c: int, sz: int)
    requires Tags(m, L.blocks, h) && Mapped(m, L.chunks) && Tiling(L.chunks, L.blocks)
    requires h == c + PAGEHDRSIZE && c in L.chunks && L.chunks[c] == sz
    requires h in L.blocks && L.blocks[h] == Block(sz - PAGEHDRSIZE, false, c)
    ensures h in m && m[h] == sz - PAGEHDRSIZE >= FDRSIZE && h + m[h] - FDRSIZE in m
  {
    assert Tag(m, L.blocks, h, h) && ChunkOk(L.chunks, L.blocks, c);
    ChunkWords(m, L.chunks, c);
  }

  /** The mapped pages are those of the chunks, and apart from them the lost ones. */
  ghost predicate Owns(pages: set<int>, chunks: Chunks, lost: set<int>) {
    forall p {:trigger OwnedOk(pages, chunks, lost, p)} :: OwnedOk(pages, chunks, lost, p)
  }

  ghost predicate OwnedOk(pages: set<int>, chunks: Chunks, lost: set<int>, p: int) {
    && (p in pages <==> p in PagesOf(chunks) || p in lost)
    && !(p in PagesOf(chunks) && p in lost)
  }

  lemma OwnsIs(pages: set<int>, chunks: Chunks, lost: set<int>)
    requires Owns(pages, chunks, lost)
    ensures pages == PagesOf(chunks) + lost && PagesOf(chunks) !! lost
  {
    forall p ensures (p in pages <==> p in PagesOf(chunks) + lost) && !(p in PagesOf(chunks) && p in lost) {
      assert OwnedOk(pages, chunks, lost, p);
    }
  }

  lemma OwnsMore(pages: set<int>, pages': set<int>, L: Layout, lost: set<int>, p: int, sz: int)
    requires Owns(pages, L.chunks, lost) && pages' == pages + PageRange(p, sz) && pages !! PageRange(p, sz)
    requires Tiling(L.chunks, L.blocks) && FreshRegion(L.chunks, p, sz)
    ensures Owns(pages', L.chunks[p := sz], lost)
  {
    OwnsIs(pages, L.chunks, lost);
    AddPages(L, p, sz);
  }

  lemma OwnsLess(pages: set<int>, chunks: Chunks, blocks: Blocks, lost: set<int>, c: int, rest: Chunks)
    requires Owns(pages, chunks, lost) && Tiling(chunks, blocks) && c in chunks && rest == chunks - {c}
    ensures PageRange(c, chunks[c]) <= pages
    ensures Owns(pages - PageRange(c, chunks[c]), rest, lost)
  {
    OwnsIs(pages, chunks, lost);
    PagesOfDrop(chunks, blocks, c, rest);
  }

  lemma AddPages(L: Layout, p: int, sz: int)
    requires Tiling(L.chunks, L.blocks) && FreshRegion(L.chunks, p, sz)
    ensures PagesOf(L.chunks[p := sz]) == PagesOf(L.chunks) + PageRange(p, sz)
  {
    AddChunkTiling(L.chunks, L.blocks, p, sz);
    PagesOfAdd(L.chunks, p, sz);
  }

  lemma IdleClear(L: Layout, c: int)
    requires Tiling(L.chunks, L.blocks) && c in L.chunks
    requires c + PAGEHDRSIZE in L.blocks && Idle(L.chunks, L.blocks, c)
    ensures Clear(L.blocks, 0, c, c + L.chunks[c])
  {
    DropChunkTiling(L.chunks, L.blocks, c);
    forall a | a in L.blocks && L.blocks[a].alloc
      ensures c + L.chunks[c] <= a || a + L.blocks[a].size <= c
    {
      InsideChunk(L.chunks, L.blocks, a);
      var d := L.blocks[a].chunk;
      assert ChunksApart(L.chunks, c, d) && ChunksApart(L.chunks, d, c);
    }
  }

  lemma PagesOfDrop(chunks: Chunks, blocks: Blocks, c: int, rest: Chunks)
    requires Tiling(chunks, blocks) && c in chunks && rest == chunks - {c}
    ensures PageRange(c, chunks[c]) <= PagesOf(chunks)
    ensures PagesOf(rest) == PagesOf(chunks) - PageRange(c, chunks[c])
  {
    forall d, p | d in chunks && d != c && p in PageRange(d, chunks[d]) ensures p !in PageRange(c, chunks[c]) {
      assert ChunksApart(chunks, c, d) && ChunksApart(chunks, d, c);
    }
    forall p | p in PagesOf(chunks) && p !in PageRange(c, chunks[c]) ensures p in PagesOf(rest) {
      var d :| d in chunks && p in PageRange(d, chunks[d]);
      assert d in rest && p in PageRange(d, rest[d]);
    }
    forall p | p in PagesOf(rest) ensures p in PagesOf(chunks) && p !in PageRange(c, chunks[c]) {
      var d :| d in rest && p in PageRange(d, rest[d]);
      assert d in chunks && d != c && p in PageRange(d, chunks[d]);
    }
  }

  lemma PagesOfAdd(chunks: Chunks, c: int, sz: int)
    requires c !in chunks
    ensures PagesOf(chunks[c := sz]) == PagesOf(chunks) + PageRange(c, sz)
  {
    var chunks' := chunks[c := sz];
    forall p | p in PagesOf(chunks) ensures p in PagesOf(chunks') {
      var d :| d in chunks && p in PageRange(d, chunks[d]);
      assert d in chunks' && p in PageRange(d, chunks'[d]);
    }
    forall p | p in PageRange(c, sz) ensures p in PagesOf(chunks') {
      assert c in chunks' && p in PageRange(c, chunks'[c]);
    }
  }

  /** What the header of a neighbour says. */
  lemma Neighbours(m: Memory, L: Layout, h: int, prev: int, next: int, n: int)
    requires Tiling(L.chunks, L.blocks) && Tags(m, L.blocks, 0) && h in L.blocks && n == h + L.blocks[h].size
    requires prev == PrevBlock(L.blocks, h) && next == NextBlock(L.blocks, h)
    ensures prev != 0 ==> prev + 8 in m && (m[prev + 8] == 0 <==> FreeAt(L.blocks, prev))
    ensures prev == 0 ==> !FreeAt(L.blocks, prev)
    ensures next != 0 ==> next == n && next + 8 in m && (m[next + 8] == 0 <==> FreeAt(L.blocks, n))
    ensures next == 0 ==> !FreeAt(L.blocks, n)
  {
    NullIsNoBlock(L);
    PrevIsBlock(L.chunks, L.blocks, h);
    NextIsBlock(L.chunks, L.blocks, h);
    assert prev != 0 ==> Tag(m, L.blocks, prev, 0);
    assert next != 0 ==> Tag(m, L.blocks, next, 0);
  }

  class Allocator {
    const lib: MemLib
    var freeListHead: int
    var pageListHead: int
    ghost var layout: Layout
    ghost var lost: set<int>    // pages that were already mapped when the heap was initialized

    /** Memory is an image of the layout, up to the footer of block `stale`. */
    ghost predicate Rep(stale: int)
      reads this, lib
    {
      Image(lib.words, freeListHead, pageListHead, layout, stale)
    }

    /** Exactly the pages of the chunks are mapped, and those of heaps that were abandoned. */
    ghost predicate Grounded()
      reads this, lib, lib.pagemap, lib.pagemap.Repr
    {
      && this !in lib.pagemap.Repr && lib.Valid() && !lib.mmapFailed
      && Owns(lib.pagemap.Pages, layout.chunks, lost)
    }

    ghost predicate Valid()
      reads this, lib, lib.pagemap, lib.pagemap.Repr
    {
      Grounded() && Rep(0) && HeapOk(layout)
    }

    constructor (lib: MemLib)
      requires lib.Valid() && !lib.mmapFailed
      ensures Valid() && this.lib == lib && layout == EmptyLayout() && lost == lib.pagemap.Pages
    {
      this.lib := lib;
      freeListHead, pageListHead := 0, 0;
      layout, lost := EmptyLayout(), lib.pagemap.Pages;
      new;
    }

    /** `mm_init` forgets the heap, whose pages stay mapped. */
    method Init()
      requires this !in lib.pagemap.Repr
      requires lib.Valid() && !lib.mmapFailed
      modifies this
      ensures Valid() && layout == EmptyLayout() && lost == lib.pagemap.Pages
    {
      freeListHead, pageListHead := 0, 0;
      layout, lost := EmptyLayout(), lib.pagemap.Pages;
    }

    // ---------------------------------------------------------------- page chunks

    /** The chunk whose blocks `h` lies among, null if there is none. */
    method FindPageChunkForAddr(h: int) returns (pc: int)
      requires PageList(lib.words, layout.chunks, layout.order, pageListHead)
      ensures pc != 0 ==> pc in layout.chunks && pc + PAGEHDRSIZE <= h < pc + layout.chunks[pc]
      ensures pc == 0 ==> forall c :: c in layout.chunks ==> !(c + PAGEHDRSIZE <= h < c + layout.chunks[c])
    {
      ghost var i := 0;
      pc := pageListHead;
      while pc != 0
        invariant 0 <= i <= |layout.order| && pc == At(layout.order, i)
        invariant forall j :: 0 <= j < i ==>
          !(layout.order[j] + PAGEHDRSIZE <= h < layout.order[j] + layout.chunks[layout.order[j]])
        decreases |layout.order| - i
      {
        assert NodeAt(lib.words, layout.order, i) && pc in layout.order;
        assert PageHdr(lib.words, layout.chunks, pc);
        var pageStart := pc + PAGEHDRSIZE;
        var pageEnd := lib.words[pc + 24];
        if h >= pageStart && h < pageEnd { return pc; }
        pc := lib.words[pc + 8];
        i := i + 1;
      }
      EndOfList(lib.words, layout.order, pageListHead, i);
      forall c | c in layout.chunks ensures !(c + PAGEHDRSIZE <= h < c + layout.chunks[c]) {
        assert c in layout.order;
      }
    }

    lemma ChunkUnique(c: int, d: int, h: int)
      requires Tiling(layout.chunks, layout.blocks) && c in layout.chunks && d in layout.chunks
      requires c <= h < c + layout.chunks[c] && d <= h < d + layout.chunks[d]
      ensures c == d
    {
      assert ChunksApart(layout.chunks, c, d) && ChunksApart(layout.chunks, d, c);
    }

    /** Writes the size of block `h` into its footer; the bounds check never aborts. */
    method WriteFooter(h: int, ghost c: int)
      requires Tiling(layout.chunks, layout.blocks)
      requires PageList(lib.words, layout.chunks, layout.order, pageListHead)
      requires c in layout.chunks && c + PAGEHDRSIZE <= h < c + layout.chunks[c] && h in lib.words
      requires lib.words[h] >= FDRSIZE && h + lib.words[h] <= c + layout.chunks[c]
      requires h + lib.words[h] - FDRSIZE in lib.words
      modifies lib`words
      ensures lib.words == old(lib.words)[h + old(lib.words[h]) - FDRSIZE := old(lib.words[h])]
    {
      var f := h + lib.words[h] - FDRSIZE;
      var pc := FindPageChunkForAddr(h);
      if pc != 0 {
        ChunkUnique(c, pc, h);
        assert PageHdr(lib.words, layout.chunks, pc);
        var pageStart := pc + PAGEHDRSIZE;
        var pageEnd := lib.words[pc + 24];
        if f < pageStart || f + FDRSIZE > pageEnd { assert false; }
      }
      lib.Store(f, lib.words[h]);
    }

    // ---------------------------------------------------------------- neighbours

    /** The header of the block that ends where `h` begins, exactly if there is one. */
    method GetPrevBlock(h: int) returns (p: int)
      requires Rep(0) && h in layout.blocks
      ensures p == PrevBlock(layout.blocks, h)
    {
      ghost var c, q := layout.blocks[h].chunk, PrevBlock(layout.blocks, h);
      InsideChunk(layout.chunks, layout.blocks, h);
      PrevIsBlock(layout.chunks, layout.blocks, h);
      if q != 0 { InsideChunk(layout.chunks, layout.blocks, q); }
      assert q != 0 ==> Tag(lib.words, layout.blocks, q, 0);
      assert PageHdr(lib.words, layout.chunks, c);
      var pc := FindPageChunkForAddr(h);
      if pc == 0 { assert false; return 0; }
      ChunkUnique(c, pc, h);
      var pageStart, pageEnd := pc + PAGEHDRSIZE, lib.words[pc + 24];
      var prevF := h - FDRSIZE;
      if prevF < pageStart || prevF + FDRSIZE > pageEnd { return 0; }
      var prevSize := lib.words[prevF];
      if prevSize < HDRSIZE + FDRSIZE || prevSize > pageEnd - pageStart { return 0; }
      p := h - prevSize;
      if p < pageStart || p + HDRSIZE > pageEnd { return 0; }
    }

    /** The header of the block right behind `h` in its chunk, exactly if there is one. */
    method GetNextBlock(h: int) returns (n: int)
      requires Rep(0) && h in layout.blocks
      ensures n == NextBlock(layout.blocks, h)
    {
      ghost var c := layout.blocks[h].chunk;
      NextIsBlock(layout.chunks, layout.blocks, h);
      InsideChunk(layout.chunks, layout.blocks, h);
      assert Tag(lib.words, layout.blocks, h, 0) && PageHdr(lib.words, layout.chunks, c);
      ghost var k := NextBlock(layout.blocks, h);
      if k != 0 { InsideChunk(layout.chunks, layout.blocks, k); }
      var pc := FindPageChunkForAddr(h);
      if pc == 0 { assert false; return 0; }
      ChunkUnique(c, pc, h);
      var pageStart, pageEnd := pc + PAGEHDRSIZE, lib.words[pc + 24];
      var f := h + lib.words[h] - FDRSIZE;
      if f < pageStart || f + FDRSIZE > pageEnd { return 0; }
      n := h + lib.words[h];
      if n >= pageEnd { return 0; }
      if n < pageStart || n + HDRSIZE > pageEnd { return 0; }
    }

    // ---------------------------------------------------------------- free list

    method InsertFreeBlock(bp: int)
      requires bp in lib.words && bp + 8 in lib.words
      requires freeListHead != 0 ==> freeListHead in lib.words
      modifies this`freeListHead, lib`words
      ensures lib.words == PushFront(old(lib.words), old(freeListHead), bp)
      ensures freeListHead == bp
    {
      lib.Store(bp, 0);
      lib.Store(bp + 8, freeListHead);
      if freeListHead != 0 {
        lib.Store(freeListHead, bp);
      }
      freeListHead := bp;
    }

    method RemoveFreeBlock(bp: int)
      requires bp in lib.words && bp + 8 in lib.words
      requires lib.words[bp] != 0 ==> lib.words[bp] + 8 in lib.words
      requires lib.words[bp + 8] != 0 ==> lib.words[bp + 8] in lib.words
      modifies this`freeListHead, lib`words
      ensures lib.words == Remove(old(lib.words), bp)
      ensures freeListHead ==
        if old(lib.words)[bp] == 0 then old(lib.words)[bp + 8] else old(freeListHead)
    {
      var prev, next := lib.words[bp], lib.words[bp + 8];
      if prev != 0 {
        lib.Store(prev + 8, next);
      } else {
        freeListHead := next;
      }
      if next != 0 {
        lib.Store(next, prev);
      }
      lib.Store(bp, 0);
      lib.Store(bp + 8, 0);
    }

    /** The free block at `a` becomes the first of the free list. */
    method Enlist(a: int)
      requires Rep(0) && FreeAt(layout.blocks, a) && a + HDRSIZE !in layout.free
      modifies this`freeListHead, this`layout, lib`words
      ensures Rep(0) && layout == old(layout).(free := [a + HDRSIZE] + old(layout.free))
      ensures AgreeOffLinks(old(lib.words), lib.words, [a + HDRSIZE] + old(layout.free))
      ensures LiveKept(old(lib.words), lib.words, layout.blocks, 0)
    {
      ghost var m := lib.words;
      InsertImage(m, freeListHead, pageListHead, layout, 0, a);
      EndOfList(m, layout.free, freeListHead, 0);
      assert freeListHead != 0 ==> NodeAt(m, layout.free, 0);
      InsertFreeBlock(a + HDRSIZE);
      layout := layout.(free := [a + HDRSIZE] + layout.free);
      KeepLinks(m, lib.words, layout.chunks, layout.blocks, 0, layout.free);
    }

    /** `bp` leaves the free list. */
    method Unlist(bp: int, ghost stale: int)
      requires Rep(stale) && bp in layout.free
      modifies this`freeListHead, this`layout, lib`words
      ensures Rep(stale) && layout == old(layout).(free := Without(old(layout.free), bp))
      ensures AgreeOffLinks(old(lib.words), lib.words, old(layout.free))
      ensures LiveKept(old(lib.words), lib.words, layout.blocks, 0)
      ensures lib.words.Keys == old(lib.words.Keys)
    {
      ghost var m, L := lib.words, layout;
      RemoveImage(m, freeListHead, pageListHead, L, stale, bp);
      NodeNeighbours(m, L.free, freeListHead, IndexOf(L.free, bp));
      RemoveFreeBlock(bp);
      layout := layout.(free := Without(layout.free, bp));
      KeepLinks(m, lib.words, L.chunks, L.blocks, 0, L.free);
    }

    /** The neighbours of chunk `pc` in the page list bypass it. */
    method UnlinkPage(pc: int)
      requires Rep(0) && pc in layout.chunks && pc in lib.words && pc + 8 in lib.words
      modifies this`pageListHead, lib`words
      ensures lib.words == Unlink(old(lib.words), pc) && lib.words.Keys == old(lib.words.Keys)
      ensures pageListHead ==
        if old(lib.words)[pc] == 0 then old(lib.words)[pc + 8] else old(pageListHead)
    {
      NodeNeighbours(lib.words, layout.order, pageListHead, IndexOf(layout.order, pc));
      var prev, next := lib.words[pc], lib.words[pc + 8];
      if prev != 0 {
        lib.Store(prev + 8, next);
      } else {
        pageListHead := next;
      }
      if next != 0 {
        lib.Store(next, prev);
      }
    }

    /** The first listed block that can hold `asize` payload bytes, null if none can. */
    method FindFit(asize: int) returns (bp: int)
      requires Rep(0)
      ensures bp == FirstFit(layout.blocks, layout.free, HDRSIZE + asize + FDRSIZE)
    {
      ghost var i := 0;
      ghost var free := layout.free;
      bp := freeListHead;
      while bp != 0
        invariant 0 <= i <= |free| && bp == At(free, i)
        invariant FirstFit(layout.blocks, free, HDRSIZE + asize + FDRSIZE) ==
          FirstFit(layout.blocks, free[i..], HDRSIZE + asize + FDRSIZE)
        decreases |free| - i
      {
        assert NodeAt(lib.words, free, i) && bp in free;
        var h := bp - HDRSIZE;
        assert Tag(lib.words, layout.blocks, h, 0);
        var totalSize := HDRSIZE + asize + FDRSIZE;
        if lib.words[h + 8] == 0 && lib.words[h] >= totalSize { return; }
        bp := lib.words[bp + 8];
        i := i + 1;
      }
      EndOfList(lib.words, free, freeListHead, i);
    }

    // ---------------------------------------------------------------- split_block

    /** Writes header and footer of a block of `size` bytes at `h`, inside the unlisted block `b`. */
    method WriteTags(h: int, size: int, flag: int, ghost b: int, ghost m: Memory)
      requires Image(m, freeListHead, pageListHead, layout, 0) && b in layout.blocks && b + HDRSIZE !in layout.free
      requires AgreeOff(m, lib.words, b, b + layout.blocks[b].size, [])
      requires b <= h && size >= 48 && h + size <= b + layout.blocks[b].size
      requires h in lib.words && h + 8 in lib.words && h + size - FDRSIZE in lib.words
      modifies lib`words
      ensures lib.words == old(lib.words)[h := size][h + 8 := flag][h + size - FDRSIZE := size]
      ensures AgreeOff(m, lib.words, b, b + layout.blocks[b].size, [])
    {
      ghost var c := layout.blocks[b].chunk;
      InsideChunk(layout.chunks, layout.blocks, b);
      lib.Store(h, size);
      lib.Store(h + 8, flag);
      BlockWriteFrame(m, lib.words, layout, freeListHead, pageListHead, 0, b);
      WriteFooter(h, c);
    }

    /** The tag writes that cut `allocSize` bytes off block `h`. */
    method CutBlock(h: int, allocSize: int, remaining: int)
      requires Rep(0) && h in layout.blocks && h + HDRSIZE !in layout.free
      requires allocSize % 16 == 0 && allocSize >= 48 && remaining >= 48
      requires allocSize + remaining == layout.blocks[h].size
      modifies lib`words, this`layout
      ensures Rep(0)
      ensures layout == old(layout).(blocks := Flag(Split(old(layout.blocks), h, allocSize), h, true))
      ensures AgreeOff(old(lib.words), lib.words, h, h + allocSize + remaining, [])
    {
      ghost var m, L := lib.words, layout;
      SplitWords(m, L, h, allocSize);
      WriteTags(h, allocSize, 1, h, m);
      var next := h + allocSize;
      WriteTags(next, remaining, 0, h, m);
      layout := layout.(blocks := Flag(Split(layout.blocks, h, allocSize), h, true));
      SplitOk(m, lib.words, freeListHead, pageListHead, L, layout, h, allocSize);
    }

    method UseWhole(h: int)
      requires Rep(0) && h in layout.blocks && h + HDRSIZE !in layout.free
      modifies lib`words, this`layout
      ensures Rep(0) && layout == old(layout).(blocks := Flag(old(layout.blocks), h, true))
      ensures AgreeOff(old(lib.words), lib.words, h, h + old(layout.blocks[h].size), [])
    {
      InsideChunk(layout.chunks, layout.blocks, h);
      FlagImage(lib.words, freeListHead, pageListHead, layout, h, true);
      lib.Store(h + 8, 1);
      layout := layout.(blocks := Flag(layout.blocks, h, true));
      FooterImage(lib.words, freeListHead, pageListHead, layout, 0, h);
      WriteFooter(h, layout.blocks[h].chunk);
    }

    method SplitBlock(h: int, asize: int)
      requires Rep(0) && h in layout.blocks && !layout.blocks[h].alloc && h + HDRSIZE !in layout.free
      requires var total := HDRSIZE + asize + FDRSIZE; total % 16 == 0 && 48 <= total <= layout.blocks[h].size
      modifies this`freeListHead, this`layout, lib`words
      ensures Rep(0) && layout == Carve(old(layout), h, HDRSIZE + asize + FDRSIZE)
      ensures Cut(old(layout.blocks), layout, old(layout.free), h, old(layout.blocks[h].size), 16 + asize + 16,
                  old(layout.blocks[h].chunk))
      ensures lib.words.Keys == old(lib.words.Keys)
      ensures LiveKept(old(lib.words), lib.words, old(layout.blocks), 0)
    {
      ghost var m, L := lib.words, layout;
      ClearBlock(L.chunks, L.blocks, 0, h);
      assert Tag(m, L.blocks, h, 0);
      var blockSize := lib.words[h];
      var allocSize := HDRSIZE + asize + FDRSIZE;
      var remaining := blockSize - allocSize;
      CarveCuts(L, h, allocSize, blockSize);
      if remaining >= HDRSIZE + MIN_BLOCK_SIZE + FDRSIZE {
        SplitTiling(L.chunks, L.blocks, h, allocSize);
        CutBlock(h, allocSize, remaining);
        ghost var m1 := lib.words;
        Enlist(h + allocSize);
        KeepLive(m, lib.words, L.chunks, L.blocks, 0, h, h + blockSize, L.free);
      } else {
        UseWhole(h);
        KeepLive(m, lib.words, L.chunks, L.blocks, 0, h, h + blockSize, []);
      }
    }

    // ---------------------------------------------------------------- check_and_unmap_full_pages

    /** Chunk `pc`, whose only block is on no list, leaves the page list and is unmapped. */
    method DropPage(pc: int, pageSize: int)
      requires Grounded() && Rep(0) && pc in layout.chunks && pageSize == layout.chunks[pc]
      requires pc + PAGEHDRSIZE in layout.blocks && Idle(layout.chunks, layout.blocks, pc)
      requires pc + PAGEHDRSIZE + HDRSIZE !in layout.free
      modifies this`freeListHead, this`pageListHead, this`layout
      modifies lib`words, lib`pageCount, lib.pagemap.Repr
      ensures Grounded() && fresh(lib.pagemap.Repr - old(lib.pagemap.Repr)) && Rep(0)
      ensures layout == DropChunk(old(layout), pc)
      ensures LiveKept(old(lib.words), lib.words, old(layout.blocks), 0)
    {
      ghost var m, L := lib.words, layout;
      assert ChunkOk(L.chunks, L.blocks, pc);
      NodeNeighbours(m, L.order, pageListHead, IndexOf(L.order, pc));
      IdleClear(L, pc);
      UnlinkPage(pc);
      ReturnPages(pc, pageSize);
      layout := DropChunk(L, pc);
      DropPageOk(m, lib.words, freeListHead, old(pageListHead), pageListHead, L, layout, pc);
    }

    /** The pages of chunk `pc` go back to the system. */
    method ReturnPages(pc: int, pageSize: int)
      requires Grounded() && Tiling(layout.chunks, layout.blocks)
      requires pc in layout.chunks && pageSize == layout.chunks[pc]
      modifies this`layout, lib`words, lib`pageCount, lib.pagemap.Repr
      ensures Grounded() && fresh(lib.pagemap.Repr - old(lib.pagemap.Repr))
      ensures layout == old(layout).(chunks := old(layout.chunks) - {pc})
      ensures lib.words == Unmapped(old(lib.words), pc, pageSize)
    {
      ghost var rest := layout.chunks - {pc};
      assert ChunkOk(layout.chunks, layout.blocks, pc);
      OwnsLess(lib.pagemap.Pages, layout.chunks, layout.blocks, lost, pc, rest);
      lib.Unmap(pc, pageSize);
      layout := layout.(chunks := rest);
    }

    /** An idle chunk leaves the free list and the page list and is unmapped. */
    method UnmapChunk(pc: int)
      requires Grounded() && Rep(0)
      requires pc in layout.chunks && pc + PAGEHDRSIZE in layout.blocks && Idle(layout.chunks, layout.blocks, pc)
      requires pc + PAGEHDRSIZE + HDRSIZE in layout.free
      modifies this`freeListHead, this`pageListHead, this`layout
      modifies lib`words, lib`pageCount, lib.pagemap.Repr
      ensures Grounded() && fresh(lib.pagemap.Repr - old(lib.pagemap.Repr)) && Rep(0)
      ensures layout == DropIfIdle(old(layout), pc)
      ensures LiveKept(old(lib.words), lib.words, old(layout.blocks), 0)
    {
      assert PageHdr(lib.words, layout.chunks, pc);
      var pageSize := lib.words[pc + 16];
      WithoutMembers(layout.free, pc + PAGEHDRSIZE + HDRSIZE);
      NullIsNoBlock(layout);
      Unlist(pc + PAGEHDRSIZE + HDRSIZE, 0);
      ghost var m1 := lib.words;
      DropPage(pc, pageSize);
      KeepTrans(old(lib.words), m1, lib.words, old(layout.blocks), old(layout.blocks), 0);
    }

    /** One round of the walk over the page list: chunk `pc` is unmapped if it is idle. */
    method VisitChunk(pc: int, ghost i: nat) returns (next: int, ghost gone: bool)
      requires Grounded() && Rep(0) && i < |layout.order| && pc == layout.order[i]
      requires pc + PAGEHDRSIZE in layout.blocks && pc in layout.chunks
      requires Idle(layout.chunks, layout.blocks, pc) ==> pc + PAGEHDRSIZE + HDRSIZE in layout.free
      modifies this`freeListHead, this`pageListHead, this`layout
      modifies lib`words, lib`pageCount, lib.pagemap.Repr
      ensures Grounded() && fresh(lib.pagemap.Repr - old(lib.pagemap.Repr)) && Rep(0)
      ensures gone <==> Idle(old(layout.chunks), old(layout.blocks), pc)
      ensures layout == DropIfIdle(old(layout), pc) && next == At(old(layout.order), i + 1)
      ensures !gone ==> lib.words == old(lib.words)
      ensures gone ==> |layout.order| == |old(layout.order)| - 1 && At(layout.order, i) == next
      ensures LiveKept(old(lib.words), lib.words, old(layout.blocks), 0)
    {
      NodeNeighbours(lib.words, layout.order, pageListHead, i);
      assert PageHdr(lib.words, layout.chunks, pc) && Tag(lib.words, layout.blocks, pc + PAGEHDRSIZE, 0);
      next := lib.words[pc + 8];
      var h := pc + PAGEHDRSIZE;
      var remainingSize := lib.words[pc + 16] - PAGEHDRSIZE;
      gone := false;
      if lib.words[h + 8] == 0 && lib.words[h] == remainingSize {
        UnmapChunk(pc);
        gone := true;
      }
    }

    /** Of all chunks only `idle` may be one free block; if it is, it is unmapped. */
    method CheckAndUnmapFullPages(ghost idle: int)
      requires Grounded() && Rep(0) && Joined(layout, idle)
      modifies this`freeListHead, this`pageListHead, this`layout
      modifies lib`words, lib`pageCount, lib.pagemap.Repr
      ensures Grounded() && fresh(lib.pagemap.Repr - old(lib.pagemap.Repr)) && Rep(0)
      ensures layout == DropIfIdle(old(layout), idle)
      ensures LiveKept(old(lib.words), lib.words, old(layout.blocks), 0)
    {
      ghost var L, dropped := layout, false;
      ghost var i: nat := 0;
      DropKeeps(L, idle);
      assert idle in L.order;
      var pc := pageListHead;
      while pc != 0
        invariant Grounded() && fresh(lib.pagemap.Repr - old(lib.pagemap.Repr)) && Rep(0)
        invariant Swept(L, layout, i, dropped, idle) && pc == At(layout.order, i)
        invariant LiveKept(old(lib.words), lib.words, L.blocks, 0)
        invariant !dropped ==> lib.words == old(lib.words)
        decreases |layout.order| - i
      {
        EndOfList(lib.words, layout.order, pageListHead, i);
        assert pc in layout.order;
        SweepVisit(L, layout, i, dropped, idle, pc);
        ghost var gone;
        pc, gone := VisitChunk(pc, i);
        if gone { dropped := true; } else { i := i + 1; }
      }
      EndOfList(lib.words, layout.order, pageListHead, i);
    }

    // ---------------------------------------------------------------- coalesce

    /** The header of `a` grows over the block `n` behind it; the footer is written later. */
    method Grow(a: int, n: int, ghost stale: int)
      requires Rep(stale) && (stale == 0 || stale == a)
      requires Adjacent(layout.blocks, a, n) && !layout.blocks[a].alloc
      requires a + HDRSIZE !in layout.free && n + HDRSIZE !in layout.free
      modifies this`layout, lib`words
      ensures Rep(a) && layout == old(layout).(blocks := Merge(old(layout.blocks), a, n))
      ensures lib.words.Keys == old(lib.words.Keys)
      ensures LiveKept(old(lib.words), lib.words, old(layout.blocks), 0)
    {
      ghost var m, L := lib.words, layout;
      assert Tag(m, L.blocks, a, stale) && Tag(m, L.blocks, n, stale);
      lib.Store(a, lib.words[a] + lib.words[n]);
      layout := layout.(blocks := Merge(layout.blocks, a, n));
      MergeOk(m, lib.words, freeListHead, pageListHead, L, layout, stale, a, n);
    }

    /** Of the free neighbours `a` and `n`, the listed one `k` leaves the list and `a` grows. */
    method Absorb(a: int, n: int, k: int, ghost h: int, ghost stale: int)
      requires Rep(stale) && (stale == 0 || stale == a)
      requires Adjacent(layout.blocks, a, n) && !layout.blocks[a].alloc
      requires k + HDRSIZE in layout.free && h + HDRSIZE !in layout.free
      requires (k == a && h == n) || (k == n && h == a)
      modifies this`freeListHead, this`layout, lib`words
      ensures Rep(a)
      ensures layout == old(layout).(blocks := Merge(old(layout.blocks), a, n),
                                     free := Without(old(layout.free), k + HDRSIZE))
      ensures lib.words.Keys == old(lib.words.Keys)
      ensures LiveKept(old(lib.words), lib.words, old(layout.blocks), 0)
    {
      ghost var m, L := lib.words, layout;
      WithoutMembers(L.free, k + HDRSIZE);
      NullIsNoBlock(L);
      Unlist(k + HDRSIZE, stale);
      ghost var m1 := lib.words;
      Grow(a, n, stale);
      KeepTrans(m, m1, lib.words, L.blocks, L.blocks, 0);
    }

    /** The footer of the block `h` is brought up to date. */
    method Close(h: int, ghost stale: int)
      requires Rep(stale) && (stale == 0 || stale == h)
      requires h in layout.blocks && h + HDRSIZE !in layout.free
      modifies lib`words
      ensures Rep(0) && LiveKept(old(lib.words), lib.words, layout.blocks, 0)
      ensures lib.words.Keys == old(lib.words.Keys)
    {
      ghost var m := lib.words;
      FooterImage(m, freeListHead, pageListHead, layout, stale, h);
      InsideChunk(layout.chunks, layout.blocks, h);
      WriteFooter(h, layout.blocks[h].chunk);
      FooterOk(m, lib.words, freeListHead, pageListHead, layout, stale, h);
    }

    /** The first merge: the free block `h`, on no list, with its predecessor if that is free. */
    method MergePrev(h: int, prev: int, prevFree: bool, ghost idle: int) returns (k: int, ghost stale: int)
      requires Rep(0) && Pending(layout, h, idle) && CoalescedBut(layout.blocks, h)
      requires idle == layout.blocks[h].chunk && prev == PrevBlock(layout.blocks, h)
      requires prevFree == FreeAt(layout.blocks, prev)
      modifies this`freeListHead, this`layout, lib`words
      ensures k == Start(old(layout.blocks), h) && (stale == 0 || stale == k) && Rep(stale)
      ensures layout == JoinPrev(old(layout), h)
      ensures lib.words.Keys == old(lib.words.Keys)
      ensures UsedKept(old(layout.blocks), layout.blocks, 0)
      ensures LiveKept(old(lib.words), lib.words, old(layout.blocks), 0)
    {
      k, stale := h, 0;
      if prevFree {
        ghost var L := layout;
        NullIsNoBlock(L);
        PrevIsBlock(L.chunks, L.blocks, h);
        JoinPrevResult(L, JoinPrev(L, h), h, prev, h + L.blocks[h].size, idle);
        Absorb(prev, h, prev, h, 0);
        k, stale := prev, prev;
      } else {
        forall a | a in layout.blocks ensures SamePayload(lib.words, lib.words, layout.blocks, a) {}
      }
    }

    /** The second merge: with the block behind, if that is free. */
    method MergeNext(h: int, next: int, nextFree: bool, ghost n: int, ghost idle: int, ghost stale: int)
      returns (ghost stale': int)
      requires Rep(stale) && (stale == 0 || stale == h)
      requires Pending(layout, h, idle) && CoalescedBut(layout.blocks, h) && PrevUsed(layout.blocks, h)
      requires idle == layout.blocks[h].chunk && n == h + layout.blocks[h].size
      requires nextFree == FreeAt(layout.blocks, n) && (nextFree ==> next == n)
      modifies this`freeListHead, this`layout, lib`words
      ensures (stale' == 0 || stale' == h) && Rep(stale')
      ensures layout == JoinNext(old(layout), h, n) && UsedKept(old(layout.blocks), layout.blocks, 0)
      ensures lib.words.Keys == old(lib.words.Keys)
      ensures LiveKept(old(lib.words), lib.words, old(layout.blocks), 0)
    {
      stale' := stale;
      if nextFree {
        ghost var L := layout;
        JoinNextResult(L, JoinNext(L, h, n), h, n, idle);
        Absorb(h, next, next, h, stale);
        stale' := h;
      } else {
        forall a | a in layout.blocks ensures SamePayload(lib.words, lib.words, layout.blocks, a) {}
      }
    }

    /** Both merges. */
    method JoinNeighbours(h: int, ghost idle: int) returns (k: int, ghost stale: int)
      requires Rep(0) && Pending(layout, h, idle) && CoalescedBut(layout.blocks, h)
      requires idle == layout.blocks[h].chunk
      modifies this`freeListHead, this`layout, lib`words
      ensures k == Start(old(layout.blocks), h) && (stale == 0 || stale == k) && Rep(stale)
      ensures layout == JoinNext(JoinPrev(old(layout), h), k, h + old(layout.blocks[h].size))
      ensures lib.words.Keys == old(lib.words.Keys)
      ensures LiveKept(old(lib.words), lib.words, old(layout.blocks), 0)
      ensures UsedKept(old(layout.blocks), layout.blocks, 0)
    {
      ghost var m, L, n := lib.words, layout, h + layout.blocks[h].size;
      var prev := GetPrevBlock(h);
      var next := GetNextBlock(h);
      Neighbours(m, L, h, prev, next, n);
      var prevFree := prev != 0 && lib.words[prev + 8] == 0;
      var nextFree := next != 0 && lib.words[next + 8] == 0;
      k, stale := MergePrev(h, prev, prevFree, idle);
      ghost var m1, L1 := lib.words, layout;
      JoinPrevResult(L, L1, h, k, n, idle);
      NullIsNoBlock(L1);
      stale := MergeNext(k, next, nextFree, n, idle, stale);
      KeepTrans(m, m1, lib.words, L.blocks, L1.blocks, 0);
    }

    /** The merged block gets its footer and enters the list. */
    method CloseAndEnlist(h: int, ghost idle: int, ghost stale: int)
      requires Rep(stale) && (stale == 0 || stale == h)
      requires Pending(layout, h, idle)
      modifies this`freeListHead, this`layout, lib`words
      ensures Rep(0) && layout == old(layout).(free := [h + HDRSIZE] + old(layout.free))
      ensures lib.words.Keys == old(lib.words.Keys)
      ensures LiveKept(old(lib.words), lib.words, old(layout.blocks), 0)
    {
      ghost var m, B := lib.words, layout.blocks;
      NullIsNoBlock(layout);
      Close(h, stale);
      ghost var m1 := lib.words;
      Enlist(h);
      KeepTrans(m, m1, lib.words, B, B, 0);
    }

    /** Then its chunk is unmapped if it is idle. */
    method Finish(h: int, ghost idle: int, ghost stale: int)
      requires Grounded() && Rep(stale) && (stale == 0 || stale == h)
      requires Pending(layout, h, idle) && Coalesced(layout.blocks) && idle == layout.blocks[h].chunk
      modifies this`freeListHead, this`pageListHead, this`layout
      modifies lib`words, lib`pageCount, lib.pagemap.Repr
      ensures Valid() && fresh(lib.pagemap.Repr - old(lib.pagemap.Repr))
      ensures layout == DropIfIdle(old(layout).(free := [h + HDRSIZE] + old(layout.free)), idle)
      ensures LiveKept(old(lib.words), lib.words, old(layout.blocks), 0)
    {
      ghost var m, B := lib.words, layout.blocks;
      PushJoined(layout, h, idle);
      NullIsNoBlock(layout);
      CloseAndEnlist(h, idle, stale);
      assert Grounded();
      ghost var m1 := lib.words;
      DropKeeps(layout, idle);
      CheckAndUnmapFullPages(idle);
      KeepTrans(m, m1, lib.words, B, B, 0);
    }

    /** Block `bp`, just marked free, is merged and listed, and its chunk unmapped if now idle. */
    method Coalesce(bp: int, ghost idle: int)
      requires Grounded() && Rep(0) && Pending(layout, bp - HDRSIZE, idle)
      requires CoalescedBut(layout.blocks, bp - HDRSIZE) && idle == layout.blocks[bp - HDRSIZE].chunk
      modifies this`freeListHead, this`pageListHead, this`layout
      modifies lib`words, lib`pageCount, lib.pagemap.Repr
      ensures Valid() && fresh(lib.pagemap.Repr - old(lib.pagemap.Repr))
      ensures layout == DropIfIdle(MallocSpec.Coalesce(old(layout), bp - HDRSIZE), idle)
      ensures LiveKept(old(lib.words), lib.words, old(layout.blocks), 0)
    {
      ghost var m, L, h0 := lib.words, layout, bp - HDRSIZE;
      ghost var L1, n := JoinPrev(L, h0), h0 + L.blocks[h0].size;
      var h := bp - HDRSIZE;
      ghost var stale;
      h, stale := JoinNeighbours(h, idle);
      Joining(L, L1, layout, h0, h, n, idle);
      assert Grounded();
      ghost var m1, L2 := lib.words, layout;
      Finish(h, idle, stale);
      KeepTrans(m, m1, lib.words, L.blocks, L2.blocks, 0);
    }

    // ---------------------------------------------------------------- mm_malloc

    /** The listed block `bp` is taken off the list and carved. */
    method TakeListed(bp: int, asize: int)
      requires Rep(0) && HeapOk(layout) && bp in layout.free
      requires var total := HDRSIZE + asize + FDRSIZE; total % 16 == 0 && total >= 48 && Fits(layout.blocks, bp, total)
      modifies this`freeListHead, this`layout, lib`words
      ensures Rep(0) && layout == Reuse(old(layout), bp, HDRSIZE + asize + FDRSIZE)
      ensures lib.words.Keys == old(lib.words.Keys)
      ensures LiveKept(old(lib.words), lib.words, old(layout.blocks), 0)
    {
      ghost var m, B := lib.words, layout.blocks;
      UnlistPending(layout, bp);
      NullIsNoBlock(layout);
      Unlist(bp, 0);
      ghost var m1 := lib.words;
      SplitBlock(bp - HDRSIZE, asize);
      KeepTrans(m, m1, lib.words, B, B, 0);
    }

    /** A block for `size` bytes, null exactly for size 0; only the system can refuse. */
    method Malloc(size: int) returns (r: Outcome<int>)
      requires Valid() && size >= 0 && Representable(size)
      modifies this`freeListHead, this`pageListHead, this`layout
      modifies lib, lib.pagemap.Repr
      ensures fresh(lib.pagemap.Repr - old(lib.pagemap.Repr))
      ensures lib.mmapFailed <==> r.Aborted?
      ensures r.Done? ==> Valid() && (r.value == 0 <==> size == 0)
      ensures r.Done? && size == 0 ==> layout == old(layout)
      ensures r.Done? && size > 0 ==> Mallocd(old(layout), layout, size, r.value)
      ensures r.Done? ==> LiveKept(old(lib.words), lib.words, old(layout.blocks), 0)
    {
      if size == 0 {
        forall a | a in layout.blocks ensures SamePayload(lib.words, lib.words, layout.blocks, a) {}
        return Done(0);
      }
      ghost var L := layout;
      var asize := Align(size);
      var totalSize := HDRSIZE + asize + FDRSIZE;
      AlignOk(size);
      NoNullNode(L);
      FirstFitIsFirst(L.blocks, L.free, totalSize);
      var bp := FindFit(asize);
      if bp != 0 {
        TakeListed(bp, asize);
        MallocKeeps(L, layout, size, bp);
        return Done(bp);
      }
      r := MapAndCarve(size, asize);
    }

    /** A new chunk is mapped for the request and carved. */
    method MapAndCarve(size: int, asize: int) returns (r: Outcome<int>)
      requires Valid() && size > 0 && asize == Align(size)
      requires FirstFit(layout.blocks, layout.free, TotalSize(size)) == 0
      modifies this`freeListHead, this`pageListHead, this`layout
      modifies lib, lib.pagemap.Repr
      ensures fresh(lib.pagemap.Repr - old(lib.pagemap.Repr))
      ensures lib.mmapFailed <==> r.Aborted?
      ensures r.Done? ==> Valid() && r.value != 0 && Mallocd(old(layout), layout, size, r.value)
      ensures r.Done? ==> LiveKept(old(lib.words), lib.words, old(layout.blocks), 0)
    {
      ghost var m, L := lib.words, layout;
      AlignOk(size);
      MapSizeOk(size);
      var totalSize := HDRSIZE + asize + FDRSIZE;
      var need := totalSize + PAGEHDRSIZE;
      var mapsize := (need + APAGE_SIZE - 1) / APAGE_SIZE * APAGE_SIZE;
      var region :- MapChunk(mapsize);
      ghost var m1, L1 := lib.words, layout;
      ExtendPending(L, region, mapsize);
      var h := region + PAGEHDRSIZE;
      SplitBlock(h, asize);
      KeepTrans(m, m1, lib.words, L.blocks, L1.blocks, 0);
      MallocKeeps(L, layout, size, h + HDRSIZE);
      r := Done(h + HDRSIZE);
    }

    /** The system hands out a region; the heap is as before. */
    method MapRegion(mapsize: int) returns (r: Outcome<int>)
      requires Valid() && mapsize > 0 && mapsize % APAGE_SIZE == 0
      modifies lib, lib.pagemap.Repr
      ensures fresh(lib.pagemap.Repr - old(lib.pagemap.Repr)) && this !in lib.pagemap.Repr
      ensures lib.mmapFailed <==> r.Aborted?
      ensures r.Done? ==> lib.Valid() && Rep(0) && 0 !in layout.blocks
      ensures r.Done? ==> FreshRegion(layout.chunks, r.value, mapsize)
      ensures r.Done? ==> Owns(lib.pagemap.Pages, layout.chunks[r.value := mapsize], lost)
      ensures r.Done? ==> Mapped(lib.words, layout.chunks[r.value := mapsize])
      ensures r.Done? ==> LiveKept(old(lib.words), lib.words, layout.blocks, 0)
    {
      ghost var m := lib.words;
      r := lib.Map(mapsize);
      if r.Done? {
        RegionOk(m, lib.words, freeListHead, pageListHead, layout, r.value, mapsize);
        OwnsMore(old(lib.pagemap.Pages), lib.pagemap.Pages, layout, lost, r.value, mapsize);
      }
    }

    /** A new region becomes the first chunk, cut as one free block that is on no list. */
    method MapChunk(mapsize: int) returns (r: Outcome<int>)
      requires Valid() && mapsize > 0 && mapsize % APAGE_SIZE == 0
      modifies this`freeListHead, this`pageListHead, this`layout
      modifies lib, lib.pagemap.Repr
      ensures fresh(lib.pagemap.Repr - old(lib.pagemap.Repr))
      ensures lib.mmapFailed <==> r.Aborted?
      ensures r.Done? ==> FreshRegion(old(layout.chunks), r.value, mapsize)
      ensures r.Done? ==> layout == WithChunk(old(layout), r.value, mapsize)
      ensures r.Done? ==> Grounded() && Rep(0)
      ensures r.Done? ==> LiveKept(old(lib.words), lib.words, old(layout.blocks), 0)
    {
      ghost var m, L := lib.words, layout;
      var region :- MapRegion(mapsize);
      ghost var m1 := lib.words;
      LayChunk(region, mapsize);
      KeepTrans(m, m1, lib.words, L.blocks, L.blocks, 0);
      r := Done(region);
    }

    /** The header fields and header tags for a new chunk at `pc`. */
    method WriteHeaders(pc: int, mapsize: int)
      requires pc in lib.words && pc + 8 in lib.words && pc + 16 in lib.words && pc + 24 in lib.words
      requires pc + 32 in lib.words && pc + 40 in lib.words
      requires pageListHead != 0 ==> pageListHead in lib.words && (pageListHead < pc || pc + mapsize <= pageListHead)
      requires mapsize >= 64
      modifies this`pageListHead, lib`words
      ensures lib.words == ChunkWrites(old(lib.words), old(pageListHead), pc, mapsize)
      ensures pageListHead == pc && lib.words.Keys == old(lib.words.Keys)
    {
      ghost var m := lib.words;
      HeaderWrites(m, pageListHead, pc, mapsize, pc + PAGEHDRSIZE);
      lib.Store(pc, 0);
      lib.Store(pc + 8, pageListHead);
      lib.Store(pc + 16, mapsize);
      lib.Store(pc + 24, pc + mapsize);
      if pageListHead != 0 {
        lib.Store(pageListHead, pc);
      }
      pageListHead := pc;
      var h := pc + PAGEHDRSIZE;
      lib.Store(h, mapsize - PAGEHDRSIZE);
      lib.Store(h + 8, 0);
    }

    /** The headers of the new chunk and of its block, whose footer is still missing. */
    method LayHeaders(pc: int, mapsize: int)
      requires Rep(0) && FreshRegion(layout.chunks, pc, mapsize)
      requires Mapped(lib.words, layout.chunks[pc := mapsize])
      modifies this`pageListHead, this`layout, lib`words
      ensures layout == WithChunk(old(layout), pc, mapsize) && Rep(pc + PAGEHDRSIZE)
      ensures pageListHead == pc && lib.words == ChunkWrites(old(lib.words), old(pageListHead), pc, mapsize)
      ensures lib.words.Keys == old(lib.words.Keys)
    {
      ghost var m, L, head := lib.words, layout, pageListHead;
      ChunkWords(m, L.chunks[pc := mapsize], pc);
      if head != 0 { HeadElsewhere(m, L, freeListHead, head, pc, mapsize); }
      WriteHeaders(pc, mapsize);
      AddChunkImage(m, freeListHead, head, L, pc, mapsize);
      layout := WithChunk(layout, pc, mapsize);
    }

    /** A mapped region is made a chunk of one free block. */
    method LayChunk(pc: int, mapsize: int)
      requires Rep(0) && FreshRegion(layout.chunks, pc, mapsize)
      requires Mapped(lib.words, layout.chunks[pc := mapsize])
      modifies this`pageListHead, this`layout, lib`words
      ensures layout == WithChunk(old(layout), pc, mapsize) && Rep(0)
      ensures lib.words.Keys == old(lib.words.Keys)
      ensures LiveKept(old(lib.words), lib.words, old(layout.blocks), 0)
    {
      ghost var m, L, head := lib.words, layout, pageListHead;
      LayHeaders(pc, mapsize);
      ghost var m1 := lib.words;
      var h := pc + PAGEHDRSIZE;
      NewBlockReady(m1, layout, h, pc, mapsize);
      WriteFooter(h, pc);
      NewChunkOk(m, m1, lib.words, freeListHead, head, L, layout, pc, mapsize);
    }

    // ---------------------------------------------------------------- mm_free

    /** The used block with payload `bp` is given back; null is ignored. */
    method Free(bp: int)
      requires Valid()
      requires bp == 0 || (bp - HDRSIZE in layout.blocks && layout.blocks[bp - HDRSIZE].alloc)
      modifies this`freeListHead, this`pageListHead, this`layout
      modifies lib`words, lib`pageCount, lib.pagemap.Repr
      ensures Valid() && fresh(lib.pagemap.Repr - old(lib.pagemap.Repr))
      ensures layout == if bp == 0 then old(layout) else Release(old(layout), bp - HDRSIZE)
      ensures LiveKept(old(lib.words), lib.words, old(layout.blocks), bp - HDRSIZE)
    {
      if bp == 0 {
        forall a | a in layout.blocks ensures SamePayload(lib.words, lib.words, layout.blocks, a) {}
        return;
      }
      ghost var m, L := lib.words, layout;
      var h := bp - HDRSIZE;
      ghost var idle := layout.blocks[h].chunk;
      FlagPending(L, h);
      MarkFree(h);
      ghost var m1, L1 := lib.words, layout;
      Coalesce(bp, idle);
      NullIsNoBlock(L1);
      KeepTrans(m, m1, lib.words, L.blocks, L1.blocks, h);
    }

    method MarkFree(h: int)
      requires Rep(0) && h in layout.blocks && h + HDRSIZE !in layout.free
      modifies lib`words, this`layout
      ensures Rep(0) && layout == old(layout).(blocks := Flag(old(layout.blocks), h, false))
      ensures lib.words.Keys == old(lib.words.Keys)
      ensures LiveKept(old(lib.words), lib.words, old(layout.blocks), h)
    {
      ghost var m, L := lib.words, layout;
      InsideChunk(L.chunks, L.blocks, h);
      FlagImage(m, freeListHead, pageListHead, L, h, false);
      lib.Store(h + 8, 0);
      layout := layout.(blocks := Flag(layout.blocks, h, false));
      ghost var m1 := lib.words;
      FooterImage(m1, freeListHead, pageListHead, layout, 0, h);
      WriteFooter(h, layout.blocks[h].chunk);
      ClearBlock(L.chunks, L.blocks, h, h);
      KeepLive(m, lib.words, L.chunks, L.blocks, h, h, h + L.blocks[h].size, []);
    }
  }
}
