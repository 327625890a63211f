/** How raw memory represents a block layout, and how each group of writes the allocator
    makes moves memory from the image of one layout to the image of the next. */
module HeapImage {
  import opened Machine
  import opened Sequences
  import opened LinkedWords
  import opened Layouts

  /** `order` is the page list and `free` the free list (payload pointers), both from the head. */
  datatype Layout = Layout(chunks: Chunks, order: seq<int>, blocks: Blocks, free: seq<int>)

  // ---------------------------------------------------------------- the representation

  /** Header and footer of the block at `a`; the footer of block `stale` is not looked at. */
  ghost predicate Tag(m: Memory, blocks: Blocks, a: int, stale: int)
    requires a in blocks
  {
    var b, f := blocks[a], a + blocks[a].size - FDRSIZE;
    && a in m && m[a] == b.size
    && a + 8 in m && m[a + 8] == (if b.alloc then 1 else 0)
    && f in m && (a == stale || m[f] == b.size)
  }

  ghost predicate Tags(m: Memory, blocks: Blocks, stale: int) {
    forall a {:trigger Tag(m, blocks, a, stale)} :: a in blocks ==> Tag(m, blocks, a, stale)
  }

  ghost predicate WordIn(m: Memory, chunks: Chunks, c: int, x: int)
    requires c in chunks
  {
    c <= x < c + chunks[c] && x % 8 == 0 ==> x in m
  }

  /** Every word of every chunk can be accessed. */
  ghost predicate Mapped(m: Memory, chunks: Chunks) {
    forall c, x {:trigger WordIn(m, chunks, c, x)} :: c in chunks ==> WordIn(m, chunks, c, x)
  }

  ghost predicate PageHdr(m: Memory, chunks: Chunks, c: int)
    requires c in chunks
  {
    && c + 16 in m && m[c + 16] == chunks[c]
    && c + 24 in m && m[c + 24] == c + chunks[c]
  }

  ghost predicate Members(order: seq<int>, chunks: Chunks) {
    (forall c :: c in order ==> c in chunks) && (forall c :: c in chunks ==> c in order)
  }

  /** The page list holds exactly the chunks, with their sizes and ends. */
  ghost predicate PageList(m: Memory, chunks: Chunks, order: seq<int>, head: int) {
    && DList(m, order, head)
    && Members(order, chunks)
    && (forall c {:trigger PageHdr(m, chunks, c)} :: c in chunks ==> PageHdr(m, chunks, c))
  }

  ghost predicate NodesFree(blocks: Blocks, free: seq<int>) {
    forall n :: n in free ==> n - HDRSIZE in blocks && !blocks[n - HDRSIZE].alloc
  }

  /** Memory with the two list heads is an image of `L`, up to the footer of block `stale`. */
  ghost predicate Image(m: Memory, freeHead: int, pageHead: int, L: Layout, stale: int) {
    && Tiling(L.chunks, L.blocks)
    && Tags(m, L.blocks, stale)
    && Mapped(m, L.chunks)
    && PageList(m, L.chunks, L.order, pageHead)
    && DList(m, L.free, freeHead)
    && NodesFree(L.blocks, L.free)
  }

  // ---------------------------------------------------------------- what writes leave alone

  /** Outside `[lo, hi)` and outside the links of `s` memory is unchanged. */
  ghost predicate AgreeOff(m: Memory, m': Memory, lo: int, hi: int, s: seq<int>) {
    && m'.Keys == m.Keys
    && forall x :: x in m && !(lo <= x < hi) && !IsLink(s, x) ==> m'[x] == m[x]
  }

  lemma WordMapped(m: Memory, chunks: Chunks, blocks: Blocks, a: int, x: int)
    requires Tiling(chunks, blocks) && Mapped(m, chunks) && a in blocks
    requires a <= x < a + blocks[a].size && x % 8 == 0
    ensures x in m
  {
    InsideChunk(chunks, blocks, a);
    assert WordIn(m, chunks, blocks[a].chunk, x);
  }

  lemma MappedFrame(m: Memory, m': Memory, chunks: Chunks)
    requires Mapped(m, chunks) && m'.Keys == m.Keys
    ensures Mapped(m', chunks)
  {
    forall c, x | c in chunks ensures WordIn(m', chunks, c, x) {
      assert WordIn(m, chunks, c, x);
    }
  }

  lemma HeaderNotInBlock(chunks: Chunks, blocks: Blocks, c: int, a: int)
    requires Tiling(chunks, blocks) && c in chunks && a in blocks
    ensures a + blocks[a].size <= c || c + PAGEHDRSIZE <= a
  {
    var d := blocks[a].chunk;
    InsideChunk(chunks, blocks, a);
    assert ChunksApart(chunks, c, d) && ChunksApart(chunks, d, c) && ChunkOk(chunks, blocks, c);
  }

  /** Writes inside blocks leave the page list intact. */
  lemma PageListFrame(m: Memory, m': Memory, chunks: Chunks, order: seq<int>, head: int)
    requires PageList(m, chunks, order, head)
    requires forall c, x {:trigger c in chunks, x in m} ::
      c in chunks && x in m && c <= x < c + PAGEHDRSIZE ==> x in m' && m'[x] == m[x]
    ensures PageList(m', chunks, order, head)
  {
    forall x | x in m && IsLink(order, x)
      ensures x in m' && m'[x] == m[x]
    {
      var c := if x in order then x else x - 8;
      assert c in chunks;
    }
    ListFrame(m, m', order, head);
    forall c | c in chunks ensures PageHdr(m', chunks, c) {
      assert PageHdr(m, chunks, c);
    }
  }

  ghost predicate IsTag(blocks: Blocks, a: int, x: int)
    requires a in blocks
  {
    x == a || x == a + 8 || x == a + blocks[a].size - FDRSIZE
  }

  /** The first two payload words of a block are no tag of any block. */
  lemma LinkNotTag(chunks: Chunks, blocks: Blocks, a: int, x: int, n: int)
    requires Tiling(chunks, blocks) && a in blocks && IsTag(blocks, a, x)
    requires n - HDRSIZE in blocks
    ensures x != n && x != n + 8
  {
    InsideChunk(chunks, blocks, a);
    InsideChunk(chunks, blocks, n - HDRSIZE);
    assert BlocksApart(blocks, a, n - HDRSIZE) && BlocksApart(blocks, n - HDRSIZE, a);
  }

  lemma LinkNotHeader(chunks: Chunks, blocks: Blocks, c: int, x: int, n: int)
    requires Tiling(chunks, blocks) && c in chunks && c <= x < c + PAGEHDRSIZE
    requires n - HDRSIZE in blocks
    ensures x != n && x != n + 8
  {
    InsideChunk(chunks, blocks, n - HDRSIZE);
    HeaderNotInBlock(chunks, blocks, c, n - HDRSIZE);
  }

  lemma TagsOffLinks(m: Memory, m': Memory, chunks: Chunks, blocks: Blocks, s: seq<int>, stale: int)
    requires Tiling(chunks, blocks) && Tags(m, blocks, stale)
    requires AgreeOffLinks(m, m', s) && NodesFree(blocks, s)
    ensures Tags(m', blocks, stale)
  {
    forall a | a in blocks ensures Tag(m', blocks, a, stale) {
      assert Tag(m, blocks, a, stale);
      forall x | IsTag(blocks, a, x) ensures !IsLink(s, x) {
        if x in s { LinkNotTag(chunks, blocks, a, x, x); }
        if x - 8 in s { LinkNotTag(chunks, blocks, a, x, x - 8); }
      }
      assert IsTag(blocks, a, a) && IsTag(blocks, a, a + 8);
      assert IsTag(blocks, a, a + blocks[a].size - FDRSIZE);
    }
  }

  /** Link words are neither tags nor chunk headers. */
  lemma LinksFrame(m: Memory, m': Memory, L: Layout, freeHead: int, pageHead: int, s: seq<int>, stale: int)
    requires Image(m, freeHead, pageHead, L, stale)
    requires AgreeOffLinks(m, m', s)
    requires NodesFree(L.blocks, s)
    ensures Tags(m', L.blocks, stale)
    ensures Mapped(m', L.chunks)
    ensures PageList(m', L.chunks, L.order, pageHead)
  {
    TagsOffLinks(m, m', L.chunks, L.blocks, s, stale);
    MappedFrame(m, m', L.chunks);
    forall c, x | c in L.chunks && x in m && c <= x < c + PAGEHDRSIZE
      ensures x in m' && m'[x] == m[x]
    {
      if x in s { LinkNotHeader(L.chunks, L.blocks, c, x, x); }
      if x - 8 in s { LinkNotHeader(L.chunks, L.blocks, c, x, x - 8); }
    }
    PageListFrame(m, m', L.chunks, L.order, pageHead);
  }

  lemma NotInOtherBlock(chunks: Chunks, blocks: Blocks, h: int, a: int, x: int)
    requires Tiling(chunks, blocks) && h in blocks && a in blocks && a != h
    requires a <= x < a + blocks[a].size
    ensures !(h <= x < h + blocks[h].size)
  {
    assert BlocksApart(blocks, a, h) && BlocksApart(blocks, h, a);
  }

  /** Writes inside a block that is not in the free list leave everything else intact. */
  lemma BlockWriteFrame(m: Memory, m': Memory, L: Layout, freeHead: int, pageHead: int, stale: int, h: int)
    requires Image(m, freeHead, pageHead, L, stale)
    requires h in L.blocks && h + HDRSIZE !in L.free
    requires AgreeOff(m, m', h, h + L.blocks[h].size, [])
    ensures Mapped(m', L.chunks)
    ensures PageList(m', L.chunks, L.order, pageHead)
    ensures DList(m', L.free, freeHead)
    ensures forall a {:trigger Tag(m', L.blocks, a, stale)} ::
      a in L.blocks && a != h ==> Tag(m', L.blocks, a, stale)
  {
    MappedFrame(m, m', L.chunks);
    forall c, x | c in L.chunks && x in m && c <= x < c + PAGEHDRSIZE
      ensures x in m' && m'[x] == m[x]
    {
      HeaderNotInBlock(L.chunks, L.blocks, c, h);
    }
    PageListFrame(m, m', L.chunks, L.order, pageHead);
    forall x | x in m && IsLink(L.free, x)
      ensures x in m' && m'[x] == m[x]
    {
      var n := (if x in L.free then x else x - 8) - HDRSIZE;
      InsideChunk(L.chunks, L.blocks, n);
      NotInOtherBlock(L.chunks, L.blocks, h, n, x);
    }
    ListFrame(m, m', L.free, freeHead);
    forall a | a in L.blocks && a != h
      ensures Tag(m', L.blocks, a, stale)
    {
      assert Tag(m, L.blocks, a, stale);
      InsideChunk(L.chunks, L.blocks, a);
      forall x | IsTag(L.blocks, a, x) ensures !(h <= x < h + L.blocks[h].size) {
        NotInOtherBlock(L.chunks, L.blocks, h, a, x);
      }
      assert IsTag(L.blocks, a, a) && IsTag(L.blocks, a, a + 8);
      assert IsTag(L.blocks, a, a + L.blocks[a].size - FDRSIZE);
    }
  }

  // ---------------------------------------------------------------- one lemma per group of writes

  /** Unlink node `n`, then clear its two links. */
  function Remove(m: Memory, n: int): Memory
    requires n in m && n + 8 in m
  {
    Unlink(m, n)[n := 0][n + 8 := 0]
  }

  lemma NodesApart(m: Memory, s: seq<int>, head: int, k: int, n: int)
    requires DList(m, s, head) && k in s && n in s && k != n
    ensures k + 8 != n && n + 8 != k
  {
    assert NodeAt(m, s, IndexOf(s, k)) && NodeAt(m, s, IndexOf(s, n));
  }

  lemma RemoveImage(m: Memory, freeHead: int, pageHead: int, L: Layout, stale: int, n: int)
    requires Image(m, freeHead, pageHead, L, stale) && n in L.free
    ensures n in m && n + 8 in m
    ensures AgreeOffLinks(m, Remove(m, n), L.free)
    ensures Image(Remove(m, n), if m[n] == 0 then m[n + 8] else freeHead, pageHead,
                  L.(free := Without(L.free, n)), stale)
  {
    UnlinkFrame(m, L.free, freeHead, n);
    UnlinkList(m, L.free, freeHead, n);
    WithoutMembers(L.free, n);
    var m1, m', s := Unlink(m, n), Remove(m, n), Without(L.free, n);
    assert IsLink(L.free, n) && IsLink(L.free, n + 8);
    LinksFrame(m, m', L, freeHead, pageHead, L.free, stale);
    forall x | x in m1 && IsLink(s, x)
      ensures x in m' && m'[x] == m1[x]
    {
      NodesApart(m, L.free, freeHead, if x in s then x else x - 8, n);
    }
    ListFrame(m1, m', s, if m[n] == 0 then m[n + 8] else freeHead);
  }

  lemma LinkWords(m: Memory, L: Layout, a: int)
    requires Tiling(L.chunks, L.blocks) && Mapped(m, L.chunks) && a in L.blocks
    ensures a > 0 && a % 16 == 0 && a + HDRSIZE in m && a + HDRSIZE + 8 in m
  {
    InsideChunk(L.chunks, L.blocks, a);
    WordMapped(m, L.chunks, L.blocks, a, a + HDRSIZE);
    WordMapped(m, L.chunks, L.blocks, a, a + HDRSIZE + 8);
  }

  lemma InsertImage(m: Memory, freeHead: int, pageHead: int, L: Layout, stale: int, a: int)
    requires Image(m, freeHead, pageHead, L, stale)
    requires a in L.blocks && !L.blocks[a].alloc && a + HDRSIZE !in L.free
    ensures a + HDRSIZE in m && a + HDRSIZE + 8 in m
    ensures AgreeOffLinks(m, PushFront(m, freeHead, a + HDRSIZE), [a + HDRSIZE] + L.free)
    ensures Image(PushFront(m, freeHead, a + HDRSIZE), a + HDRSIZE, pageHead,
                  L.(free := [a + HDRSIZE] + L.free), stale)
  {
    LinkWords(m, L, a);
    var n, s := a + HDRSIZE, [a + HDRSIZE] + L.free;
    PushFrontList(m, L.free, freeHead, n);
    assert NodesFree(L.blocks, s);
    LinksFrame(m, PushFront(m, freeHead, n), L, freeHead, pageHead, s, stale);
  }

  lemma FlagImage(m: Memory, freeHead: int, pageHead: int, L: Layout, a: int, alloc: bool)
    requires Image(m, freeHead, pageHead, L, 0)
    requires a in L.blocks && a + HDRSIZE !in L.free
    ensures a in m && a + 8 in m
    ensures AgreeOff(m, m[a + 8 := if alloc then 1 else 0], a, a + HDRSIZE, [])
    ensures Image(m[a + 8 := if alloc then 1 else 0], freeHead, pageHead,
                  L.(blocks := Flag(L.blocks, a, alloc)), 0)
  {
    var m' := m[a + 8 := if alloc then 1 else 0];
    var blocks' := Flag(L.blocks, a, alloc);
    assert Tag(m, L.blocks, a, 0);
    InsideChunk(L.chunks, L.blocks, a);
    BlockWriteFrame(m, m', L, freeHead, pageHead, 0, a);
    FlagTiling(L.chunks, L.blocks, a, alloc);
    forall x | x in blocks' ensures Tag(m', blocks', x, 0) {
      if x != a { assert Tag(m', L.blocks, x, 0); }
    }
  }

  /** Growing the header of `h` over the free block behind it. */
  lemma MergeImage(m: Memory, freeHead: int, pageHead: int, L: Layout, stale: int, h: int, n: int)
    requires Image(m, freeHead, pageHead, L, stale) && (stale == 0 || stale == h)
    requires Adjacent(L.blocks, h, n) && h + HDRSIZE !in L.free && n + HDRSIZE !in L.free
    ensures h in m && m[h] == L.blocks[h].size && n in m && m[n] == L.blocks[n].size
    ensures var m' := m[h := Merge(L.blocks, h, n)[h].size];
      && AgreeOff(m, m', h, h + HDRSIZE, [])
      && Image(m', freeHead, pageHead, L.(blocks := Merge(L.blocks, h, n)), h)
  {
    var blocks' := Merge(L.blocks, h, n);
    var m' := m[h := blocks'[h].size];
    InsideChunk(L.chunks, L.blocks, h);
    assert Tag(m, L.blocks, h, stale) && Tag(m, L.blocks, n, stale);
    BlockWriteFrame(m, m', L, freeHead, pageHead, stale, h);
    MergeTiling(L.chunks, L.blocks, h, n);
    forall x | x in blocks' ensures Tag(m', blocks', x, h) {
      InsideChunk(L.chunks, L.blocks, x);
      if x != h { OtherTag(m', L.blocks, blocks', x, stale, h); }
    }
  }

  lemma FooterImage(m: Memory, freeHead: int, pageHead: int, L: Layout, stale: int, h: int)
    requires Image(m, freeHead, pageHead, L, stale) && (stale == 0 || stale == h)
    requires h in L.blocks && h + HDRSIZE !in L.free
    ensures h in m && m[h] == L.blocks[h].size
    ensures var f := h + L.blocks[h].size - FDRSIZE;
      && f in m
      && AgreeOff(m, m[f := m[h]], f, f + FDRSIZE, [])
      && Image(m[f := m[h]], freeHead, pageHead, L, 0)
  {
    var f := h + L.blocks[h].size - FDRSIZE;
    assert Tag(m, L.blocks, h, stale);
    var m' := m[f := m[h]];
    InsideChunk(L.chunks, L.blocks, h);
    BlockWriteFrame(m, m', L, freeHead, pageHead, stale, h);
    forall x | x in L.blocks ensures Tag(m', L.blocks, x, 0) {
      if x != h { assert Tag(m', L.blocks, x, stale); }
    }
  }

  lemma OtherTag(m: Memory, blocks: Blocks, blocks': Blocks, x: int, stale: int, stale': int)
    requires x in blocks && x in blocks' && blocks'[x] == blocks[x]
    requires x != stale || x == stale'
    requires Tag(m, blocks, x, stale)
    ensures Tag(m, blocks', x, stale')
  {
  }

  /** The six tag writes that cut a used block of `size` bytes off the front of `h`. */
  function SplitWrites(m: Memory, h: int, size: int, rest: int): Memory {
    m[h := size][h + 8 := 1][h + size - FDRSIZE := size]
     [h + size := rest][h + size + 8 := 0][h + size + rest - FDRSIZE := rest]
  }

  lemma SplitCells(m: Memory, h: int, size: int, rest: int)
    requires size >= 48 && rest >= 48
    requires h in m && h + 8 in m && h + size - FDRSIZE in m
    requires h + size in m && h + size + 8 in m && h + size + rest - FDRSIZE in m
    ensures var m', n := SplitWrites(m, h, size, rest), h + size;
      && AgreeOff(m, m', h, h + size + rest, [])
      && m'[h] == size && m'[h + 8] == 1 && m'[n - FDRSIZE] == size
      && m'[n] == rest && m'[n + 8] == 0 && m'[n + rest - FDRSIZE] == rest
  {
  }

  lemma SplitAligned(h: int, size: int, total: int)
    requires h % 16 == 0 && size % 16 == 0 && total % 16 == 0
    ensures h % 8 == 0 && (h + 8) % 8 == 0 && (h + size - FDRSIZE) % 8 == 0
    ensures (h + size) % 8 == 0 && (h + size + 8) % 8 == 0 && (h + total - FDRSIZE) % 8 == 0
  {
  }

  lemma SplitWords(m: Memory, L: Layout, h: int, size: int)
    requires Tiling(L.chunks, L.blocks) && Mapped(m, L.chunks) && h in L.blocks
    requires size % 16 == 0 && size >= 48 && L.blocks[h].size - size >= 48
    ensures h in m && h + 8 in m && h + size - FDRSIZE in m
    ensures h + size in m && h + size + 8 in m && h + L.blocks[h].size - FDRSIZE in m
  {
    InsideChunk(L.chunks, L.blocks, h);
    SplitAligned(h, size, L.blocks[h].size);
    WordMapped(m, L.chunks, L.blocks, h, h);
    WordMapped(m, L.chunks, L.blocks, h, h + 8);
    WordMapped(m, L.chunks, L.blocks, h, h + size - FDRSIZE);
    WordMapped(m, L.chunks, L.blocks, h, h + size);
    WordMapped(m, L.chunks, L.blocks, h, h + size + 8);
    WordMapped(m, L.chunks, L.blocks, h, h + L.blocks[h].size - FDRSIZE);
  }

  lemma SplitImage(m: Memory, freeHead: int, pageHead: int, L: Layout, h: int, size: int)
    requires Image(m, freeHead, pageHead, L, 0)
    requires h in L.blocks && h + HDRSIZE !in L.free
    requires size % 16 == 0 && size >= 48 && L.blocks[h].size - size >= 48
    ensures var m' := SplitWrites(m, h, size, L.blocks[h].size - size);
      && AgreeOff(m, m', h, h + L.blocks[h].size, [])
      && Image(m', freeHead, pageHead, L.(blocks := Flag(Split(L.blocks, h, size), h, true)), 0)
  {
    var n, rest := h + size, L.blocks[h].size - size;
    var blocks', m' := Flag(Split(L.blocks, h, size), h, true), SplitWrites(m, h, size, rest);
    SplitTiling(L.chunks, L.blocks, h, size);
    FlagTiling(L.chunks, Split(L.blocks, h, size), h, true);
    InsideChunk(L.chunks, L.blocks, h);
    SplitWords(m, L, h, size);
    SplitCells(m, h, size, rest);
    BlockWriteFrame(m, m', L, freeHead, pageHead, 0, h);
    forall x | x in blocks' ensures Tag(m', blocks', x, 0) {
      if x == h || x == n {
      } else {
        OtherTag(m', L.blocks, blocks', x, 0, 0);
      }
    }
  }

  /** The header writes that make the region at `c` the first chunk, cut as one free block. */
  function ChunkWrites(m: Memory, pageHead: int, c: int, sz: int): Memory {
    PushFront(m, pageHead, c)[c + 16 := sz][c + 24 := c + sz]
      [c + PAGEHDRSIZE := sz - PAGEHDRSIZE][c + PAGEHDRSIZE + 8 := 0]
  }

  function WithChunk(L: Layout, c: int, sz: int): Layout {
    Layout(L.chunks[c := sz], [c] + L.order, AddChunk(L.blocks, c, sz), L.free)
  }

  /** No link word of the free list, and no tag, lies in a region outside every chunk. */
  lemma AddChunkFrame(m: Memory, m': Memory, freeHead: int, pageHead: int, L: Layout, c: int, sz: int)
    requires Image(m, freeHead, pageHead, L, 0)
    requires FreshRegion(L.chunks, c, sz)
    requires AgreeOff(m, m', c, c + sz, L.order)
    ensures DList(m', L.free, freeHead)
    ensures Tags(m', L.blocks, 0)
    ensures forall d {:trigger PageHdr(m', L.chunks, d)} :: d in L.chunks ==> PageHdr(m', L.chunks, d)
  {
    forall x | x in m && IsLink(L.free, x)
      ensures x in m' && m'[x] == m[x]
    {
      var h := (if x in L.free then x else x - 8) - HDRSIZE;
      InsideChunk(L.chunks, L.blocks, h);
      OrderLinkNotInBlock(m, freeHead, pageHead, L, h, x);
    }
    ListFrame(m, m', L.free, freeHead);
    forall a | a in L.blocks ensures Tag(m', L.blocks, a, 0) {
      assert Tag(m, L.blocks, a, 0);
      InsideChunk(L.chunks, L.blocks, a);
      forall x | IsTag(L.blocks, a, x) ensures !IsLink(L.order, x) {
        OrderLinkNotInBlock(m, freeHead, pageHead, L, a, x);
      }
      assert IsTag(L.blocks, a, a) && IsTag(L.blocks, a, a + 8);
      assert IsTag(L.blocks, a, a + L.blocks[a].size - FDRSIZE);
    }
    forall d | d in L.chunks ensures PageHdr(m', L.chunks, d) {
      assert PageHdr(m, L.chunks, d);
      assert ChunkOk(L.chunks, L.blocks, d);
      HeaderFieldNotLink(L, d, d + 16);
      HeaderFieldNotLink(L, d, d + 24);
    }
  }

  lemma OrderLinkNotInBlock(m: Memory, freeHead: int, pageHead: int, L: Layout, a: int, x: int)
    requires Image(m, freeHead, pageHead, L, 0)
    requires a in L.blocks && a <= x < a + L.blocks[a].size
    ensures !IsLink(L.order, x)
  {
    if IsLink(L.order, x) {
      var c := if x in L.order then x else x - 8;
      HeaderNotInBlock(L.chunks, L.blocks, c, a);
    }
  }

  lemma HeaderFieldNotLink(L: Layout, d: int, x: int)
    requires Tiling(L.chunks, L.blocks) && d in L.chunks && d + 16 <= x < d + PAGEHDRSIZE
    requires Members(L.order, L.chunks)
    ensures !IsLink(L.order, x)
  {
    assert ChunkOk(L.chunks, L.blocks, d);
    if IsLink(L.order, x) {
      var c := if x in L.order then x else x - 8;
      assert ChunkOk(L.chunks, L.blocks, c);
      assert ChunksApart(L.chunks, c, d) && ChunksApart(L.chunks, d, c);
    }
  }

  lemma ChunkCells(m: Memory, pageHead: int, c: int, sz: int)
    requires sz >= 64 && pageHead in {0} + m.Keys
    requires pageHead < c || c + sz <= pageHead
    requires c in m && c + 8 in m && c + 16 in m && c + 24 in m && c + 32 in m && c + 40 in m
    ensures var m' := ChunkWrites(m, pageHead, c, sz);
      && m'.Keys == m.Keys
      && (forall x :: x in m && !(c <= x < c + 48) ==> m'[x] == PushFront(m, pageHead, c)[x])
      && m'[c] == PushFront(m, pageHead, c)[c] && m'[c + 8] == PushFront(m, pageHead, c)[c + 8]
      && m'[c + 16] == sz && m'[c + 24] == c + sz
      && m'[c + 32] == sz - PAGEHDRSIZE && m'[c + 40] == 0
  {
  }

  lemma PageIs16Aligned(c: int)
    requires c % APAGE_SIZE == 0
    ensures c % 16 == 0 && c % 8 == 0
  {
  }

  lemma ChunkWord(m: Memory, chunks: Chunks, c: int, k: int, x: int)
    requires Mapped(m, chunks) && c in chunks && 0 <= k < chunks[c] && c % 8 == 0 && k % 8 == 0 && x == c + k
    ensures x in m
  {
    assert WordIn(m, chunks, c, x);
  }

  lemma ChunkWords(m: Memory, chunks: Chunks, c: int)
    requires Mapped(m, chunks) && c in chunks
    requires c % APAGE_SIZE == 0 && chunks[c] % APAGE_SIZE == 0 && chunks[c] > 0
    ensures c in m && c + 8 in m && c + 16 in m && c + 24 in m && c + 32 in m && c + 40 in m
    ensures c + chunks[c] - FDRSIZE in m
  {
    PageIs16Aligned(c);
    ChunkWord(m, chunks, c, 0, c);
    ChunkWord(m, chunks, c, 8, c + 8);
    ChunkWord(m, chunks, c, 16, c + 16);
    ChunkWord(m, chunks, c, 24, c + 24);
    ChunkWord(m, chunks, c, 32, c + 32);
    ChunkWord(m, chunks, c, 40, c + 40);
    ChunkWord(m, chunks, c, chunks[c] - FDRSIZE, c + chunks[c] - FDRSIZE);
  }

  lemma NewChunkOff(m: Memory, L: Layout, pageHead: int, c: int, sz: int, x: int)
    requires AgreeOffLinks(m, PushFront(m, pageHead, c), [c] + L.order)
    requires x in m && !(c <= x < c + sz) && !IsLink(L.order, x) && sz >= 64
    ensures PushFront(m, pageHead, c)[x] == m[x]
  {
  }

  lemma NewChunkList(m: Memory, freeHead: int, pageHead: int, L: Layout, c: int, sz: int)
    requires Image(m, freeHead, pageHead, L, 0)
    requires FreshRegion(L.chunks, c, sz) && Mapped(m, L.chunks[c := sz])
    ensures var m' := ChunkWrites(m, pageHead, c, sz);
      && AgreeOff(m, m', c, c + sz, L.order)
      && DList(m', [c] + L.order, c)
      && m'[c + 16] == sz && m'[c + 24] == c + sz
      && m'[c + 32] == sz - PAGEHDRSIZE && m'[c + 40] == 0
  {
    var m1, m', s := PushFront(m, pageHead, c), ChunkWrites(m, pageHead, c, sz), [c] + L.order;
    PageIs16Aligned(c);
    forall d | d in L.order ensures d + 16 <= c || c + sz <= d {
      assert ChunkOk(L.chunks, L.blocks, d);
    }
    ChunkWords(m, L.chunks[c := sz], c);
    PushFrontList(m, L.order, pageHead, c);
    if pageHead != 0 { assert NodeAt(m, L.order, 0) && L.order[0] in L.order; }
    ChunkCells(m, pageHead, c, sz);
    forall x | x in m1 && IsLink(s, x) ensures x in m' && m'[x] == m1[x] {}
    ListFrame(m1, m', s, c);
    forall x | x in m && !(c <= x < c + sz) && !IsLink(L.order, x) ensures m'[x] == m[x] {
      NewChunkOff(m, L, pageHead, c, sz, x);
    }
  }

  lemma AddChunkImage(m: Memory, freeHead: int, pageHead: int, L: Layout, c: int, sz: int)
    requires Image(m, freeHead, pageHead, L, 0)
    requires FreshRegion(L.chunks, c, sz) && Mapped(m, L.chunks[c := sz])
    ensures var m' := ChunkWrites(m, pageHead, c, sz);
      && AgreeOff(m, m', c, c + sz, L.order)
      && Image(m', freeHead, c, WithChunk(L, c, sz), c + PAGEHDRSIZE)
  {
    var m', L', f := ChunkWrites(m, pageHead, c, sz), WithChunk(L, c, sz), c + PAGEHDRSIZE;
    AddChunkTiling(L.chunks, L.blocks, c, sz);
    NewChunkList(m, freeHead, pageHead, L, c, sz);
    AddChunkFrame(m, m', freeHead, pageHead, L, c, sz);
    ChunkWords(m, L.chunks[c := sz], c);
    MappedFrame(m, m', L'.chunks);
    forall d | d in L'.chunks ensures PageHdr(m', L'.chunks, d) {
      if d != c { assert PageHdr(m', L.chunks, d); }
    }
    forall x | x in L'.blocks ensures Tag(m', L'.blocks, x, f) {
      if x != f {
        InsideChunk(L.chunks, L.blocks, x);
        OtherTag(m', L.blocks, L'.blocks, x, 0, f);
      }
    }
  }

  /** Memory once `sz` bytes at `c` are no longer mapped. */
  function Unmapped(m: Memory, c: int, sz: int): Memory {
    map x | x in m && !(c <= x < c + sz) :: m[x]
  }

  ghost function DropChunk(L: Layout, c: int): Layout {
    Layout(L.chunks - {c}, Without(L.order, c), L.blocks - {c + PAGEHDRSIZE}, L.free)
  }

  lemma DropTags(m: Memory, m': Memory, freeHead: int, pageHead: int, L: Layout, c: int, a: int)
    requires Image(m, freeHead, pageHead, L, 0) && c in L.chunks
    requires a in L.blocks && L.blocks[a].chunk != c
    requires forall x :: x in m && !(c <= x < c + L.chunks[c]) && !IsLink(L.order, x) ==> x in m' && m'[x] == m[x]
    ensures Tag(m', L.blocks, a, 0)
  {
    assert Tag(m, L.blocks, a, 0);
    InsideChunk(L.chunks, L.blocks, a);
    var d := L.blocks[a].chunk;
    assert ChunksApart(L.chunks, c, d) && ChunksApart(L.chunks, d, c);
    forall x | IsTag(L.blocks, a, x) ensures !IsLink(L.order, x) {
      OrderLinkNotInBlock(m, freeHead, pageHead, L, a, x);
    }
    assert IsTag(L.blocks, a, a) && IsTag(L.blocks, a, a + 8);
    assert IsTag(L.blocks, a, a + L.blocks[a].size - FDRSIZE);
  }

  lemma DropFreeList(m: Memory, m': Memory, freeHead: int, pageHead: int, L: Layout, c: int)
    requires Image(m, freeHead, pageHead, L, 0) && c in L.chunks
    requires forall n :: n in L.free ==> L.blocks[n - HDRSIZE].chunk != c
    requires forall x :: x in m && !(c <= x < c + L.chunks[c]) && !IsLink(L.order, x) ==> x in m' && m'[x] == m[x]
    ensures DList(m', L.free, freeHead)
  {
    forall x | x in m && IsLink(L.free, x) ensures x in m' && m'[x] == m[x] {
      var a := (if x in L.free then x else x - 8) - HDRSIZE;
      var d := L.blocks[a].chunk;
      InsideChunk(L.chunks, L.blocks, a);
      assert ChunksApart(L.chunks, c, d) && ChunksApart(L.chunks, d, c);
      OrderLinkNotInBlock(m, freeHead, pageHead, L, a, x);
    }
    ListFrame(m, m', L.free, freeHead);
  }

  lemma OtherChunk(chunks: Chunks, blocks: Blocks, c: int, d: int)
    requires Tiling(chunks, blocks) && c in chunks && d in chunks && d != c
    ensures !(c - PAGEHDRSIZE < d < c + chunks[c])
  {
    assert ChunkOk(chunks, blocks, d) && ChunkOk(chunks, blocks, c);
    assert ChunksApart(chunks, c, d) && ChunksApart(chunks, d, c);
  }

  lemma DropPageHdr(m: Memory, m1: Memory, m': Memory, freeHead: int, pageHead: int, L: Layout, c: int, d: int)
    requires Image(m, freeHead, pageHead, L, 0) && c in L.chunks && d in L.chunks && d != c
    requires AgreeOffLinks(m, m1, L.order) && m' == Unmapped(m1, c, L.chunks[c])
    ensures PageHdr(m', L.chunks - {c}, d)
  {
    assert PageHdr(m, L.chunks, d);
    OtherChunk(L.chunks, L.blocks, c, d);
    HeaderFieldNotLink(L, d, d + 16);
    HeaderFieldNotLink(L, d, d + 24);
  }

  lemma DropPageLink(m1: Memory, m': Memory, L: Layout, c: int, order': seq<int>, x: int)
    requires Tiling(L.chunks, L.blocks) && c in L.chunks && m' == Unmapped(m1, c, L.chunks[c])
    requires forall d :: d in order' ==> d in L.chunks && d != c
    requires x in m1 && IsLink(order', x)
    ensures x in m' && m'[x] == m1[x]
  {
    var d := if x in order' then x else x - 8;
    OtherChunk(L.chunks, L.blocks, c, d);
  }

  lemma DropPageList(m: Memory, m1: Memory, m': Memory, freeHead: int, pageHead: int, L: Layout, c: int, head: int)
    requires Image(m, freeHead, pageHead, L, 0) && c in L.chunks
    requires AgreeOffLinks(m, m1, L.order) && DList(m1, Without(L.order, c), head)
    requires m' == Unmapped(m1, c, L.chunks[c])
    ensures PageList(m', L.chunks - {c}, Without(L.order, c), head)
  {
    WithoutMembers(L.order, c);
    var order', chunks' := Without(L.order, c), L.chunks - {c};
    forall x | x in m1 && IsLink(order', x) ensures x in m' && m'[x] == m1[x] {
      DropPageLink(m1, m', L, c, order', x);
    }
    ListFrame(m1, m', order', head);
    forall d | d in chunks' ensures PageHdr(m', chunks', d) {
      DropPageHdr(m, m1, m', freeHead, pageHead, L, c, d);
    }
  }

  /** Taking an idle chunk out of the page list and unmapping it, its block being off the free list. */
  lemma DropImage(m: Memory, freeHead: int, pageHead: int, L: Layout, c: int)
    requires Image(m, freeHead, pageHead, L, 0) && c in L.chunks
    requires c + PAGEHDRSIZE in L.blocks && Idle(L.chunks, L.blocks, c)
    requires c + PAGEHDRSIZE + HDRSIZE !in L.free
    ensures c in m && c + 8 in m
    ensures AgreeOffLinks(m, Unlink(m, c), L.order)
    ensures Image(Unmapped(Unlink(m, c), c, L.chunks[c]), freeHead,
                  if m[c] == 0 then m[c + 8] else pageHead, DropChunk(L, c), 0)
  {
    UnlinkFrame(m, L.order, pageHead, c);
    UnlinkList(m, L.order, pageHead, c);
    var m1, m', L' := Unlink(m, c), Unmapped(Unlink(m, c), c, L.chunks[c]), DropChunk(L, c);
    DropChunkTiling(L.chunks, L.blocks, c);
    DropFreeList(m, m', freeHead, pageHead, L, c);
    DropPageList(m, m1, m', freeHead, pageHead, L, c, if m[c] == 0 then m[c + 8] else pageHead);
    forall a | a in L'.blocks ensures Tag(m', L'.blocks, a, 0) {
      DropTags(m, m', freeHead, pageHead, L, c, a);
    }
    forall d, x | d in L'.chunks ensures WordIn(m', L'.chunks, d, x) {
      assert WordIn(m, L.chunks, d, x) && ChunksApart(L.chunks, c, d) && ChunksApart(L.chunks, d, c);
    }
  }

  // ---------------------------------------------------------------- what clients keep

  /** The payload of the block at `a` reads the same in `m` and `m'`. */
  ghost predicate SamePayload(m: Memory, m': Memory, blocks: Blocks, a: int)
    requires a in blocks
  {
    forall x :: x in m && a + HDRSIZE <= x < a + blocks[a].size - FDRSIZE ==> x in m' && m'[x] == m[x]
  }

  /** Every allocated block of `blocks` but the one at `hole` keeps its payload. */
  ghost predicate LiveKept(m: Memory, m': Memory, blocks: Blocks, hole: int) {
    forall a {:trigger SamePayload(m, m', blocks, a)} ::
      a in blocks && blocks[a].alloc && a != hole ==> SamePayload(m, m', blocks, a)
  }

  /** No live payload meets `[lo, hi)`. */
  ghost predicate Clear(blocks: Blocks, hole: int, lo: int, hi: int) {
    forall a :: a in blocks && blocks[a].alloc && a != hole ==>
      hi <= a + HDRSIZE || a + blocks[a].size - FDRSIZE <= lo
  }

  /** A block that is free, or about to be given back, meets no other live payload. */
  lemma ClearBlock(chunks: Chunks, blocks: Blocks, hole: int, a: int)
    requires Tiling(chunks, blocks) && a in blocks && (a == hole || !blocks[a].alloc)
    ensures Clear(blocks, hole, a, a + blocks[a].size)
  {
    forall b | b in blocks && blocks[b].alloc && b != hole
      ensures a + blocks[a].size <= b || b + blocks[b].size <= a
    {
      assert BlocksApart(blocks, a, b) && BlocksApart(blocks, b, a);
    }
  }

  /** The two links of each node of `s` lie in blocks that are free or about to be given back. */
  ghost predicate Spare(blocks: Blocks, s: seq<int>, hole: int) {
    forall n :: n in s ==> n - HDRSIZE in blocks && (n - HDRSIZE == hole || !blocks[n - HDRSIZE].alloc)
  }

  lemma SpareWord(chunks: Chunks, blocks: Blocks, s: seq<int>, hole: int, a: int, x: int)
    requires Tiling(chunks, blocks) && Spare(blocks, s, hole) && IsLink(s, x)
    requires a in blocks && blocks[a].alloc && a != hole
    ensures !(a + HDRSIZE <= x < a + blocks[a].size - FDRSIZE)
  {
    var b := (if x in s then x else x - 8) - HDRSIZE;
    InsideChunk(chunks, blocks, b);
    assert BlocksApart(blocks, a, b) && BlocksApart(blocks, b, a);
  }

  /** Writes into a clear region and into spare links keep every live payload. */
  lemma KeepLive(m: Memory, m': Memory, chunks: Chunks, blocks: Blocks, hole: int, lo: int, hi: int, s: seq<int>)
    requires Tiling(chunks, blocks) && Clear(blocks, hole, lo, hi) && Spare(blocks, s, hole)
    requires AgreeOff(m, m', lo, hi, s)
    ensures LiveKept(m, m', blocks, hole)
  {
    forall a | a in blocks && blocks[a].alloc && a != hole ensures SamePayload(m, m', blocks, a) {
      forall x | x in m && a + HDRSIZE <= x < a + blocks[a].size - FDRSIZE
        ensures x in m' && m'[x] == m[x]
      {
        if IsLink(s, x) { SpareWord(chunks, blocks, s, hole, a, x); }
      }
    }
  }

  lemma KeepLinks(m: Memory, m': Memory, chunks: Chunks, blocks: Blocks, hole: int, s: seq<int>)
    requires Tiling(chunks, blocks) && Spare(blocks, s, hole) && AgreeOffLinks(m, m', s)
    ensures LiveKept(m, m', blocks, hole)
  {
    forall a | a in blocks ensures 0 <= a { InsideChunk(chunks, blocks, a); }
    KeepLive(m, m', chunks, blocks, hole, 0, 0, s);
  }

  /** Writes to the links of the page list, inside the region `[lo, hi)` outside every block or
      nowhere else, and the loss of words in that region, keep every live payload. */
  lemma KeepOrder(m: Memory, m': Memory, L: Layout, freeHead: int, pageHead: int, lo: int, hi: int)
    requires Image(m, freeHead, pageHead, L, 0) && Clear(L.blocks, 0, lo, hi)
    requires forall x :: x in m && !(lo <= x < hi) && !IsLink(L.order, x) ==> x in m' && m'[x] == m[x]
    ensures LiveKept(m, m', L.blocks, 0)
  {
    forall a | a in L.blocks && L.blocks[a].alloc && a != 0 ensures SamePayload(m, m', L.blocks, a) {
      forall x | x in m && a + HDRSIZE <= x < a + L.blocks[a].size - FDRSIZE
        ensures x in m' && m'[x] == m[x]
      {
        OrderLinkNotInBlock(m, freeHead, pageHead, L, a, x);
      }
    }
  }

  /** Used blocks but the one at `hole` are blocks of both. */
  ghost predicate UsedKept(blocks: Blocks, blocks': Blocks, hole: int) {
    forall a :: a in blocks && blocks[a].alloc && a != hole ==> a in blocks' && blocks'[a] == blocks[a]
  }

  /** What is kept in two steps is kept; the blocks live at first are live in between. */
  lemma KeepTrans(m0: Memory, m: Memory, m': Memory, blocks0: Blocks, blocks: Blocks, hole: int)
    requires LiveKept(m0, m, blocks0, hole) && LiveKept(m, m', blocks, 0) && 0 !in blocks
    requires UsedKept(blocks0, blocks, hole)
    ensures LiveKept(m0, m', blocks0, hole)
  {
    forall a | a in blocks0 && blocks0[a].alloc && a != hole ensures SamePayload(m0, m', blocks0, a) {
      assert SamePayload(m0, m, blocks0, a) && SamePayload(m, m', blocks, a);
    }
  }

  /** Unlinking and unmapping an idle chunk, in one step. */
  lemma DropPageOk(m: Memory, m': Memory, freeHead: int, pageHead: int, pageHead': int, L: Layout, L': Layout, c: int)
    requires Image(m, freeHead, pageHead, L, 0) && c in L.chunks && c in m && c + 8 in m
    requires c + PAGEHDRSIZE in L.blocks && Idle(L.chunks, L.blocks, c)
    requires c + PAGEHDRSIZE + HDRSIZE !in L.free && Clear(L.blocks, 0, c, c + L.chunks[c])
    requires m' == Unmapped(Unlink(m, c), c, L.chunks[c]) && L' == DropChunk(L, c)
    requires pageHead' == if m[c] == 0 then m[c + 8] else pageHead
    ensures Image(m', freeHead, pageHead', L', 0)
    ensures LiveKept(m, m', L.blocks, 0)
  {
    DropImage(m, freeHead, pageHead, L, c);
    KeepOrder(m, m', L, freeHead, pageHead, c, c + L.chunks[c]);
  }

  lemma SplitOk(m: Memory, m': Memory, freeHead: int, pageHead: int, L: Layout, L': Layout, h: int, size: int)
    requires Image(m, freeHead, pageHead, L, 0)
    requires h in L.blocks && h + HDRSIZE !in L.free
    requires size % 16 == 0 && size >= 48 && L.blocks[h].size - size >= 48
    requires m' == SplitWrites(m, h, size, L.blocks[h].size - size)
    requires L' == L.(blocks := Flag(Split(L.blocks, h, size), h, true))
    ensures Image(m', freeHead, pageHead, L', 0)
    ensures AgreeOff(m, m', h, h + L.blocks[h].size, [])
  {
    SplitImage(m, freeHead, pageHead, L, h, size);
  }

  lemma MergeOk(m: Memory, m': Memory, freeHead: int, pageHead: int, L: Layout, L': Layout, stale: int, h: int, n: int)
    requires Image(m, freeHead, pageHead, L, stale) && (stale == 0 || stale == h)
    requires Adjacent(L.blocks, h, n) && !L.blocks[h].alloc
    requires h + HDRSIZE !in L.free && n + HDRSIZE !in L.free
    requires m' == m[h := L.blocks[h].size + L.blocks[n].size] && L' == L.(blocks := Merge(L.blocks, h, n))
    ensures Image(m', freeHead, pageHead, L', h)
    ensures LiveKept(m, m', L.blocks, 0)
  {
    MergeImage(m, freeHead, pageHead, L, stale, h, n);
    ClearBlock(L.chunks, L.blocks, 0, h);
    InsideChunk(L.chunks, L.blocks, h);
    KeepLive(m, m', L.chunks, L.blocks, 0, h, h + HDRSIZE, []);
  }

  lemma FooterOk(m: Memory, m': Memory, freeHead: int, pageHead: int, L: Layout, stale: int, h: int)
    requires Image(m, freeHead, pageHead, L, stale) && (stale == 0 || stale == h)
    requires h in L.blocks && h + HDRSIZE !in L.free
    requires h in m && m' == m[h + m[h] - FDRSIZE := m[h]]
    ensures Image(m', freeHead, pageHead, L, 0)
    ensures LiveKept(m, m', L.blocks, 0)
  {
    FooterImage(m, freeHead, pageHead, L, stale, h);
    InsideChunk(L.chunks, L.blocks, h);
    var f := h + L.blocks[h].size - FDRSIZE;
    forall a | a in L.blocks ensures f + FDRSIZE <= a + HDRSIZE || a + L.blocks[a].size - FDRSIZE <= f {
      assert BlocksApart(L.blocks, a, h) && BlocksApart(L.blocks, h, a);
    }
    KeepLive(m, m', L.chunks, L.blocks, 0, f, f + FDRSIZE, []);
  }

  /** More mapped words change nothing about the words already there. */
  lemma MoreWords(m: Memory, m': Memory, freeHead: int, pageHead: int, L: Layout)
    requires Image(m, freeHead, pageHead, L, 0)
    requires forall x :: x in m ==> x in m' && m'[x] == m[x]
    ensures Image(m', freeHead, pageHead, L, 0)
    ensures LiveKept(m, m', L.blocks, 0)
  {
    forall a | a in L.blocks ensures Tag(m', L.blocks, a, 0) { assert Tag(m, L.blocks, a, 0); }
    forall c, x | c in L.chunks ensures WordIn(m', L.chunks, c, x) { assert WordIn(m, L.chunks, c, x); }
    PageListFrame(m, m', L.chunks, L.order, pageHead);
    ListFrame(m, m', L.free, freeHead);
    forall a | a in L.blocks ensures SamePayload(m, m', L.blocks, a) {}
  }

  /** The header writes of a new chunk and the footer of its block, in one step. */
  lemma NewChunkOk(m: Memory, m': Memory, m'': Memory, freeHead: int, pageHead: int, L: Layout, L': Layout,
                   c: int, sz: int)
    requires Image(m, freeHead, pageHead, L, 0)
    requires FreshRegion(L.chunks, c, sz) && Mapped(m, L.chunks[c := sz])
    requires L' == WithChunk(L, c, sz) && m' == ChunkWrites(m, pageHead, c, sz)
    requires c + PAGEHDRSIZE in m' && m'[c + PAGEHDRSIZE] == sz - PAGEHDRSIZE
    requires m'' == m'[c + sz - FDRSIZE := sz - PAGEHDRSIZE]
    ensures Image(m'', freeHead, c, L', 0)
    ensures LiveKept(m, m'', L.blocks, 0)
    ensures m''.Keys == m.Keys
  {
    var f := c + PAGEHDRSIZE;
    AddChunkTiling(L.chunks, L.blocks, c, sz);
    AddChunkImage(m, freeHead, pageHead, L, c, sz);
    assert f + HDRSIZE !in L.free;
    FooterImage(m', freeHead, c, L', f, f);
    forall a | a in L.blocks ensures c + sz <= a || a + L.blocks[a].size <= c {
      OutsideRegion(L.chunks, L.blocks, c, sz, a);
    }
    KeepOrder(m, m'', L, freeHead, pageHead, c, c + sz);
  }
}
