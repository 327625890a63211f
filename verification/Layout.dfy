/** The block structure that the tags in memory describe: which regions are mapped as page
    chunks and how each one is cut into blocks, with the elementary changes of that
    structure (splitting, merging, flagging, adding and dropping a chunk). */
module Layouts {
  import opened Machine

  const HDRSIZE := 16
  const FDRSIZE := 16
  const PAGEHDRSIZE := 32
  const MIN_BLOCK_SIZE := 32

  /** `size` counts header, payload and footer; `chunk` is the chunk the block lies in. */
  datatype Block = Block(size: int, alloc: bool, chunk: int)

  type Chunks = map<int, int>     // address of the chunk header -> page_size
  type Blocks = map<int, Block>   // address of the block header -> block

  ghost predicate ChunkOk(chunks: Chunks, blocks: Blocks, c: int)
    requires c in chunks
  {
    && c > 0 && c % APAGE_SIZE == 0
    && chunks[c] > 0 && chunks[c] % APAGE_SIZE == 0
    && c + chunks[c] <= ADDRESS_LIMIT
    && c + PAGEHDRSIZE in blocks && blocks[c + PAGEHDRSIZE].chunk == c
  }

  /** The block at `a` lies inside its chunk, is big enough for its tags and two links, is
      aligned, and right behind it comes the end of the chunk or the next block of it. */
  ghost predicate BlockOk(chunks: Chunks, blocks: Blocks, a: int)
    requires a in blocks
  {
    var b, c := blocks[a], blocks[a].chunk;
    && c in chunks
    && c + PAGEHDRSIZE <= a && a + b.size <= c + chunks[c]
    && a % 16 == 0 && b.size % 16 == 0 && b.size >= HDRSIZE + 16 + FDRSIZE
    && (a + b.size < c + chunks[c] ==> a + b.size in blocks && blocks[a + b.size].chunk == c)
  }

  ghost predicate ChunksApart(chunks: Chunks, c: int, d: int)
    requires c in chunks && d in chunks
  {
    c < d ==> c + chunks[c] <= d
  }

  ghost predicate BlocksApart(blocks: Blocks, a: int, b: int)
    requires a in blocks && b in blocks
  {
    a < b ==> a + blocks[a].size <= b
  }

  /** Chunks do not overlap, and each is cut without gaps or overlaps into its blocks. */
  ghost predicate Tiling(chunks: Chunks, blocks: Blocks) {
    && (forall c {:trigger ChunkOk(chunks, blocks, c)} :: c in chunks ==> ChunkOk(chunks, blocks, c))
    && (forall c, d {:trigger ChunksApart(chunks, c, d)} ::
      c in chunks && d in chunks ==> ChunksApart(chunks, c, d))
    && (forall a {:trigger BlockOk(chunks, blocks, a)} :: a in blocks ==> BlockOk(chunks, blocks, a))
    && (forall a, b {:trigger BlocksApart(blocks, a, b)} ::
      a in blocks && b in blocks ==> BlocksApart(blocks, a, b))
  }

  // ---------------------------------------------------------------- neighbours

  /** The header of the block right behind `a`, null for the last block of a chunk. */
  function NextBlock(blocks: Blocks, a: int): int
    requires a in blocks
  {
    if a + blocks[a].size in blocks then a + blocks[a].size else 0
  }

  ghost predicate IsPrev(blocks: Blocks, a: int, p: int) {
    p in blocks && p + blocks[p].size == a
  }

  /** The header of the block that ends where `a` begins, null for the first block of a chunk. */
  ghost function PrevBlock(blocks: Blocks, a: int): int {
    if exists p :: IsPrev(blocks, a, p) then var p :| IsPrev(blocks, a, p); p else 0
  }

  /** What a block of a tiling knows about its own chunk. */
  lemma InsideChunk(chunks: Chunks, blocks: Blocks, a: int)
    requires Tiling(chunks, blocks) && a in blocks
    ensures BlockOk(chunks, blocks, a) && ChunkOk(chunks, blocks, blocks[a].chunk)
    ensures a + blocks[a].size <= ADDRESS_LIMIT
  {
  }

  lemma NextIsBlock(chunks: Chunks, blocks: Blocks, a: int)
    requires Tiling(chunks, blocks) && a in blocks
    ensures BlockOk(chunks, blocks, a)
    ensures var n, c := NextBlock(blocks, a), blocks[a].chunk;
      && (n != 0 ==> n in blocks && n == a + blocks[a].size && blocks[n].chunk == c)
      && (n != 0 <==> a + blocks[a].size in blocks)
      && (n == 0 <==> a + blocks[a].size == c + chunks[c])
  {
    InsideChunk(chunks, blocks, a);
    NoBlockAtChunkEnd(chunks, blocks, blocks[a].chunk);
  }

  lemma BlockNotAtChunkEnd(chunks: Chunks, blocks: Blocks, c: int, x: int)
    requires Tiling(chunks, blocks) && c in chunks && x in blocks
    ensures x != c + chunks[c]
  {
    var d := blocks[x].chunk;
    InsideChunk(chunks, blocks, x);
    assert ChunkOk(chunks, blocks, c) && ChunksApart(chunks, c, d) && ChunksApart(chunks, d, c);
  }

  /** No block begins at the end of a chunk, even where two chunks touch in memory. */
  lemma NoBlockAtChunkEnd(chunks: Chunks, blocks: Blocks, c: int)
    requires Tiling(chunks, blocks) && c in chunks
    ensures c + chunks[c] !in blocks
  {
    forall x | x in blocks ensures x != c + chunks[c] {
      BlockNotAtChunkEnd(chunks, blocks, c, x);
    }
  }

  lemma PrevUnique(chunks: Chunks, blocks: Blocks, a: int, p: int)
    requires Tiling(chunks, blocks) && a in blocks && IsPrev(blocks, a, p)
    ensures PrevBlock(blocks, a) == p && p != 0 && blocks[p].chunk == blocks[a].chunk
  {
    var q := PrevBlock(blocks, a);
    assert IsPrev(blocks, a, q);
    InsideChunk(chunks, blocks, p);
    InsideChunk(chunks, blocks, q);
    assert BlocksApart(blocks, p, q) && BlocksApart(blocks, q, p);
    NextIsBlock(chunks, blocks, p);
  }

  /** The first block of a chunk has no predecessor. */
  lemma FirstHasNoPrev(chunks: Chunks, blocks: Blocks, c: int)
    requires Tiling(chunks, blocks) && c in chunks
    ensures ChunkOk(chunks, blocks, c) && PrevBlock(blocks, c + PAGEHDRSIZE) == 0
  {
    assert ChunkOk(chunks, blocks, c);
    var a := c + PAGEHDRSIZE;
    if PrevBlock(blocks, a) != 0 {
      var p :| IsPrev(blocks, a, p);
      PrevUnique(chunks, blocks, a, p);
      InsideChunk(chunks, blocks, p);
      assert false;
    }
  }

  /** Every other block has one: walking the tiling from `x` reaches `a` exactly. */
  lemma PrevExistsFrom(chunks: Chunks, blocks: Blocks, a: int, x: int) returns (p: int)
    requires Tiling(chunks, blocks) && a in blocks && x in blocks
    requires x < a && blocks[x].chunk == blocks[a].chunk
    ensures IsPrev(blocks, a, p)
    decreases a - x
  {
    InsideChunk(chunks, blocks, x);
    InsideChunk(chunks, blocks, a);
    assert BlocksApart(blocks, x, a);
    var e := x + blocks[x].size;
    p := x;
    if e != a {
      p := PrevExistsFrom(chunks, blocks, a, e);
    }
  }

  lemma PrevIsBlock(chunks: Chunks, blocks: Blocks, a: int)
    requires Tiling(chunks, blocks) && a in blocks
    ensures var p := PrevBlock(blocks, a);
      && (p == 0 <==> a == blocks[a].chunk + PAGEHDRSIZE)
      && (p != 0 ==> p in blocks && p + blocks[p].size == a && blocks[p].chunk == blocks[a].chunk)
  {
    var c := blocks[a].chunk;
    InsideChunk(chunks, blocks, a);
    FirstHasNoPrev(chunks, blocks, c);
    if a != c + PAGEHDRSIZE {
      var p := PrevExistsFrom(chunks, blocks, a, c + PAGEHDRSIZE);
      PrevUnique(chunks, blocks, a, p);
    }
  }

  // ---------------------------------------------------------------- elementary changes

  function Flag(blocks: Blocks, a: int, alloc: bool): Blocks
    requires a in blocks
  {
    blocks[a := blocks[a].(alloc := alloc)]
  }

  /** Cut `size` bytes off the front of block `a`; the rest becomes a free block. */
  function Split(blocks: Blocks, a: int, size: int): Blocks
    requires a in blocks
  {
    var b := blocks[a];
    blocks[a := b.(size := size)][a + size := Block(b.size - size, false, b.chunk)]
  }

  ghost predicate Adjacent(blocks: Blocks, a: int, n: int) {
    a in blocks && n in blocks && a + blocks[a].size == n
  }

  /** Join block `a` with the block `n` right behind it. */
  function Merge(blocks: Blocks, a: int, n: int): Blocks
    requires a in blocks && n in blocks
  {
    (blocks - {n})[a := blocks[a].(size := blocks[a].size + blocks[n].size)]
  }

  function AddChunk(blocks: Blocks, c: int, pageSize: int): Blocks {
    blocks[c + PAGEHDRSIZE := Block(pageSize - PAGEHDRSIZE, false, c)]
  }

  lemma FlagTiling(chunks: Chunks, blocks: Blocks, a: int, alloc: bool)
    requires Tiling(chunks, blocks) && a in blocks
    ensures Tiling(chunks, Flag(blocks, a, alloc))
  {
    var blocks' := Flag(blocks, a, alloc);
    forall c | c in chunks ensures ChunkOk(chunks, blocks', c) {
      assert ChunkOk(chunks, blocks, c);
    }
    forall x | x in blocks' ensures BlockOk(chunks, blocks', x) {
      assert BlockOk(chunks, blocks, x);
    }
    forall x, y | x in blocks' && y in blocks' ensures BlocksApart(blocks', x, y) {
      assert BlocksApart(blocks, x, y);
    }
  }

  lemma SplitApart(chunks: Chunks, blocks: Blocks, a: int, size: int, x: int, y: int)
    requires Tiling(chunks, blocks) && a in blocks && 0 < size < blocks[a].size
    requires x in Split(blocks, a, size) && y in Split(blocks, a, size)
    ensures BlocksApart(Split(blocks, a, size), x, y)
  {
    var n := a + size;
    var x0, y0 := if x == n then a else x, if y == n then a else y;
    assert BlocksApart(blocks, x0, y0) && BlocksApart(blocks, y0, x0);
  }

  lemma SplitBlockOk(chunks: Chunks, blocks: Blocks, a: int, size: int, x: int)
    requires Tiling(chunks, blocks) && a in blocks && a + size !in blocks
    requires size % 16 == 0 && size >= 48 && blocks[a].size - size >= 48
    requires x in Split(blocks, a, size)
    ensures BlockOk(chunks, Split(blocks, a, size), x)
  {
    assert BlockOk(chunks, blocks, a);
    if x != a && x != a + size { assert BlockOk(chunks, blocks, x); }
  }

  lemma SplitTiling(chunks: Chunks, blocks: Blocks, a: int, size: int)
    requires Tiling(chunks, blocks) && a in blocks
    requires size % 16 == 0 && size >= 48 && blocks[a].size - size >= 48
    ensures a + size !in blocks
    ensures Tiling(chunks, Split(blocks, a, size))
  {
    var blocks', n := Split(blocks, a, size), a + size;
    assert BlockOk(chunks, blocks, a);
    assert n in blocks ==> BlocksApart(blocks, a, n);
    forall c | c in chunks ensures ChunkOk(chunks, blocks', c) {
      assert ChunkOk(chunks, blocks, c);
    }
    forall x | x in blocks' ensures BlockOk(chunks, blocks', x) {
      SplitBlockOk(chunks, blocks, a, size, x);
    }
    forall x, y | x in blocks' && y in blocks' ensures BlocksApart(blocks', x, y) {
      SplitApart(chunks, blocks, a, size, x, y);
    }
  }

  lemma MergeApart(chunks: Chunks, blocks: Blocks, a: int, n: int, x: int, y: int)
    requires Tiling(chunks, blocks) && Adjacent(blocks, a, n) && a < n
    requires x in Merge(blocks, a, n) && y in Merge(blocks, a, n)
    ensures BlocksApart(Merge(blocks, a, n), x, y)
  {
    assert y != n && x in blocks && y in blocks;
    assert BlocksApart(blocks, x, y) && BlocksApart(blocks, n, y);
  }

  lemma MergeBlockOk(chunks: Chunks, blocks: Blocks, a: int, n: int, x: int)
    requires Tiling(chunks, blocks) && Adjacent(blocks, a, n) && x in Merge(blocks, a, n)
    ensures BlockOk(chunks, Merge(blocks, a, n), x)
  {
    assert IsPrev(blocks, n, a);
    PrevUnique(chunks, blocks, n, a);
    InsideChunk(chunks, blocks, n);
    InsideChunk(chunks, blocks, x);
    var y := x + blocks[x].size;
    if y == n {
      assert IsPrev(blocks, n, x);
      PrevUnique(chunks, blocks, n, x);
      assert x == a;
    } else if x != a {
      assert y in blocks ==> y in Merge(blocks, a, n);
    }
  }

  lemma MergeChunkOk(chunks: Chunks, blocks: Blocks, a: int, n: int, c: int)
    requires Tiling(chunks, blocks) && Adjacent(blocks, a, n) && c in chunks
    ensures ChunkOk(chunks, Merge(blocks, a, n), c)
  {
    assert IsPrev(blocks, n, a);
    PrevUnique(chunks, blocks, n, a);
    FirstHasNoPrev(chunks, blocks, c);
  }

  lemma MergeTiling(chunks: Chunks, blocks: Blocks, a: int, n: int)
    requires Tiling(chunks, blocks) && Adjacent(blocks, a, n)
    ensures Tiling(chunks, Merge(blocks, a, n))
  {
    var blocks' := Merge(blocks, a, n);
    InsideChunk(chunks, blocks, a);
    forall c | c in chunks ensures ChunkOk(chunks, blocks', c) {
      MergeChunkOk(chunks, blocks, a, n, c);
    }
    forall x | x in blocks' ensures BlockOk(chunks, blocks', x) {
      MergeBlockOk(chunks, blocks, a, n, x);
    }
    forall x, y | x in blocks' && y in blocks' ensures BlocksApart(blocks', x, y) {
      MergeApart(chunks, blocks, a, n, x, y);
    }
  }

  /** `sz` bytes at `c` are page-aligned, addressable and outside every chunk. */
  ghost predicate FreshRegion(chunks: Chunks, c: int, sz: int) {
    && c > 0 && c % APAGE_SIZE == 0 && sz > 0 && sz % APAGE_SIZE == 0 && c + sz <= ADDRESS_LIMIT
    && forall d :: d in chunks ==> d + chunks[d] <= c || c + sz <= d
  }

  lemma OutsideRegion(chunks: Chunks, blocks: Blocks, c: int, sz: int, x: int)
    requires Tiling(chunks, blocks) && FreshRegion(chunks, c, sz) && x in blocks
    ensures BlockOk(chunks, blocks, x) && blocks[x].chunk != c
    ensures x + blocks[x].size <= c || c + sz <= x
  {
  }

  lemma AddChunkChunks(chunks: Chunks, blocks: Blocks, c: int, sz: int)
    requires Tiling(chunks, blocks) && FreshRegion(chunks, c, sz) && c !in chunks
    ensures var chunks', blocks' := chunks[c := sz], AddChunk(blocks, c, sz);
      && (forall d :: d in chunks' ==> ChunkOk(chunks', blocks', d))
      && (forall d, e {:trigger ChunksApart(chunks', d, e)} ::
        d in chunks' && e in chunks' ==> ChunksApart(chunks', d, e))
  {
    var chunks', blocks' := chunks[c := sz], AddChunk(blocks, c, sz);
    forall d | d in chunks' ensures ChunkOk(chunks', blocks', d) {
      if d != c { assert ChunkOk(chunks, blocks, d); }
    }
    forall d, e | d in chunks' && e in chunks' ensures ChunksApart(chunks', d, e) {
      if d != c && e != c { assert ChunksApart(chunks, d, e); }
    }
  }

  lemma PageIs16(c: int)
    requires c % APAGE_SIZE == 0
    ensures (c + PAGEHDRSIZE) % 16 == 0 && (c - PAGEHDRSIZE) % 16 == 0
  {
  }

  lemma AddChunkBlockOk(chunks: Chunks, blocks: Blocks, c: int, sz: int, x: int)
    requires Tiling(chunks, blocks) && FreshRegion(chunks, c, sz) && x in AddChunk(blocks, c, sz)
    ensures BlockOk(chunks[c := sz], AddChunk(blocks, c, sz), x)
  {
    PageIs16(c);
    PageIs16(sz);
    if x != c + PAGEHDRSIZE {
      OutsideRegion(chunks, blocks, c, sz, x);
    }
  }

  lemma AddChunkApart(chunks: Chunks, blocks: Blocks, c: int, sz: int, x: int, y: int)
    requires Tiling(chunks, blocks) && FreshRegion(chunks, c, sz)
    requires x in AddChunk(blocks, c, sz) && y in AddChunk(blocks, c, sz)
    ensures BlocksApart(AddChunk(blocks, c, sz), x, y)
  {
    var f := c + PAGEHDRSIZE;
    if x != f { OutsideRegion(chunks, blocks, c, sz, x); }
    if y != f { OutsideRegion(chunks, blocks, c, sz, y); }
    if x != f && y != f { assert BlocksApart(blocks, x, y); }
  }

  lemma AddChunkTiling(chunks: Chunks, blocks: Blocks, c: int, sz: int)
    requires Tiling(chunks, blocks) && FreshRegion(chunks, c, sz)
    ensures c !in chunks && c + PAGEHDRSIZE !in blocks
    ensures Tiling(chunks[c := sz], AddChunk(blocks, c, sz))
  {
    var f, chunks', blocks' := c + PAGEHDRSIZE, chunks[c := sz], AddChunk(blocks, c, sz);
    assert c in chunks ==> ChunkOk(chunks, blocks, c);
    forall x | x in blocks ensures x != f { OutsideRegion(chunks, blocks, c, sz, x); }
    AddChunkChunks(chunks, blocks, c, sz);
    forall x | x in blocks' ensures BlockOk(chunks', blocks', x) {
      AddChunkBlockOk(chunks, blocks, c, sz, x);
    }
    forall x, y | x in blocks' && y in blocks' ensures BlocksApart(blocks', x, y) {
      AddChunkApart(chunks, blocks, c, sz, x, y);
    }
  }

  /** The whole chunk is one free block. */
  ghost predicate Idle(chunks: Chunks, blocks: Blocks, c: int)
    requires c in chunks && c + PAGEHDRSIZE in blocks
  {
    !blocks[c + PAGEHDRSIZE].alloc && blocks[c + PAGEHDRSIZE].size == chunks[c] - PAGEHDRSIZE
  }

  /** An idle chunk has no other block, so dropping it leaves a tiling. */
  lemma DropChunkTiling(chunks: Chunks, blocks: Blocks, c: int)
    requires Tiling(chunks, blocks) && c in chunks
    requires c + PAGEHDRSIZE in blocks && Idle(chunks, blocks, c)
    ensures forall x :: x in blocks && blocks[x].chunk == c ==> x == c + PAGEHDRSIZE
    ensures Tiling(chunks - {c}, blocks - {c + PAGEHDRSIZE})
  {
    var f := c + PAGEHDRSIZE;
    var chunks', blocks' := chunks - {c}, blocks - {f};
    assert ChunkOk(chunks, blocks, c);
    forall x | x in blocks
      ensures BlockOk(chunks, blocks, x) && (blocks[x].chunk == c ==> x == f)
    {
      assert BlockOk(chunks, blocks, x);
      assert BlocksApart(blocks, f, x);
    }
    forall d | d in chunks' ensures ChunkOk(chunks', blocks', d) {
      assert ChunkOk(chunks, blocks, d);
    }
    forall d, e | d in chunks' && e in chunks' ensures ChunksApart(chunks', d, e) {
      assert ChunksApart(chunks, d, e);
    }
    forall x | x in blocks' ensures BlockOk(chunks', blocks', x) {
      assert BlockOk(chunks, blocks, x);
    }
    forall x, y | x in blocks' && y in blocks' ensures BlocksApart(blocks', x, y) {
      assert BlocksApart(blocks, x, y);
    }
  }
}
