/** Counting: the blocks of a chunk fill it exactly, the heap size is the sum of the chunks, and
    what clients asked for always fits into it with room for every header. */
module HeapAccounting {
  import opened Machine
  import opened Sequences
  import opened Layouts
  import opened HeapImage
  import opened MemLibs
  import opened Allocators

  // ---------------------------------------------------------------- a chunk is its blocks

  /** The headers met when walking from `x` to `end` block by block. */
  ghost function Walk(blocks: Blocks, x: int, end: int): seq<int>
    decreases end - x
  {
    if x in blocks && blocks[x].size > 0 && x < end then [x] + Walk(blocks, x + blocks[x].size, end) else []
  }

  ghost function TotalBytes(blocks: Blocks, s: seq<int>): int {
    if s == [] then 0 else (if s[0] in blocks then blocks[s[0]].size else 0) + TotalBytes(blocks, s[1..])
  }

  /** Each block of `s` ends where the next one begins, the last one at `end`. */
  ghost predicate Abut(blocks: Blocks, s: seq<int>, end: int) {
    forall i :: 0 <= i < |s| ==> s[i] in blocks && s[i] + blocks[s[i]].size == NextOf(s, i, end)
  }

  function NextOf(s: seq<int>, i: int, end: int): int {
    if 0 <= i + 1 < |s| then s[i + 1] else end
  }

  ghost predicate OnTile(L: Layout, c: int, x: int) {
    c in L.chunks && (x == c + L.chunks[c] || (x in L.blocks && L.blocks[x].chunk == c))
  }

  lemma WalkStep(L: Layout, c: int, x: int, end: int, y: int)
    requires Tiling(L.chunks, L.blocks) && OnTile(L, c, x) && end == c + L.chunks[c] && x != end
    requires y == x + L.blocks[x].size
    ensures x < y <= end && OnTile(L, c, y) && Walk(L.blocks, x, end) == [x] + Walk(L.blocks, y, end)
  {
    InsideChunk(L.chunks, L.blocks, x);
  }

  lemma {:induction false} WalkTotal(L: Layout, c: int, x: int, end: int)
    requires Tiling(L.chunks, L.blocks) && OnTile(L, c, x) && end == c + L.chunks[c]
    ensures TotalBytes(L.blocks, Walk(L.blocks, x, end)) == end - x
    decreases end - x
  {
    if x != end {
      var y := x + L.blocks[x].size;
      WalkStep(L, c, x, end, y);
      WalkTotal(L, c, y, end);
      assert ([x] + Walk(L.blocks, y, end))[1..] == Walk(L.blocks, y, end);
    }
  }

  lemma {:induction false} WalkAbuts(L: Layout, c: int, x: int, end: int)
    requires Tiling(L.chunks, L.blocks) && OnTile(L, c, x) && end == c + L.chunks[c]
    ensures var s := Walk(L.blocks, x, end);
      Abut(L.blocks, s, end) && (if x == end then s == [] else |s| > 0 && s[0] == x)
    decreases end - x
  {
    var s := Walk(L.blocks, x, end);
    if x != end {
      var y := x + L.blocks[x].size;
      WalkStep(L, c, x, end, y);
      WalkAbuts(L, c, y, end);
      var t := Walk(L.blocks, y, end);
      forall i | 0 <= i < |s| ensures s[i] in L.blocks && s[i] + L.blocks[s[i]].size == NextOf(s, i, end) {
        if i > 0 { assert s[i] == t[i - 1] && NextOf(s, i, end) == NextOf(t, i - 1, end); }
      }
    }
  }

  lemma {:induction false} WalkMembers(L: Layout, c: int, x: int, end: int, a: int)
    requires Tiling(L.chunks, L.blocks) && OnTile(L, c, x) && end == c + L.chunks[c]
    ensures a in Walk(L.blocks, x, end) <==> a in L.blocks && L.blocks[a].chunk == c && a >= x
    decreases end - x
  {
    if a in L.blocks { InsideChunk(L.chunks, L.blocks, a); }
    if x != end {
      var y := x + L.blocks[x].size;
      WalkStep(L, c, x, end, y);
      WalkMembers(L, c, y, end, a);
      if a in L.blocks { assert BlocksApart(L.blocks, x, a); }
    } else {
      NoBlockAtChunkEnd(L.chunks, L.blocks, c);
    }
  }

  lemma MembersFrom(L: Layout, c: int, x: int, end: int, s: seq<int>)
    requires Tiling(L.chunks, L.blocks) && OnTile(L, c, x) && x == c + PAGEHDRSIZE && end == c + L.chunks[c]
    requires s == Walk(L.blocks, x, end)
    ensures forall a :: a in s <==> a in L.blocks && L.blocks[a].chunk == c
  {
    forall a ensures a in s <==> a in L.blocks && L.blocks[a].chunk == c {
      WalkMembers(L, c, x, end, a);
      if a in L.blocks { InsideChunk(L.chunks, L.blocks, a); }
    }
  }

  /** Every chunk is covered exactly, from behind its header to its end, by its own blocks, each
      once and one behind the other. */
  lemma ChunkIsTiled(L: Layout, c: int, s: seq<int>)
    requires Tiling(L.chunks, L.blocks) && c in L.chunks
    requires s == Walk(L.blocks, c + PAGEHDRSIZE, c + L.chunks[c])
    ensures |s| > 0 && s[0] == c + PAGEHDRSIZE && Abut(L.blocks, s, c + L.chunks[c])
    ensures forall a :: a in s <==> a in L.blocks && L.blocks[a].chunk == c
    ensures TotalBytes(L.blocks, s) == L.chunks[c] - PAGEHDRSIZE
  {
    var x, end := c + PAGEHDRSIZE, c + L.chunks[c];
    assert ChunkOk(L.chunks, L.blocks, c);
    InsideChunk(L.chunks, L.blocks, x);
    WalkTotal(L, c, x, end);
    WalkAbuts(L, c, x, end);
    MembersFrom(L, c, x, end, s);
  }

  // ---------------------------------------------------------------- sums

  /** The sum of the values of a map. */
  ghost function MapSum(m: map<int, int>): int
    decreases |m|
  {
    if |m| == 0 then 0 else
      SomeKey(m);
      var k :| k in m;
      SmallerMap(m, k);
      m[k] + MapSum(m - {k})
  }

  lemma SomeKey(m: map<int, int>)
    requires |m| > 0
    ensures exists k :: k in m
  {
    var empty: map<int, int> := map[];
    assert (forall k :: k !in m) ==> m == empty;
  }

  lemma SmallerMap(m: map<int, int>, k: int)
    requires k in m
    ensures |m - {k}| == |m| - 1
  {
  }

  /** Any key may be split off. */
  lemma {:induction false} MapSumAt(m: map<int, int>, k: int)
    requires k in m
    ensures MapSum(m) == m[k] + MapSum(m - {k})
    decreases |m|
  {
    SomeKey(m);
    var j :| j in m && MapSum(m) == m[j] + MapSum(m - {j});
    if j != k {
      SmallerMap(m, j);
      SmallerMap(m, k);
      MapSumAt(m - {j}, k);
      MapSumAt(m - {k}, j);
      assert m - {j} - {k} == m - {k} - {j};
    }
  }

  lemma MapSumAdd(m: map<int, int>, k: int, v: int)
    requires k !in m
    ensures MapSum(m[k := v]) == MapSum(m) + v
  {
    MapSumAt(m[k := v], k);
    assert m[k := v] - {k} == m;
  }

  /** `m` is made of `m1` and `m2`, which have no key in common. */
  ghost predicate Parts(m: map<int, int>, m1: map<int, int>, m2: map<int, int>) {
    && m1.Keys !! m2.Keys && m.Keys == m1.Keys + m2.Keys
    && (forall k :: k in m1.Keys ==> m[k] == m1[k]) && (forall k :: k in m2.Keys ==> m[k] == m2[k])
  }

  lemma PartsSize(m: map<int, int>, m1: map<int, int>, m2: map<int, int>)
    requires Parts(m, m1, m2)
    ensures |m| == |m1| + |m2|
  {
  }

  lemma PartsLess(m: map<int, int>, m1: map<int, int>, m2: map<int, int>, k: int)
    requires Parts(m, m1, m2) && k in m1
    ensures k in m && m[k] == m1[k] && Parts(m - {k}, m1 - {k}, m2)
  {
  }

  lemma {:induction false} MapSumParts(m: map<int, int>, m1: map<int, int>, m2: map<int, int>)
    requires Parts(m, m1, m2)
    ensures MapSum(m) == MapSum(m1) + MapSum(m2)
    decreases |m|
  {
    PartsSize(m, m1, m2);
    if |m1| > 0 {
      SomeKey(m1);
      var k :| k in m1;
      PartsLess(m, m1, m2, k);
      SmallerMap(m, k);
      MapSumAt(m1, k);
      MapSumAt(m, k);
      MapSumParts(m - {k}, m1 - {k}, m2);
    } else if |m2| > 0 {
      SomeKey(m2);
      var k :| k in m2;
      PartsLess(m, m2, m1, k);
      SmallerMap(m, k);
      MapSumAt(m2, k);
      MapSumAt(m, k);
      MapSumParts(m - {k}, m1, m2 - {k});
    }
  }

  /** The sizes of the listed chunks. */
  ghost function HeapBytes(order: seq<int>, chunks: Chunks): int {
    if order == [] then 0 else (if order[0] in chunks then chunks[order[0]] else 0) + HeapBytes(order[1..], chunks)
  }

  // ---------------------------------------------------------------- heap size

  ghost function ListedPages(order: seq<int>, chunks: Chunks): set<int> {
    if order == [] then {}
    else (if order[0] in chunks then PageRange(order[0], chunks[order[0]]) else {}) + ListedPages(order[1..], chunks)
  }

  lemma ListedPagesOf(order: seq<int>, chunks: Chunks, p: int)
    ensures p in ListedPages(order, chunks) <==>
      exists c :: c in order && c in chunks && p in PageRange(c, chunks[c])
  {
  }

  lemma {:induction false} ListedBytes(L: Layout, s: seq<int>)
    requires Tiling(L.chunks, L.blocks) && Distinct(s) && forall c :: c in s ==> c in L.chunks
    ensures APAGE_SIZE * |ListedPages(s, L.chunks)| == HeapBytes(s, L.chunks)
  {
    if s != [] {
      var c, rest := s[0], s[1..];
      assert s == [c] + rest;
      ListedBytes(L, rest);
      assert ChunkOk(L.chunks, L.blocks, c);
      RangeSize(c, L.chunks[c]);
      forall p | p in ListedPages(rest, L.chunks) ensures p !in PageRange(c, L.chunks[c]) {
        ListedPagesOf(rest, L.chunks, p);
        var d :| d in rest && d in L.chunks && p in PageRange(d, L.chunks[d]);
        assert ChunksApart(L.chunks, c, d) && ChunksApart(L.chunks, d, c);
      }
    }
  }

  /** 4096 bytes for each mapped page are the page sizes of the chunks on the page list. */
  lemma HeapSizeIsListed(L: Layout)
    requires Tiling(L.chunks, L.blocks) && Distinct(L.order) && Members(L.order, L.chunks)
    ensures APAGE_SIZE * |PagesOf(L.chunks)| == HeapBytes(L.order, L.chunks)
  {
    ListedBytes(L, L.order);
    forall p ensures p in ListedPages(L.order, L.chunks) <==> p in PagesOf(L.chunks) {
      ListedPagesOf(L.order, L.chunks, p);
    }
    assert ListedPages(L.order, L.chunks) == PagesOf(L.chunks);
  }

  // ---------------------------------------------------------------- utilization

  /** `asked` gives, for used blocks, the payload bytes asked for; each block has room for them. */
  ghost predicate Served(blocks: Blocks, asked: map<int, int>) {
    forall a :: a in asked ==> a in blocks && asked[a] + HDRSIZE + FDRSIZE <= blocks[a].size
  }

  /** In one chunk, from block `x` on. */
  lemma {:induction false} ChunkLoad(L: Layout, c: int, x: int, end: int, asked: map<int, int>)
    requires Tiling(L.chunks, L.blocks) && OnTile(L, c, x) && end == c + L.chunks[c]
    requires Served(L.blocks, asked) && forall a :: a in asked ==> L.blocks[a].chunk == c && a >= x
    ensures MapSum(asked) + 32 * |asked| <= end - x
    decreases end - x
  {
    if x == end {
      forall a | a in L.blocks && L.blocks[a].chunk == c ensures a < end { InsideChunk(L.chunks, L.blocks, a); }
      if |asked| > 0 { SomeKey(asked); }
    } else {
      var y := x + L.blocks[x].size;
      WalkStep(L, c, x, end, y);
      forall a | a in asked && a != x ensures a >= y { assert BlocksApart(L.blocks, x, a); }
      if x in asked {
        MapSumAt(asked, x);
        SmallerMap(asked, x);
        ChunkLoad(L, c, y, end, asked - {x});
      } else {
        ChunkLoad(L, c, y, end, asked);
      }
    }
  }

  lemma WholeChunkLoad(L: Layout, c: int, asked: map<int, int>)
    requires Tiling(L.chunks, L.blocks) && c in L.chunks
    requires Served(L.blocks, asked) && forall a :: a in asked ==> L.blocks[a].chunk == c
    ensures MapSum(asked) + 32 * |asked| + 32 <= L.chunks[c]
  {
    assert ChunkOk(L.chunks, L.blocks, c);
    forall a | a in asked ensures a >= c + PAGEHDRSIZE { InsideChunk(L.chunks, L.blocks, a); }
    ChunkLoad(L, c, c + PAGEHDRSIZE, c + L.chunks[c], asked);
  }

  lemma {:induction false} ListLoad(L: Layout, s: seq<int>, asked: map<int, int>)
    requires Tiling(L.chunks, L.blocks) && forall c :: c in s ==> c in L.chunks
    requires Served(L.blocks, asked) && forall a :: a in asked ==> L.blocks[a].chunk in s
    ensures MapSum(asked) + 32 * |asked| + 32 * |s| <= HeapBytes(s, L.chunks)
  {
    if s != [] {
      var c, rest := s[0], s[1..];
      assert s == [c] + rest && c in s;
      var here, there := InChunk(L, c, asked), NotInChunk(L, c, asked);
      SplitAsked(L, c, asked);
      WholeChunkLoad(L, c, here);
      ListLoad(L, rest, there);
    }
  }

  ghost function InChunk(L: Layout, c: int, asked: map<int, int>): map<int, int>
    requires Served(L.blocks, asked)
  {
    map a | a in asked && L.blocks[a].chunk == c :: asked[a]
  }

  ghost function NotInChunk(L: Layout, c: int, asked: map<int, int>): map<int, int>
    requires Served(L.blocks, asked)
  {
    map a | a in asked && L.blocks[a].chunk != c :: asked[a]
  }

  lemma SplitAsked(L: Layout, c: int, asked: map<int, int>)
    requires Served(L.blocks, asked)
    ensures var here, there := InChunk(L, c, asked), NotInChunk(L, c, asked);
      MapSum(asked) == MapSum(here) + MapSum(there) && |asked| == |here| + |there|
  {
    var here, there := InChunk(L, c, asked), NotInChunk(L, c, asked);
    assert Parts(asked, here, there);
    PartsSize(asked, here, there);
    MapSumParts(asked, here, there);
  }

  /** All that was asked for, 32 bytes a block and 32 bytes a chunk fit into the heap. */
  lemma HeapLoad(L: Layout, asked: map<int, int>)
    requires Tiling(L.chunks, L.blocks) && Members(L.order, L.chunks) && Served(L.blocks, asked)
    ensures MapSum(asked) + 32 * |asked| + 32 * |L.order| <= HeapBytes(L.order, L.chunks)
  {
    forall a | a in asked ensures L.blocks[a].chunk in L.order {
      InsideChunk(L.chunks, L.blocks, a);
    }
    ListLoad(L, L.order, asked);
  }
}
