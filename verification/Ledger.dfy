/** The bookkeeping that ties a run of the driver to the heap: what each block in use was asked
    for, which id holds which block, which extents are listed, and what the driver wrote there. */
module Ledger {
  import opened Machine
  import opened Layouts
  import opened HeapImage
  import opened MallocSpec
  import opened HeapTheorems
  import opened HeapAccounting
  import opened MemLibs
  import opened PageMaps
  import opened Allocators
  import opened RangeLists
  import opened Traces

  /** `asked`: header of a block in use -> bytes asked for; `at`: id -> header of the block it
      holds; `owner`: header -> the id it was handed out for. */
  datatype Book = Book(asked: map<int, int>, at: map<int, int>, owner: map<int, int>)

  function EmptyBook(): Book { Book(map[], map[], map[]) }

  function Assigned(b: Book, id: int, h: int): Book {
    Book(b.asked, b.at[id := h], b.owner[h := id])
  }

  function Retired(b: Book, id: int): Book
    requires id in b.at
  {
    Book(b.asked - {b.at[id]}, b.at - {id}, b.owner)
  }

  ghost predicate Unheld(b: Book, h: int) {
    h in b.asked && forall i :: i in b.at ==> b.at[i] != h && b.at[i] in b.asked
  }

  /** `h` is a new block of `n` bytes that no id holds. */
  ghost predicate Obtained(b: Book, b': Book, h: int, n: int) {
    h !in b.asked && b' == b.(asked := b.asked[h := n]) && Unheld(b', h)
  }

  /** `id` was handed a new block of `n` bytes. */
  ghost predicate HandedOut(b: Book, b': Book, id: int, n: int) {
    exists h :: h !in b.asked && b' == Assigned(b.(asked := b.asked[h := n]), id, h)
  }

  /** `id` was handed a new block of `n` bytes in exchange for its old one. */
  ghost predicate Exchanged(b: Book, b': Book, id: int, n: int) {
    && id in b.at
    && exists h :: h !in b.asked && b' == Assigned(Retired(b.(asked := b.asked[h := n]), id), id, h)
  }

  /** The request can be carried out: its id is in range, and holds a block if it must. */
  ghost predicate Servable(op: Op, b: Book, n: nat) {
    && 0 <= op.index < n
    && (!op.Free? ==> 0 <= op.size <= INT_MAX)
    && (!op.Alloc? ==> op.index in b.at)
  }

  predicate Demanding(op: Op) { op.Free? || op.size > 0 }

  ghost predicate Stepped(op: Op, b: Book, b': Book) {
    match op
    case Alloc(id, n) => HandedOut(b, b', id, n)
    case Realloc(id, n) => Exchanged(b, b', id, n)
    case Free(id) => id in b.at && b' == Retired(b, id)
  }

  /** Exactly the blocks in use were asked for, each has room, and no request was empty. */
  ghost predicate AskedOk(blocks: Blocks, asked: map<int, int>) {
    forall h {:trigger AskedAt(blocks, asked, h)} :: AskedAt(blocks, asked, h)
  }

  ghost predicate AskedAt(blocks: Blocks, asked: map<int, int>, h: int) {
    && (h in asked <==> h in Used(blocks))
    && (h in asked ==> asked[h] > 0 && asked[h] + HDRSIZE + FDRSIZE <= blocks[h].size)
  }

  lemma AskedIs(blocks: Blocks, asked: map<int, int>)
    requires AskedOk(blocks, asked)
    ensures asked.Keys == Used(blocks) && Served(blocks, asked)
    ensures forall h :: h in asked ==> asked[h] > 0
  {
    forall h ensures h in asked.Keys <==> h in Used(blocks) { assert AskedAt(blocks, asked, h); }
    forall h | h in asked
      ensures h in blocks && asked[h] + HDRSIZE + FDRSIZE <= blocks[h].size && asked[h] > 0
    {
      assert AskedAt(blocks, asked, h);
    }
  }

  ghost predicate ListedAt(asked: map<int, int>, r: Range, h: int) {
    h in asked && r == Extent(h, asked[h])
  }

  /** The extent of `n` payload bytes in the block at `h`. */
  function Extent(h: int, n: int): Range { Range(h + HDRSIZE, h + HDRSIZE + n - 1) }

  /** The list holds the extents of the payloads asked for, each once. */
  ghost predicate RangesOk(ranges: seq<Range>, asked: map<int, int>) {
    && (forall i, j :: 0 <= i < j < |ranges| ==> ranges[i].lo != ranges[j].lo)
    && (forall r :: r in ranges ==> ListedAt(asked, r, r.lo - HDRSIZE))
    && (forall h :: h in asked ==> Extent(h, asked[h]) in ranges)
  }

  /** The trace's arrays give, for each id that holds a block, its payload and its size. */
  ghost predicate IdOk(payloads: seq<int>, sizes: seq<int>, b: Book, id: int)
    requires id in b.at
  {
    && 0 <= id < |payloads| == |sizes|
    && b.at[id] in b.asked && payloads[id] == b.at[id] + HDRSIZE && sizes[id] == b.asked[b.at[id]]
  }

  ghost predicate IdsOk(payloads: seq<int>, sizes: seq<int>, b: Book) {
    && (forall id {:trigger IdOk(payloads, sizes, b, id)} :: id in b.at ==> IdOk(payloads, sizes, b, id))
    && Unshared(b)
  }

  /** No two ids hold the same block. */
  ghost predicate Unshared(b: Book) {
    forall i, j {:trigger Different(b, i, j)} :: Different(b, i, j)
  }

  ghost predicate Different(b: Book, i: int, j: int) {
    i in b.at && j in b.at && i != j ==> b.at[i] != b.at[j]
  }

  /** Nothing in use is unreachable through an id. */
  ghost predicate NoLeak(b: Book) {
    forall h :: h in b.asked ==> h in b.owner && b.owner[h] in b.at && b.at[b.owner[h]] == h
  }

  // ---------------------------------------------------------------- payload contents

  /** Byte `i` of the little-endian word `w`. */
  function ByteAt(w: int, i: nat): int
    decreases i
  {
    if i == 0 then w % 256 else ByteAt(w / 256, i - 1)
  }

  /** The byte at address `a`. */
  function ByteOf(words: Memory, a: int): int
    requires a - a % 8 in words
  {
    ByteAt(words[a - a % 8], a % 8)
  }

  ghost predicate HoldsByte(words: Memory, a: int, b: int) {
    a - a % 8 in words && ByteOf(words, a) == b
  }

  ghost predicate SameByte(words: Memory, words': Memory, a: int) {
    a - a % 8 in words ==> a - a % 8 in words' && ByteOf(words', a) == ByteOf(words, a)
  }

  /** `p` is word-aligned, and all `n` bytes from there on are mapped and hold `b`. */
  ghost predicate Filled(words: Memory, p: int, n: int, b: int) {
    p % 8 == 0 && forall a {:trigger HoldsByte(words, a, b)} :: p <= a < p + n ==> HoldsByte(words, a, b)
  }

  /** The word `w` after its low `k` bytes are set to `b`. */
  function FillWord(w: int, b: int, k: nat): int
    decreases k
  {
    if k == 0 then w else FillWord(w / 256, b, k - 1) * 256 + b
  }

  lemma LowByte(v: int, b: int)
    requires 0 <= b < 256
    ensures (v * 256 + b) % 256 == b && (v * 256 + b) / 256 == v
  {
  }

  lemma {:induction false} FillWordBytes(w: int, b: int, k: nat, i: nat)
    requires 0 <= b < 256
    ensures ByteAt(FillWord(w, b, k), i) == if i < k then b else ByteAt(w, i)
    decreases k
  {
    if k > 0 {
      LowByte(FillWord(w / 256, b, k - 1), b);
      if i > 0 { FillWordBytes(w / 256, b, k - 1, i - 1); }
    }
  }

  /** How many of the bytes below `e` lie in the word at `x`. */
  function BytesIn(e: int, x: int): nat
    requires x < e
  {
    if e - x < 8 then e - x else 8
  }

  /** `memset(p, b, n)` for a word-aligned `p`. */
  function Memset(words: Memory, p: int, n: int, b: int): Memory {
    map x | x in words :: if p <= x < p + n then FillWord(words[x], b, BytesIn(p + n, x)) else words[x]
  }

  /** The byte at `a`, in the word at `x`, after filling. */
  lemma MemsetByte(words: Memory, p: int, n: int, b: int, a: int, x: int)
    requires 0 <= b < 256 && p % 8 == 0 && x == a - a % 8 && x in words
    ensures ByteOf(Memset(words, p, n, b), a) == if p <= a < p + n then b else ByteOf(words, a)
  {
    if p <= x < p + n { FillWordBytes(words[x], b, BytesIn(p + n, x), a % 8); }
  }

  /** Filling sets every byte of the payload, and no other byte. */
  lemma MemsetBytes(words: Memory, p: int, n: int, b: int)
    requires 0 <= b < 256 && p % 8 == 0
    requires forall x :: p <= x < p + n && WordAligned(x) ==> x in words
    ensures Filled(Memset(words, p, n, b), p, n, b)
    ensures forall a :: !(p <= a < p + n) ==> SameByte(words, Memset(words, p, n, b), a)
  {
    forall a | p <= a < p + n ensures HoldsByte(Memset(words, p, n, b), a, b) {
      assert p <= a - a % 8 && WordAligned(a - a % 8);
      MemsetByte(words, p, n, b, a, a - a % 8);
    }
    forall a | !(p <= a < p + n) ensures SameByte(words, Memset(words, p, n, b), a) {
      if a - a % 8 in words { MemsetByte(words, p, n, b, a, a - a % 8); }
    }
  }

  ghost predicate FillOk(words: Memory, b: Book, id: int)
    requires id in b.at && b.at[id] in b.asked
  {
    Filled(words, b.at[id] + HDRSIZE, b.asked[b.at[id]], id % 256)
  }

  /** Each id's payload still holds what the driver wrote there. */
  ghost predicate FillsOk(words: Memory, b: Book) {
    forall id {:trigger FillOk(words, b, id)} :: id in b.at && b.at[id] in b.asked ==> FillOk(words, b, id)
  }

  // ---------------------------------------------------------------- the checks of the driver

  /** A new payload passes every check: it is aligned, on mapped pages, and apart from the
      payloads of all other blocks in use, listed or not. */
  lemma ChecksPass(L: Layout, pages: set<int>, ranges: seq<Range>, listed: map<int, int>, h: int, p: int, n: int)
    requires HeapOk(L) && PagesOf(L.chunks) <= pages
    requires h in Used(L.blocks) && h !in listed && p == h + HDRSIZE && n > 0
    requires n + HDRSIZE + FDRSIZE <= L.blocks[h].size
    requires RangesOk(ranges, listed) && Served(L.blocks, listed)
    requires forall a :: a in listed ==> a in Used(L.blocks) && listed[a] > 0
    ensures p % 16 == 0 && AllMapped(pages, p, n) && NoneOverlaps(ranges, p, p + n - 1)
    ensures p >= 0 && p + n <= ADDRESS_LIMIT
  {
    InsideChunk(L.chunks, L.blocks, h);
    Shift16(h, p);
    var c := L.blocks[h].chunk;
    forall x | p <= x < p + n ensures PageOf(x) in pages {
      ChunkPage(L, c, x);
    }
    forall r | r in ranges ensures !Overlaps(p, p + n - 1, r) {
      var a := r.lo - HDRSIZE;
      assert ListedAt(listed, r, a);
      PayloadsDisjoint(L, h, a);
    }
  }

  /** The listed payloads are pairwise disjoint: this comes from the blocks, not from the driver's
      tests. */
  lemma ListedDisjoint(L: Layout, ranges: seq<Range>, asked: map<int, int>, i: nat, j: nat)
    requires HeapOk(L) && AskedOk(L.blocks, asked) && RangesOk(ranges, asked) && i < j < |ranges|
    ensures ranges[i].hi < ranges[j].lo || ranges[j].hi < ranges[i].lo
  {
    AskedIs(L.blocks, asked);
    var r, q := ranges[i], ranges[j];
    assert r in ranges && q in ranges;
    var a, b := r.lo - HDRSIZE, q.lo - HDRSIZE;
    assert ListedAt(asked, r, a) && ListedAt(asked, q, b);
    assert a in asked.Keys && b in asked.Keys;
    PayloadsDisjoint(L, a, b);
  }

  lemma ChunkPage(L: Layout, c: int, x: int)
    requires Tiling(L.chunks, L.blocks) && c in L.chunks && c <= x < c + L.chunks[c]
    ensures PageOf(x) in PagesOf(L.chunks)
  {
    assert ChunkOk(L.chunks, L.blocks, c);
    PageOfInRange(c, L.chunks[c], x);
  }

  lemma ListRange(ranges: seq<Range>, listed: map<int, int>, h: int, n: int)
    requires RangesOk(ranges, listed) && h !in listed
    ensures RangesOk([Extent(h, n)] + ranges, listed[h := n])
  {
  }

  lemma UnlistRange(ranges: seq<Range>, listed: map<int, int>, h: int, p: int)
    requires RangesOk(ranges, listed) && p == h + HDRSIZE
    ensures RangesOk(WithoutFirst(ranges, p), listed - {h})
  {
    var w, listed' := WithoutFirst(ranges, p), listed - {h};
    WithoutFirstMembers(ranges, p);
    forall r | r in w ensures ListedAt(listed', r, r.lo - HDRSIZE) {}
    forall a | a in listed' ensures Extent(a, listed'[a]) in w {
      assert Extent(a, listed[a]) in ranges;
    }
  }

  // ---------------------------------------------------------------- the bookkeeping after each step

  lemma GrantAsked(blocks: Blocks, blocks': Blocks, asked: map<int, int>, h: int, n: int)
    requires AskedOk(blocks, asked) && n > 0 && 0 !in blocks
    requires Granted(blocks, blocks', h, HDRSIZE + Align(n) + FDRSIZE)
    ensures h !in asked && AskedOk(blocks', asked[h := n])
  {
    AskedIs(blocks, asked);
  }

  lemma ReleaseAsked(blocks: Blocks, blocks': Blocks, asked: map<int, int>, h: int)
    requires AskedOk(blocks, asked)
    requires Used(blocks') == Used(blocks) - {h} && UsedKept(blocks, blocks', h)
    ensures AskedOk(blocks', asked - {h})
  {
    AskedIs(blocks, asked);
  }

  /** What is kept word for word is still filled. */
  lemma FillKept(m: Memory, m': Memory, blocks: Blocks, b: Book, id: int, hole: int)
    requires LiveKept(m, m', blocks, hole) && AskedOk(blocks, b.asked)
    requires id in b.at && b.at[id] in b.asked && b.at[id] != hole
    requires FillOk(m, b, id)
    ensures FillOk(m', b, id)
  {
    AskedIs(blocks, b.asked);
    var h := b.at[id];
    assert h in b.asked.Keys;
    FilledKept(m, m', blocks, h, h + HDRSIZE, b.asked[h], id % 256);
  }

  lemma FilledKept(m: Memory, m': Memory, blocks: Blocks, h: int, p: int, n: int, v: int)
    requires h in blocks && p == h + HDRSIZE && n + HDRSIZE + FDRSIZE <= blocks[h].size
    requires SamePayload(m, m', blocks, h) && Filled(m, p, n, v)
    ensures Filled(m', p, n, v)
  {
    forall a | p <= a < p + n ensures HoldsByte(m', a, v) {
      assert HoldsByte(m, a, v);
      WordOfByte(p, a, a - a % 8);
    }
  }

  lemma WordOfByte(p: int, a: int, x: int)
    requires p % 8 == 0 && p <= a && x == a - a % 8
    ensures p <= x <= a
  {
  }

  /** Contents survive a step that keeps the payloads of all blocks in use but `hole`. */
  lemma FillsKept(m: Memory, m': Memory, blocks: Blocks, b: Book, hole: int)
    requires LiveKept(m, m', blocks, hole) && AskedOk(blocks, b.asked) && FillsOk(m, b)
    requires forall id :: id in b.at ==> b.at[id] != hole
    ensures FillsOk(m', b)
  {
    forall id | id in b.at && b.at[id] in b.asked ensures FillOk(m', b, id) {
      assert FillOk(m, b, id);
      FillKept(m, m', blocks, b, id, hole);
    }
  }

  /** Contents are a matter of the blocks the ids hold. */
  lemma FillsSame(m: Memory, b: Book, b': Book)
    requires FillsOk(m, b)
    requires forall id :: id in b'.at ==> id in b.at && b'.at[id] == b.at[id]
    requires forall h :: h in b'.asked && h in b.asked ==> b'.asked[h] == b.asked[h]
    requires forall id :: id in b'.at ==> b.at[id] in b.asked
    ensures FillsOk(m, b')
  {
    forall id | id in b'.at && b'.at[id] in b'.asked ensures FillOk(m, b', id) {
      assert FillOk(m, b, id);
    }
  }

  /** Id `id` is given the block `h`, which nobody holds. */
  lemma IdsGrant(payloads: seq<int>, sizes: seq<int>, b: Book, b': Book, id: int, h: int, n: int)
    requires IdsOk(payloads, sizes, b) && 0 <= id < |payloads| == |sizes|
    requires h in b.asked && b.asked[h] == n && (forall i :: i in b.at ==> b.at[i] != h)
    requires b'.asked == b.asked && b'.at == b.at[id := h]
    ensures IdsOk(payloads[id := h + HDRSIZE], sizes[id := n], b')
  {
    forall i | i in b'.at ensures IdOk(payloads[id := h + HDRSIZE], sizes[id := n], b', i) {
      if i != id { assert IdOk(payloads, sizes, b, i); }
    }
    forall i, j {:trigger Different(b', i, j)} ensures Different(b', i, j) { assert Different(b, i, j); }
  }

  /** A block no id holds is given back. */
  lemma IdsRelease(payloads: seq<int>, sizes: seq<int>, b: Book, b': Book, h: int)
    requires IdsOk(payloads, sizes, b)
    requires b'.at.Keys <= b.at.Keys && forall i :: i in b'.at ==> i in b.at && b'.at[i] == b.at[i] && b.at[i] != h
    requires b'.asked == b.asked - {h}
    ensures IdsOk(payloads, sizes, b')
  {
    forall i | i in b'.at ensures IdOk(payloads, sizes, b', i) {
      assert IdOk(payloads, sizes, b, i);
    }
    forall i, j {:trigger Different(b', i, j)} ensures Different(b', i, j) { assert Different(b, i, j); }
  }

  /** One more block in use, held by nobody yet. */
  lemma IdsGrow(payloads: seq<int>, sizes: seq<int>, b: Book, b': Book, h: int, n: int)
    requires IdsOk(payloads, sizes, b) && h !in b.asked && b' == b.(asked := b.asked[h := n])
    ensures IdsOk(payloads, sizes, b') && forall i :: i in b.at ==> b.at[i] != h && b.at[i] in b.asked
  {
    forall i | i in b.at ensures IdOk(payloads, sizes, b', i) && b.at[i] != h && b.at[i] in b.asked {
      assert IdOk(payloads, sizes, b, i);
    }
    forall i, j {:trigger Different(b', i, j)} ensures Different(b', i, j) { assert Different(b, i, j); }
  }

  /** Contents after id `id` was given the freshly filled block `h`. */
  lemma FillsGrant(m: Memory, b: Book, b': Book, id: int, h: int)
    requires FillsOk(m, b) && (forall i :: i in b.at ==> b.at[i] in b.asked)
    requires b'.asked == b.asked && b'.at == b.at[id := h] && h in b.asked
    requires Filled(m, h + HDRSIZE, b.asked[h], id % 256)
    ensures FillsOk(m, b')
  {
    forall i | i in b'.at && b'.at[i] in b'.asked ensures FillOk(m, b', i) {
      if i != id { assert FillOk(m, b, i); }
    }
  }

  /** Contents after a request was answered and the answer entered in the book. */
  lemma FillsGrow(m: Memory, m': Memory, blocks: Blocks, payloads: seq<int>, sizes: seq<int>, b: Book, b': Book,
                  h: int, n: int)
    requires LiveKept(m, m', blocks, 0) && 0 !in blocks && AskedOk(blocks, b.asked) && FillsOk(m, b)
    requires IdsOk(payloads, sizes, b) && h !in b.asked && b' == b.(asked := b.asked[h := n])
    ensures FillsOk(m', b') && IdsOk(payloads, sizes, b')
    ensures forall i :: i in b.at ==> b.at[i] != h && b.at[i] in b.asked
  {
    AskedIs(blocks, b.asked);
    IdsGrow(payloads, sizes, b, b', h, n);
    forall i | i in b.at ensures b.at[i] != 0 { assert b.at[i] in b.asked.Keys; }
    FillsKept(m, m', blocks, b, 0);
    FillsSame(m', b, b');
  }

  /** Id `id` gives up its block, which is no longer in use. */
  lemma RetireIds(payloads: seq<int>, sizes: seq<int>, b: Book, b': Book, id: int)
    requires IdsOk(payloads, sizes, b) && id in b.at
    requires b' == Book(b.asked - {b.at[id]}, b.at - {id}, b.owner)
    ensures IdsOk(payloads, sizes, b')
  {
    forall i | i in b'.at ensures b.at[i] != b.at[id] { assert Different(b, i, id); }
    IdsRelease(payloads, sizes, b, b', b.at[id]);
  }

  lemma RetireFills(m: Memory, m': Memory, blocks: Blocks, payloads: seq<int>, sizes: seq<int>, b: Book, b': Book,
                    id: int)
    requires AskedOk(blocks, b.asked) && FillsOk(m, b) && IdsOk(payloads, sizes, b) && id in b.at
    requires LiveKept(m, m', blocks, b.at[id])
    requires b' == Book(b.asked - {b.at[id]}, b.at - {id}, b.owner)
    ensures FillsOk(m', b')
  {
    var h := b.at[id];
    forall i | i in b'.at ensures b.at[i] != h && b.at[i] in b.asked {
      assert IdOk(payloads, sizes, b, i) && Different(b, i, id);
    }
    var b1 := b.(at := b'.at);
    FillsSame(m, b, b1);
    FillsKept(m, m', blocks, b1, h);
    FillsSame(m', b1, b');
  }

  lemma ExchangeAsked(b: Book, b1: Book, b2: Book, id: int, h: int, n: int)
    requires Obtained(b, b1, h, n) && id in b.at && b.at[id] in b.asked
    requires b2 == Assigned(Retired(b1, id), id, h)
    ensures b2.asked == (b.asked - {b.at[id]})[h := n] && Exchanged(b, b2, id, n)
  {
  }

  lemma RetireKeepsUnheld(b: Book, id: int, h: int)
    requires Unshared(b) && Unheld(b, h) && id in b.at
    ensures Unheld(Retired(b, id), h)
  {
    forall i | i in b.at && i != id ensures b.at[i] != b.at[id] { assert Different(b, i, id); }
  }
}
