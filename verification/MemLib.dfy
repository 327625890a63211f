/** The bridge to the operating system: regions of whole pages are mapped and unmapped, every
    page is recorded in the page map, and the pages are counted. */
module MemLibs {
  import opened Machine
  import opened Outcomes
  import opened PageMaps

  const MAP_FAILED := -1

  predicate PageAligned(p: int) { p % APAGE_SIZE == 0 }

  /** The addresses of the pages in `[p, p + sz)`. */
  function PageRange(p: int, sz: int): set<int> {
    set q | p <= q < p + sz && PageAligned(q) :: q
  }

  /** What a successful `mmap` promises: a page-aligned, non-null, addressable region no word
      of which is mapped yet. */
  predicate Unused(words: Memory, p: int, sz: int) {
    && p > 0 && PageAligned(p) && p + sz <= ADDRESS_LIMIT
    && forall x :: x in words ==> !(p <= x < p + sz)
  }

  function Zeros(p: int, sz: int): Memory {
    map x | p <= x < p + sz && WordAligned(x) :: 0
  }

  /** Whole pages in the address space. */
  predicate Region(p: int, sz: int) {
    p > 0 && PageAligned(p) && PageAligned(sz) && sz >= 0 && p + sz <= ADDRESS_LIMIT
  }

  predicate WordAligned(x: int) { x % 8 == 0 }

  /** Exactly the aligned words of the mapped pages can be accessed. */
  ghost predicate WordsOf(words: set<int>, pages: set<int>) {
    forall x {:trigger WordOk(words, pages, x)} :: WordOk(words, pages, x)
  }

  ghost predicate WordOk(words: set<int>, pages: set<int>, x: int) {
    x in words <==> x % 8 == 0 && PageOf(x) in pages
  }

  ghost predicate PageOk(p: int) {
    0 < p < ADDRESS_LIMIT && PageAligned(p)
  }

  lemma PageOfInRange(p: int, sz: int, x: int)
    requires PageAligned(p) && PageAligned(sz)
    ensures PageOf(x) in PageRange(p, sz) <==> p <= x < p + sz
  {
    assert PageAligned(PageOf(x));
  }

  lemma PageIsOwn(p: int)
    requires PageAligned(p)
    ensures PageOf(p) == p && p % 8 == 0
  {
  }

  /** One page more. */
  lemma RangeStep(p: int, i: int, sz: int)
    requires PageAligned(p) && PageAligned(i) && PageAligned(sz) && 0 <= i < sz
    ensures PageAligned(p + i) && PageAligned(i + APAGE_SIZE) && i + APAGE_SIZE <= sz
    ensures p + i in PageRange(p, sz) && p + i !in PageRange(p, i)
    ensures PageRange(p, i + APAGE_SIZE) == PageRange(p, i) + {p + i}
  {
  }

  lemma {:induction false} RangeSize(p: int, sz: int)
    requires PageAligned(p) && PageAligned(sz) && sz >= 0
    ensures APAGE_SIZE * |PageRange(p, sz)| == sz
    decreases sz
  {
    if sz > 0 {
      RangeSize(p, sz - APAGE_SIZE);
      RangeStep(p, sz - APAGE_SIZE, sz);
    }
  }

  lemma SmallerSet(a: set<int>, b: set<int>)
    requires a <= b
    ensures |a| <= |b|
  {
    assert b == a + (b - a);
  }

  /** There are fewer mapped pages than pages of the address space, as the first is never mapped. */
  lemma AllPages(pages: set<int>)
    requires forall p {:trigger PageOk(p)} :: p in pages ==> PageOk(p)
    ensures |pages| < PAGES
  {
    var size := ADDRESS_LIMIT - APAGE_SIZE;
    assert PageAligned(APAGE_SIZE) && PageAligned(size);
    RangeSize(APAGE_SIZE, size);
    forall p | p in pages ensures p in PageRange(APAGE_SIZE, size) {
      assert PageOk(p);
    }
    SmallerSet(pages, PageRange(APAGE_SIZE, size));
  }

  /** What the product of the page size and the page count, both `int`, makes of `pages` pages. */
  function HeapFigure(pages: nat): int { SizeT(Int32(APAGE_SIZE * pages)) }

  /** The product loses all but its low 32 bits, and is then extended with its sign to 64. */
  lemma HeapFigureIs(pages: nat, low: int)
    requires low == 4096 * pages % 0x1_0000_0000
    ensures HeapFigure(pages) == if low < 0x8000_0000 then low else low + 0xffff_ffff_0000_0000
  {
  }

  /** The bytes fit into an `int`, or are those of all but at most 2 GiB of the address space: then
      the negative `int` becomes the right `size_t`. */
  predicate IntSized(pages: nat) {
    pages < 0x8_0000 || PAGES - 0x8_0000 <= pages
  }

  lemma HeapFigureExact(pages: nat)
    requires pages < PAGES
    ensures HeapFigure(pages) == APAGE_SIZE * pages <==> IntSized(pages)
  {
    var x := APAGE_SIZE * pages;
    if PAGES - 0x8_0000 <= pages {
      Int32Periodic(x, -0x1_0000_0000);
    }
  }

  class MemLib {
    const pagemap: PageMap
    var pageCount: int
    var words: Memory           // the mapped words of the address space
    var mmapFailed: bool        // has the operating system refused a region?

    ghost predicate Counted()
      reads this, pagemap, pagemap.Repr
    {
      this !in pagemap.Repr && pagemap.Valid() && pageCount == Int32(|pagemap.Pages|)
    }

    ghost predicate Valid()
      reads this, pagemap, pagemap.Repr
    {
      && Counted()
      && WordsOf(words.Keys, pagemap.Pages)
      && (forall p {:trigger PageOk(p)} :: p in pagemap.Pages ==> PageOk(p))
    }

    constructor ()
      ensures Valid() && fresh(pagemap) && fresh(pagemap.Repr)
      ensures pagemap.Pages == {} && !mmapFailed
    {
      pagemap := new PageMap();
      pageCount, words, mmapFailed := 0, map[], false;
    }

    method Store(a: int, v: int)
      requires a in words
      modifies this`words
      ensures words == old(words)[a := v] && words.Keys == old(words.Keys)
    {
      words := words[a := v];
    }

    /** The product is one of `int`s: it is the bytes of all mapped pages up to 2 GiB. */
    function HeapSize(): (n: int)
      requires Valid()
      reads this, pagemap, pagemap.Repr
      ensures n == HeapFigure(|pagemap.Pages|)
      ensures n == APAGE_SIZE * |pagemap.Pages| <==> IntSized(|pagemap.Pages|)
    {
      Int32Product(|pagemap.Pages|);
      AllPages(pagemap.Pages);
      HeapFigureExact(|pagemap.Pages|);
      SizeT(Int32(APAGE_SIZE * pageCount))
    }

    /** The operating system's answer to `mmap`: a failure, or any unused region, zero-filled. */
    method Mmap(sz: int) returns (p: int)
      requires sz > 0 && !mmapFailed
      modifies this`words, this`mmapFailed
      ensures mmapFailed <==> p == MAP_FAILED
      ensures mmapFailed ==> words == old(words)
      ensures !mmapFailed ==> Unused(old(words), p, sz) && words == old(words) + Zeros(p, sz)
    {
      assert MAP_FAILED == MAP_FAILED || Unused(words, MAP_FAILED, sz);
      p :| MAP_FAILED <= p <= ADDRESS_LIMIT && (p == MAP_FAILED || Unused(words, p, sz));
      if p == MAP_FAILED {
        mmapFailed := true;
      } else {
        words := words + Zeros(p, sz);
      }
    }

    method RecordPage(p: int, mapped: bool)
      requires Counted()
      requires 0 < p < ADDRESS_LIMIT && PageAligned(p) && (mapped <==> p !in pagemap.Pages)
      modifies this`pageCount, pagemap.Repr
      ensures Counted() && fresh(pagemap.Repr - old(pagemap.Repr))
      ensures pagemap.Pages == if mapped then old(pagemap.Pages) + {p} else old(pagemap.Pages) - {p}
    {
      ghost var count := |pagemap.Pages|;
      Int32Sum(count, if mapped then 1 else -1);
      pagemap.Modify(p, mapped);
      pageCount := if mapped then Int32(pageCount + 1) else Int32(pageCount - 1);
    }

    /** The loop over the pages of a new region. */
    method Record(p: int, sz: int)
      requires Counted() && Region(p, sz) && pagemap.Pages !! PageRange(p, sz)
      modifies this`pageCount, pagemap.Repr
      ensures Counted() && fresh(pagemap.Repr - old(pagemap.Repr))
      ensures pagemap.Pages == old(pagemap.Pages) + PageRange(p, sz)
    {
      var i := 0;
      assert PageAligned(0) && PageRange(p, 0) == {};
      while i < sz
        invariant 0 <= i <= sz && PageAligned(i)
        invariant Counted() && fresh(pagemap.Repr - old(pagemap.Repr))
        invariant pagemap.Pages == old(pagemap.Pages) + PageRange(p, i)
      {
        RecordNext(p, i, sz, old(pagemap.Pages));
        i := i + APAGE_SIZE;
      }
    }

    method RecordNext(p: int, i: int, sz: int, ghost pages: set<int>)
      requires Counted() && Region(p, sz) && PageAligned(i) && 0 <= i < sz
      requires pages !! PageRange(p, sz) && pagemap.Pages == pages + PageRange(p, i)
      modifies this`pageCount, pagemap.Repr
      ensures Counted() && fresh(pagemap.Repr - old(pagemap.Repr))
      ensures pagemap.Pages == pages + PageRange(p, i + APAGE_SIZE)
      ensures PageAligned(i + APAGE_SIZE) && i + APAGE_SIZE <= sz
    {
      RangeStep(p, i, sz);
      RecordPage(p + i, true);
    }

    /** The loop over the pages of a region given back. */
    method Unrecord(p: int, sz: int)
      requires Counted() && Region(p, sz) && PageRange(p, sz) <= pagemap.Pages
      modifies this`pageCount, pagemap.Repr
      ensures Counted() && fresh(pagemap.Repr - old(pagemap.Repr))
      ensures pagemap.Pages == old(pagemap.Pages) - PageRange(p, sz)
    {
      var i := 0;
      assert PageAligned(0) && PageRange(p, 0) == {};
      while i < sz
        invariant 0 <= i <= sz && PageAligned(i)
        invariant Counted() && fresh(pagemap.Repr - old(pagemap.Repr))
        invariant pagemap.Pages == old(pagemap.Pages) - PageRange(p, i)
      {
        UnrecordNext(p, i, sz, old(pagemap.Pages));
        i := i + APAGE_SIZE;
      }
    }

    /** The page is not found unmapped. */
    method UnrecordNext(p: int, i: int, sz: int, ghost pages: set<int>)
      requires Counted() && Region(p, sz) && PageAligned(i) && 0 <= i < sz
      requires PageRange(p, sz) <= pages && pagemap.Pages == pages - PageRange(p, i)
      modifies this`pageCount, pagemap.Repr
      ensures Counted() && fresh(pagemap.Repr - old(pagemap.Repr))
      ensures pagemap.Pages == pages - PageRange(p, i + APAGE_SIZE)
      ensures PageAligned(i + APAGE_SIZE) && i + APAGE_SIZE <= sz
    {
      RangeStep(p, i, sz);
      var b := pagemap.IsMapped(p + i);
      if !b { assert false; }
      RecordPage(p + i, false);
    }

    /** `sz` more bytes at a fresh address; the process ends only if the system refuses them. */
    method Map(sz: int) returns (r: Outcome<int>)
      requires Valid() && !mmapFailed && sz > 0 && PageAligned(sz)
      modifies this, pagemap.Repr
      ensures fresh(pagemap.Repr - old(pagemap.Repr))
      ensures mmapFailed <==> r.Aborted?
      ensures r.Done? ==> Valid() && Unused(old(words), r.value, sz)
      ensures r.Done? ==> pagemap.Pages == old(pagemap.Pages) + PageRange(r.value, sz)
      ensures r.Done? ==> old(pagemap.Pages) !! PageRange(r.value, sz)
      ensures r.Done? ==> words == old(words) + Zeros(r.value, sz)
    {
      if sz % APAGE_SIZE != 0 { assert false; }
      var p := Mmap(sz);
      if p == MAP_FAILED { return Aborted; }
      forall q | q in pagemap.Pages ensures PageAligned(q) { assert PageOk(q); }
      UnusedPages(old(words), pagemap.Pages, p, sz);
      Record(p, sz);
      MappedWords(old(words), old(pagemap.Pages), p, sz);
      return Done(p);
    }

    /** A mapped region is given back. None of the aborts is reached. */
    method Unmap(p: int, sz: int)
      requires Valid() && p > 0 && PageAligned(p) && PageAligned(sz) && sz >= 0 && p + sz <= ADDRESS_LIMIT
      requires PageRange(p, sz) <= pagemap.Pages
      modifies this`words, this`pageCount, pagemap.Repr
      ensures Valid() && fresh(pagemap.Repr - old(pagemap.Repr))
      ensures pagemap.Pages == old(pagemap.Pages) - PageRange(p, sz)
      ensures words == map x | x in old(words) && !(p <= x < p + sz) :: old(words)[x]
    {
      if p % APAGE_SIZE != 0 { assert false; }
      if sz % APAGE_SIZE != 0 { assert false; }
      Unrecord(p, sz);
      words := map x | x in words && !(p <= x < p + sz) :: words[x];
      UnmappedWords(old(words.Keys), words.Keys, old(pagemap.Pages), p, sz);
    }

    /** Every mapped page is unmapped. */
    method Reset()
      requires Valid()
      modifies this`words, this`pageCount, pagemap.Repr
      ensures Valid() && fresh(pagemap.Repr - old(pagemap.Repr))
      ensures pagemap.Pages == {} && pageCount == 0 && words == map[]
    {
      forall q | q in pagemap.Pages ensures 0 < q < ADDRESS_LIMIT { assert PageOk(q); }
      forall x | x in words ensures PageOf(x) in pagemap.Pages { assert WordOk(words.Keys, pagemap.Pages, x); }
      var visited := pagemap.ForEach();
      for i := 0 to |visited|
        modifies this`words
        invariant forall x :: x in words ==> PageOf(x) in visited[i..]
      {
        var p := visited[i];
        words := map x | x in words && !(p <= x < p + APAGE_SIZE) :: words[x];
        forall x | x in words ensures PageOf(x) in visited[i + 1..] {
          assert PageOf(x) != p;
        }
      }
      assert visited[|visited|..] == [];
      assert forall x :: x !in words;
      pageCount := 0;
    }
  }

  lemma UnusedPages(words: Memory, pages: set<int>, p: int, sz: int)
    requires WordsOf(words.Keys, pages) && Unused(words, p, sz)
    requires forall q :: q in pages ==> PageAligned(q)
    ensures pages !! PageRange(p, sz)
  {
    forall q | q in pages ensures q !in PageRange(p, sz) {
      PageIsOwn(q);
      assert WordOk(words.Keys, pages, q);
    }
  }

  lemma MappedWords(words: Memory, pages: set<int>, p: int, sz: int)
    requires WordsOf(words.Keys, pages) && PageAligned(p) && PageAligned(sz)
    ensures WordsOf((words + Zeros(p, sz)).Keys, pages + PageRange(p, sz))
  {
    var words' := words + Zeros(p, sz);
    forall x ensures WordOk(words'.Keys, pages + PageRange(p, sz), x) {
      assert WordOk(words.Keys, pages, x);
      assert WordAligned(x) <==> x % 8 == 0;
      PageOfInRange(p, sz, x);
    }
  }

  lemma UnmappedWords(words: set<int>, words': set<int>, pages: set<int>, p: int, sz: int)
    requires WordsOf(words, pages) && PageAligned(p) && PageAligned(sz)
    requires forall x :: x in words' <==> x in words && !(p <= x < p + sz)
    ensures WordsOf(words', pages - PageRange(p, sz))
  {
    forall x ensures WordOk(words', pages - PageRange(p, sz), x) {
      assert WordOk(words, pages, x);
      PageOfInRange(p, sz, x);
    }
  }
}
