/** How the requests of a trace change the layout, and how many pages they can map. */
module HeapGrowth {
  import opened Machine
  import opened Layouts
  import opened HeapImage
  import opened MallocSpec
  import opened HeapTheorems
  import opened MemLibs
  import opened Allocators
  import opened Traces

  /** A used block was given back. */
  ghost predicate Released(L: Layout, L': Layout, h: int) {
    h in L.blocks && L.blocks[h].alloc && L' == Release(L, h)
  }

  /** A new block was handed out, and then a used block given back. */
  ghost predicate Moved(L: Layout, L': Layout, n: int) {
    exists L1, bp, h {:trigger Mallocd(L, L1, n, bp), Released(L1, L', h)} ::
      Mallocd(L, L1, n, bp) && Released(L1, L', h)
  }

  /** What a request of a trace does to the layout. */
  ghost predicate LayoutStep(op: Op, L: Layout, L': Layout) {
    match op
    case Alloc(_, n) => exists bp :: Mallocd(L, L', n, bp)
    case Realloc(_, n) => Moved(L, L', n)
    case Free(_) => exists h :: Released(L, L', h)
  }

  ghost function MappedBytes(L: Layout): int { APAGE_SIZE * |PagesOf(L.chunks)| }

  /** The bytes of fresh pages that a request can need. */
  function Need(op: Op): int { if op.Free? then 0 else MapSize(op.size) }

  /** The bytes of pages that all requests can need together. */
  function Needs(ops: seq<Op>): int {
    if ops == [] then 0 else Needs(ops[..|ops| - 1]) + Need(ops[|ops| - 1])
  }

  lemma RegionBytes(L: Layout, c: int, sz: int)
    requires HeapOk(L) && FreshRegion(L.chunks, c, sz)
    ensures APAGE_SIZE * |PagesOf(L.chunks[c := sz])| == MappedBytes(L) + sz
  {
    AddPages(L, c, sz);
    RangeSize(c, sz);
    forall p | p in PagesOf(L.chunks) ensures p !in PageRange(c, sz) {
      var d :| d in L.chunks && p in PageRange(d, L.chunks[d]);
      assert ChunkOk(L.chunks, L.blocks, d);
    }
  }

  /** A request maps nothing, or what it needs. */
  lemma MallocGrows(L: Layout, L': Layout, n: int, bp: int)
    requires HeapOk(L) && n > 0 && Mallocd(L, L', n, bp)
    ensures HeapOk(L')
    ensures MappedBytes(L') == MappedBytes(L) || MappedBytes(L') == MappedBytes(L) + MapSize(n)
    ensures FirstFit(L.blocks, L.free, TotalSize(n)) == 0 ==> MappedBytes(L') == MappedBytes(L) + MapSize(n)
  {
    MallocKeeps(L, L', n, bp);
    NoNullNode(L);
    FirstFitIsFirst(L.blocks, L.free, TotalSize(n));
    if FirstFit(L.blocks, L.free, TotalSize(n)) == 0 {
      RegionBytes(L, bp - HDRSIZE - PAGEHDRSIZE, MapSize(n));
    }
  }

  /** A free maps nothing. */
  lemma ReleaseShrinks(L: Layout, L': Layout, h: int)
    requires HeapOk(L) && Released(L, L', h)
    ensures HeapOk(L') && MappedBytes(L') <= MappedBytes(L)
  {
    ReleaseKeeps(L, h);
    var c := L.blocks[h].chunk;
    ReleaseChunks(L, L', h, c);
    forall p | p in PagesOf(L'.chunks) ensures p in PagesOf(L.chunks) {
      var d :| d in L'.chunks && p in PageRange(d, L'.chunks[d]);
      assert d in L.chunks && L.chunks[d] == L'.chunks[d];
    }
    SmallerSet(PagesOf(L'.chunks), PagesOf(L.chunks));
  }

  lemma StepGrows(op: Op, L: Layout, L': Layout)
    requires HeapOk(L) && LayoutStep(op, L, L') && (op.Free? || op.size > 0)
    ensures HeapOk(L') && MappedBytes(L') <= MappedBytes(L) + Need(op)
  {
    match op
    case Alloc(_, n) =>
      var bp :| Mallocd(L, L', n, bp);
      MapSizeOk(n);
      MallocGrows(L, L', n, bp);
    case Realloc(_, n) =>
      var L1, bp, h :| Mallocd(L, L1, n, bp) && Released(L1, L', h);
      MapSizeOk(n);
      MallocGrows(L, L1, n, bp);
      ReleaseShrinks(L1, L', h);
    case Free(_) =>
      var h :| Released(L, L', h);
      ReleaseShrinks(L, L', h);
  }

  // ---------------------------------------------------------------- runs of the allocator

  ghost function LayoutBefore(layouts: seq<Layout>, i: int): Layout {
    if 0 < i <= |layouts| then layouts[i - 1] else EmptyLayout()
  }

  ghost predicate StepAt(ops: seq<Op>, layouts: seq<Layout>, i: int)
    requires 0 <= i < |layouts| <= |ops|
  {
    LayoutStep(ops[i], LayoutBefore(layouts, i), layouts[i])
  }

  /** `layouts` are those after the first requests of the trace, from the empty heap. */
  ghost predicate LayoutRun(ops: seq<Op>, layouts: seq<Layout>) {
    |layouts| <= |ops| && forall i {:trigger StepAt(ops, layouts, i)} :: 0 <= i < |layouts| ==> StepAt(ops, layouts, i)
  }

  lemma RunSnoc(ops: seq<Op>, layouts: seq<Layout>, L': Layout)
    requires LayoutRun(ops, layouts) && |layouts| < |ops|
    requires LayoutStep(ops[|layouts|], LayoutBefore(layouts, |layouts|), L')
    ensures LayoutRun(ops, layouts + [L'])
  {
    var layouts' := layouts + [L'];
    forall i | 0 <= i < |layouts'| ensures StepAt(ops, layouts', i) {
      if i < |layouts| { assert StepAt(ops, layouts, i); }
    }
  }

  /** The heap never exceeds what the requests so far can need. */
  lemma {:induction false} RunGrows(ops: seq<Op>, layouts: seq<Layout>, i: nat)
    requires LayoutRun(ops, layouts) && Positive(ops) && i <= |layouts|
    ensures HeapOk(LayoutBefore(layouts, i)) && MappedBytes(LayoutBefore(layouts, i)) <= Needs(ops[..i])
  {
    if i == 0 {
    } else {
      RunGrows(ops, layouts, i - 1);
      assert StepAt(ops, layouts, i - 1);
      StepGrows(ops[i - 1], LayoutBefore(layouts, i - 1), layouts[i - 1]);
      assert ops[..i][..i - 1] == ops[..i - 1];
    }
  }

  lemma {:induction false} NeedsGrow(ops: seq<Op>, i: nat)
    requires Positive(ops) && i <= |ops|
    ensures Needs(ops[..i]) <= Needs(ops)
  {
    if i < |ops| {
      var op, before := ops[|ops| - 1], ops[..|ops| - 1];
      NeedsGrow(before, i);
      assert before[..i] == ops[..i];
      if !op.Free? { MapSizeOk(op.size); }
    } else {
      assert ops[..i] == ops;
    }
  }
}
