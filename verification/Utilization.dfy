/** What the driver's figures on memory utilization are, when they are right, and that they then
    never exceed 1. */
module Utilizations {
  import opened Machine
  import opened Sequences
  import opened Layouts
  import opened HeapImage
  import opened MallocSpec
  import opened HeapAccounting
  import opened MemLibs
  import opened Allocators
  import opened Ledger
  import opened Traces
  import opened Totals
  import opened HeapGrowth
  import opened Means

  /** What is measured after one request: bytes requested, the heap size as the program computes
      it, the pages mapped. */
  datatype Sample = Sample(total: int, heap: int, pages: nat)

  /** The figures of a run: greatest demand, greatest heap size, and the product of the ratios of
      demand to heap size. */
  datatype Usage = Usage(peak: int, maxHeap: int, ratios: Split)

  /** After request `i` the pages hold all that is requested, 32 bytes for each id that holds a
      block, and 32 for each chunk; `lost` pages were mapped before the run. */
  ghost predicate SampleOk(ops: seq<Op>, lost: nat, i: int, s: Sample, L: Layout)
    requires 0 <= i < |ops|
  {
    && s.total == Demand(ops[..i + 1]) && s.total >= 0
    && s.total + 32 * |Live(ops[..i + 1])| + 32 * |L.order| <= MappedBytes(L)
    && APAGE_SIZE * s.pages == MappedBytes(L) + APAGE_SIZE * lost
    && s.heap == HeapFigure(s.pages) && s.pages < PAGES
  }

  /** The samples of a run, and the layouts they were taken of. */
  ghost predicate History(ops: seq<Op>, lost: nat, history: seq<Sample>, layouts: seq<Layout>) {
    && |history| == |layouts| <= |ops| && LayoutRun(ops, layouts)
    && forall i {:trigger SampleOk(ops, lost, i, history[i], layouts[i])} :: 0 <= i < |history| ==>
      SampleOk(ops, lost, i, history[i], layouts[i])
  }

  function Max(x: int, y: int): int { if y > x then y else x }

  function MaxHeap(history: seq<Sample>): int {
    if history == [] then 0 else Max(MaxHeap(history[..|history| - 1]), history[|history| - 1].heap)
  }

  function Ratio(total: int, heap: int): real
    requires heap >= 0
  {
    (total + 1) as real / (heap + 1) as real
  }

  /** The product of the ratios of demand to heap size. */
  function Ratios(history: seq<Sample>): real {
    if history == [] then 1.0
    else
      var s := history[|history| - 1];
      Product(Ratios(history[..|history| - 1]), if s.heap < 0 then 1.0 else Ratio(s.total, s.heap))
  }

  /** The figures after `i` requests. */
  ghost predicate Figures(ops: seq<Op>, lost: nat, i: int, use: Usage, history: seq<Sample>, layouts: seq<Layout>) {
    && 0 <= i <= |ops| && History(ops, lost, history, layouts) && |history| == i
    && use.peak == Peak(ops[..i]) && use.maxHeap == MaxHeap(history)
    && Value(use.ratios) == Ratios(history) && use.ratios.frac > 0.0 && (i > 0 ==> Normal(use.ratios))
  }

  // ---------------------------------------------------------------- taking samples

  /** The pages hold what is requested, whatever the heap size is computed to be. */
  lemma SampleFits(ops: seq<Op>, lost: nat, i: nat, L: Layout, b: Book, s: Sample)
    requires i < |ops| && Totalled(ops, i + 1, b)
    requires HeapOk(L) && Distinct(L.order) && Members(L.order, L.chunks) && AskedOk(L.blocks, b.asked)
    requires s.pages == |PagesOf(L.chunks)| + lost && s.pages < PAGES
    requires s.total == MapSum(b.asked) && s.heap == HeapFigure(s.pages)
    ensures SampleOk(ops, lost, i, s, L)
  {
    HeapSizeIsListed(L);
    AskedIs(L.blocks, b.asked);
    HeapLoad(L, b.asked);
    SumNotNegative(b.asked);
    forall id | id in b.at ensures b.at[id] in b.asked { assert Sized(ops[..i + 1], b, id); }
    forall id, jd | id in b.at && jd in b.at && id != jd ensures b.at[id] != b.at[jd] { assert Different(b, id, jd); }
    ManyAsked(b.at, b.asked.Keys);
    assert |b.at.Keys| == |b.at| && |b.asked.Keys| == |b.asked|;
  }

  lemma HistoryGrows(ops: seq<Op>, lost: nat, history: seq<Sample>, layouts: seq<Layout>, s: Sample, L: Layout)
    requires History(ops, lost, history, layouts) && |history| < |ops|
    requires LayoutStep(ops[|history|], LayoutBefore(layouts, |history|), L)
    requires SampleOk(ops, lost, |history|, s, L)
    ensures History(ops, lost, history + [s], layouts + [L])
  {
    var history', layouts' := history + [s], layouts + [L];
    RunSnoc(ops, layouts, L);
    forall j | 0 <= j < |history'| ensures SampleOk(ops, lost, j, history'[j], layouts'[j]) {
      if j < |history| { assert SampleOk(ops, lost, j, history[j], layouts[j]); }
    }
  }

  lemma PeakGrows(ops: seq<Op>, i: nat)
    requires i < |ops|
    ensures Peak(ops[..i + 1]) == Max(Peak(ops[..i]), Demand(ops[..i + 1]))
  {
    assert ops[..i + 1][..i] == ops[..i];
  }

  /** The statistics after one more request. */
  function Updated(use: Usage, total: int, heap: int): Usage
    requires total >= 0 && heap >= 0 && use.ratios.frac > 0.0
  {
    Usage(if total > use.peak then total else use.peak,
          if heap > use.maxHeap then heap else use.maxHeap,
          Times(use.ratios, Ratio(total, heap)))
  }

  lemma Recorded(ops: seq<Op>, lost: nat, history: seq<Sample>, layouts: seq<Layout>, i: nat, s: Sample, L: Layout,
                 use: Usage)
    requires i < |ops| && Figures(ops, lost, i, use, history, layouts) && SampleOk(ops, lost, i, s, L)
    requires LayoutStep(ops[i], LayoutBefore(layouts, i), L) && s.heap >= 0
    ensures Figures(ops, lost, i + 1, Updated(use, s.total, s.heap), history + [s], layouts + [L])
  {
    HistoryGrows(ops, lost, history, layouts, s, L);
    PeakGrows(ops, i);
  }

  /** The product of all heap sizes, each plus 1. */
  function Heaps(history: seq<Sample>): int {
    if history == [] then 1 else Heaps(history[..|history| - 1]) * (history[|history| - 1].heap + 1)
  }

  /** The product of all demands, each plus 1. */
  function Demands(history: seq<Sample>): int {
    if history == [] then 1 else Demands(history[..|history| - 1]) * (history[|history| - 1].total + 1)
  }

  lemma RatioStep(v: real, h: int, d: int, total: int, heap: int, v': real, h': int, d': int)
    requires v * h as real == d as real && heap >= 0
    requires v' == Product(v, Ratio(total, heap)) && h' == h * (heap + 1) && d' == d * (total + 1)
    ensures v' * h' as real == d' as real
  {
    var r, b := Ratio(total, heap), (heap + 1) as real;
    assert r * b == (total + 1) as real;
    RealProduct(h, heap + 1);
    RealProduct(d, total + 1);
    Exchanges(v, r, h as real, b);
  }

  lemma Exchanges(v: real, r: real, h: real, b: real)
    ensures Product(v, r) * (h * b) == (v * h) * (r * b)
  {
  }

  lemma RealProduct(x: int, y: int)
    ensures (x * y) as real == x as real * y as real
  {
  }

  lemma {:induction false} RatiosAre(history: seq<Sample>)
    requires forall s :: s in history ==> s.heap >= 0
    ensures Ratios(history) * Heaps(history) as real == Demands(history) as real
  {
    if history != [] {
      var before, s := history[..|history| - 1], history[|history| - 1];
      assert s in history;
      RatiosAre(before);
      RatioStep(Ratios(before), Heaps(before), Demands(before), s.total, s.heap,
                Ratios(history), Heaps(history), Demands(history));
    }
  }

  lemma Quotient(history: seq<Sample>, v: real, h: int, d: int)
    requires forall s :: s in history ==> s.heap >= 0
    requires v == Ratios(history) && h == Heaps(history) && d == Demands(history)
    ensures v * h as real == d as real
  {
    RatiosAre(history);
  }

  lemma HeapsNotNegative(ops: seq<Op>, lost: nat, history: seq<Sample>, layouts: seq<Layout>)
    requires History(ops, lost, history, layouts)
    ensures forall s :: s in history ==> s.heap >= 0
  {
    forall s | s in history ensures s.heap >= 0 {
      var j :| 0 <= j < |history| && history[j] == s;
      assert SampleOk(ops, lost, j, history[j], layouts[j]);
    }
  }

  /** What is accumulated is the product of (demand + 1) / (heap size + 1) over all requests. */
  lemma RatiosProduct(ops: seq<Op>, lost: nat, i: int, use: Usage, history: seq<Sample>, layouts: seq<Layout>,
                      v: real, h: int, d: int)
    requires Figures(ops, lost, i, use, history, layouts)
    requires v == Value(use.ratios) && h == Heaps(history) && d == Demands(history)
    ensures v * h as real == d as real
  {
    HeapsNotNegative(ops, lost, history, layouts);
    Quotient(history, v, h, d);
  }

  /** For one request it is that ratio. */
  lemma OneRatio(ops: seq<Op>, lost: nat, use: Usage, history: seq<Sample>, layouts: seq<Layout>)
    requires Figures(ops, lost, 1, use, history, layouts)
    ensures Value(use.ratios) * (history[0].heap + 1) as real == (history[0].total + 1) as real
  {
    RatiosProduct(ops, lost, 1, use, history, layouts, Value(use.ratios), Heaps(history), Demands(history));
    assert history[..0] == [];
  }

  /** The heap figure is the greatest heap size computed. */
  lemma {:induction false} MaxHeapIsMax(history: seq<Sample>)
    ensures forall i :: 0 <= i < |history| ==> history[i].heap <= MaxHeap(history)
    ensures MaxHeap(history) == 0 || exists i :: 0 <= i < |history| && history[i].heap == MaxHeap(history)
  {
    if history != [] {
      var n := |history| - 1;
      var before := history[..n];
      MaxHeapIsMax(before);
      forall i | 0 <= i < n ensures history[i].heap <= MaxHeap(history) { assert before[i].heap <= MaxHeap(before); }
      if MaxHeap(history) != 0 && MaxHeap(history) != history[n].heap {
        var i :| 0 <= i < n && before[i].heap == MaxHeap(before);
        assert history[i].heap == MaxHeap(history);
      }
    }
  }

  // ---------------------------------------------------------------- when the figures are right

  /** At every sample, the heap size is the bytes of the mapped pages. */
  ghost predicate Moderate(history: seq<Sample>) {
    forall s :: s in history ==> IntSized(s.pages)
  }

  /** The heap sizes computed are right exactly if no heap of 2 GiB or more occurs. */
  lemma HeapSizesRight(ops: seq<Op>, lost: nat, history: seq<Sample>, layouts: seq<Layout>)
    requires History(ops, lost, history, layouts)
    ensures Moderate(history) <==> forall s :: s in history ==> s.heap == APAGE_SIZE * s.pages
  {
    forall i | 0 <= i < |history|
      ensures IntSized(history[i].pages) <==> history[i].heap == APAGE_SIZE * history[i].pages
    {
      assert SampleOk(ops, lost, i, history[i], layouts[i]);
      HeapFigureExact(history[i].pages);
    }
  }

  /** Right heap sizes hold the demand. */
  lemma HeapHolds(ops: seq<Op>, lost: nat, history: seq<Sample>, layouts: seq<Layout>, i: nat)
    requires History(ops, lost, history, layouts) && Moderate(history) && i < |history|
    ensures 0 <= Demand(ops[..i + 1]) == history[i].total
    ensures history[i].total + 32 * |Live(ops[..i + 1])| + 32 * |layouts[i].order| <= history[i].heap
  {
    assert SampleOk(ops, lost, i, history[i], layouts[i]) && history[i] in history;
    HeapFigureExact(history[i].pages);
  }

  ghost predicate Holds(s: Sample) { 0 <= s.total <= s.heap }

  lemma {:induction false} RatiosAtMostOne(history: seq<Sample>)
    requires forall s :: s in history ==> Holds(s)
    ensures 0.0 < Ratios(history) <= 1.0
  {
    if history != [] {
      var before, s := history[..|history| - 1], history[|history| - 1];
      assert s in history && Holds(s);
      RatiosAtMostOne(before);
      RatioOk(s.total, s.heap, Ratios(before));
    }
  }

  lemma RatioOk(total: int, heap: int, product: real)
    requires 0 <= total <= heap && 0.0 < product <= 1.0
    ensures 0.0 < Product(product, Ratio(total, heap)) <= 1.0
  {
    var a, b := (total + 1) as real, (heap + 1) as real;
    var r := a / b;
    assert r * b == a;
    assert 0.0 < r <= 1.0;
  }

  lemma DemandFits(ops: seq<Op>, lost: nat, history: seq<Sample>, layouts: seq<Layout>, i: nat, j: nat)
    requires History(ops, lost, history, layouts) && Moderate(history) && i < |history| && j == i + 1
    ensures Demand(ops[..j]) <= MaxHeap(history)
  {
    HeapHolds(ops, lost, history, layouts, i);
    MaxHeapIsMax(history);
  }

  /** The peak demand fits the largest heap, and is positive unless the trace is empty. */
  lemma PeakFits(ops: seq<Op>, lost: nat, history: seq<Sample>, layouts: seq<Layout>, n: nat)
    requires History(ops, lost, history, layouts) && |history| == |ops| && Moderate(history)
    requires Runnable(ops, n) && Positive(ops)
    ensures 0 <= Peak(ops) <= MaxHeap(history)
    ensures ops != [] ==> Peak(ops) > 0
  {
    PeakIsPeak(ops);
    assert Demand(ops[..0]) == 0;
    var i :| 0 <= i <= |ops| && Demand(ops[..i]) == Peak(ops);
    if i > 0 { DemandFits(ops, lost, history, layouts, i - 1, i); }
    if ops != [] {
      assert OpOk(ops, n, 0);
      assert Demand(ops[..1]) > 0;
    }
  }

  lemma Share(part: int, whole: int)
    requires 0 < part <= whole
    ensures 0.0 < part as real / whole as real <= 1.0
  {
  }

  /** While no heap of 2 GiB or more occurs, neither the whole run's utilization nor any product of
      ratios of demand to heap size exceeds 1, nor does the mean reported. */
  lemma UtilizationAtMostOne(ops: seq<Op>, lost: nat, use: Usage, history: seq<Sample>, layouts: seq<Layout>, n: nat)
    requires Figures(ops, lost, |ops|, use, history, layouts) && Moderate(history)
    requires Runnable(ops, n) && Positive(ops)
    ensures use.peak <= use.maxHeap && 0.0 < Value(use.ratios) <= 1.0
    ensures ops != [] ==> use.maxHeap > 0 && 0.0 < use.peak as real / use.maxHeap as real <= 1.0
    ensures forall r :: ops != [] && Reported(use.ratios, |ops|, r) ==> r <= 1.0
  {
    assert ops[..|ops|] == ops;
    PeakFits(ops, lost, history, layouts, n);
    if ops != [] { Share(use.peak, use.maxHeap); }
    forall i | 0 <= i < |history| ensures Holds(history[i]) { HeapHolds(ops, lost, history, layouts, i); }
    RatiosAtMostOne(history);
    forall r | ops != [] && Reported(use.ratios, |ops|, r) ensures r <= 1.0 {
      ReportedAtMostOne(use.ratios, |ops|, r);
    }
  }

  /** So it is for every trace whose requests together need less than 2 GiB of fresh pages. */
  lemma SmallTraceIsModerate(ops: seq<Op>, lost: nat, history: seq<Sample>, layouts: seq<Layout>)
    requires History(ops, lost, history, layouts) && Positive(ops)
    requires Needs(ops) + APAGE_SIZE * lost <= INT_MAX
    ensures Moderate(history)
  {
    forall i | 0 <= i < |history| ensures IntSized(history[i].pages) {
      assert SampleOk(ops, lost, i, history[i], layouts[i]);
      RunGrows(ops, layouts, i + 1);
      NeedsGrow(ops, i + 1);
    }
  }

  // ---------------------------------------------------------------- a run that goes wrong

  /** Two requests of almost 2 GiB. */
  function Huge(): seq<Op> { [Alloc(0, 2147479488), Alloc(1, INT_MAX)] }

  lemma HugeIsRunnable()
    ensures Runnable(Huge(), 2) && Positive(Huge()) && NoReuse(Huge())
  {
    LivePrefix(Huge(), 0);
    forall i | 0 <= i < |Huge()| ensures OpOk(Huge(), 2, i) && Huge()[i].index !in Live(Huge()[..i]) {
      if i == 1 { assert Huge()[..1] == [Huge()[0]]; }
    }
  }

  lemma HugeSizes()
    ensures TotalSize(2147479488) == APAGE_SIZE * 524287 - PAGEHDRSIZE
    ensures MapSize(2147479488) == APAGE_SIZE * 524287 && MapSize(INT_MAX) == APAGE_SIZE * 524289
  {
  }

  /** The first request fills its chunk to the last byte. */
  lemma FirstHuge(L: Layout)
    requires LayoutStep(Alloc(0, 2147479488), EmptyLayout(), L)
    ensures HeapOk(L) && L.free == [] && MappedBytes(L) == APAGE_SIZE * 524287
  {
    HugeSizes();
    var bp :| Mallocd(EmptyLayout(), L, 2147479488, bp);
    MallocGrows(EmptyLayout(), L, 2147479488, bp);
  }

  /** The second maps another 524289 pages. */
  lemma SecondHuge(L: Layout, L': Layout)
    requires HeapOk(L) && L.free == [] && LayoutStep(Alloc(1, INT_MAX), L, L')
    ensures MappedBytes(L') == MappedBytes(L) + APAGE_SIZE * 524289
  {
    HugeSizes();
    var bp :| Mallocd(L, L', INT_MAX, bp);
    MallocGrows(L, L', INT_MAX, bp);
  }

  lemma HugeDemand()
    ensures Demand(Huge()[..1]) == 2147479488 && Demand(Huge()[..2]) == 4294963135 && Peak(Huge()[..2]) == 4294963135
  {
    assert Huge()[..2][..1] == Huge()[..1] == [Huge()[0]] && Huge()[..1][..0] == [];
  }

  lemma HugeLayouts(layouts: seq<Layout>)
    requires LayoutRun(Huge(), layouts) && |layouts| == 2
    ensures MappedBytes(layouts[0]) == APAGE_SIZE * 524287 && MappedBytes(layouts[1]) == APAGE_SIZE * 1048576
  {
    assert StepAt(Huge(), layouts, 0) && StepAt(Huge(), layouts, 1);
    FirstHuge(layouts[0]);
    SecondHuge(layouts[0], layouts[1]);
  }

  lemma HugeSamples(history: seq<Sample>, layouts: seq<Layout>)
    requires History(Huge(), 0, history, layouts) && |history| == 2
    ensures history[0].pages == 524287 && history[0].heap == 2147479552
    ensures history[1].pages == 1048576 && history[1].heap == 0 && history[1].total == 4294963135
  {
    assert SampleOk(Huge(), 0, 0, history[0], layouts[0]) && SampleOk(Huge(), 0, 1, history[1], layouts[1]);
    HugeLayouts(layouts);
    HugeDemand();
  }

  lemma MaxOfTwo(history: seq<Sample>)
    requires |history| == 2
    ensures MaxHeap(history) == Max(Max(0, history[0].heap), history[1].heap)
  {
    var first := history[..1];
    assert MaxHeap(first[..0]) == 0;
    assert MaxHeap(first) == Max(MaxHeap(first[..0]), first[0].heap);
  }

  /** Whenever this trace is served, the heap size after its second request is computed to be 0,
      with nearly 4 GiB in use: utilization is reported as almost 2. */
  lemma HugeIsWrong(use: Usage, history: seq<Sample>, layouts: seq<Layout>)
    requires Figures(Huge(), 0, 2, use, history, layouts)
    ensures !Moderate(history) && history[1].heap == 0 && history[1].total == 4294963135
    ensures use.peak == 4294963135 && use.maxHeap == 2147479552 && use.peak as real / use.maxHeap as real > 1.9
  {
    HugeSamples(history, layouts);
    HugeDemand();
    MaxOfTwo(history);
    assert history[1] in history;
  }
}
