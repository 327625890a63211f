/** The trace interpreter: it serves a trace with the allocator and checks each answer. */
module Drivers {
  import opened Machine
  import opened Outcomes
  import opened Layouts
  import opened HeapImage
  import opened MallocSpec
  import opened HeapTheorems
  import opened MemLibs
  import opened Allocators
  import opened RangeLists
  import opened Ledger
  import opened Traces
  import opened Utilizations
  import opened Totals
  import opened HeapGrowth
  import opened Means
  import opened Sequences

  class Driver {
    const mm: Allocator
    const list: RangeList
    const blocks: array<int>     // trace->blocks
    const sizes: array<int>      // trace->block_sizes
    ghost var book: Book

    /** The objects of the driver are none of the page map's. */
    ghost predicate Apart()
      reads this, mm.lib, mm.lib.pagemap
    {
      && this !in mm.lib.pagemap.Repr && list !in mm.lib.pagemap.Repr
      && blocks !in mm.lib.pagemap.Repr && sizes !in mm.lib.pagemap.Repr
      && blocks != sizes && blocks.Length == sizes.Length
    }

    /** The heap is sound and the book knows every block in use. */
    ghost predicate HeapTracked()
      reads this, mm, mm.lib, mm.lib.pagemap, mm.lib.pagemap.Repr
    {
      Apart() && mm.Valid() && AskedOk(mm.layout.blocks, book.asked)
    }

    constructor (mm: Allocator, numIds: nat)
      requires mm.lib.Valid()
      ensures this.mm == mm && Apart() && blocks.Length == numIds
      ensures fresh(list) && fresh(blocks) && fresh(sizes)
    {
      this.mm := mm;
      list := new RangeList();
      blocks := new int[numIds];
      sizes := new int[numIds];
      book := EmptyBook();
    }

    // ---------------------------------------------------------------- single steps

    method Acquire(size: int) returns (r: Outcome<int>)
      requires HeapTracked() && 0 <= size <= INT_MAX
      modifies this`book, mm`freeListHead, mm`pageListHead, mm`layout
      modifies mm.lib, mm.lib.pagemap.Repr
      ensures Apart() && fresh(mm.lib.pagemap.Repr - old(mm.lib.pagemap.Repr))
      ensures mm.lib.mmapFailed <==> r.Aborted?
      ensures r.Done? ==> HeapTracked() && (r.value == 0 <==> size == 0)
      ensures r.Done? && size == 0 ==> book == old(book)
      ensures r.Done? && size > 0 ==> r.value - HDRSIZE !in old(book.asked)
      ensures r.Done? && size > 0 ==> book == old(book).(asked := old(book.asked)[r.value - HDRSIZE := size])
      ensures r.Done? && size > 0 ==> Mallocd(old(mm.layout), mm.layout, size, r.value)
      ensures r.Done? ==> LiveKept(old(mm.lib.words), mm.lib.words, old(mm.layout.blocks), 0)
    {
      ghost var L := mm.layout;
      r := mm.Malloc(size);
      if r.Done? && size > 0 {
        ghost var h := r.value - HDRSIZE;
        MallocAsked(L, mm.layout, book.asked, size, r.value, h);
        book := book.(asked := book.asked[h := size]);
      }
    }

    /** The driver's checks of a new payload, all of which it passes. */
    method Check(p: int, size: int, ghost h: int, ghost listed: map<int, int>) returns (ok: bool)
      requires HeapTracked() && RangesOk(list.ranges, listed)
      requires h in book.asked && book.asked[h] == size && p == h + HDRSIZE && h !in listed
      requires forall a :: a in listed ==> a in book.asked && listed[a] == book.asked[a]
      modifies list
      ensures mm.lib.pagemap.Repr == old(mm.lib.pagemap.Repr)
      ensures ok && RangesOk(list.ranges, listed[h := size])
    {
      AskedIs(mm.layout.blocks, book.asked);
      OwnsIs(mm.lib.pagemap.Pages, mm.layout.chunks, mm.lost);
      ChecksPass(mm.layout, mm.lib.pagemap.Pages, list.ranges, listed, h, p, size);
      ListRange(list.ranges, listed, h, size);
      ok := list.AddRange(mm.lib.pagemap, p, size);
    }

    /** Fill the payload of the block at `h` with `n` bytes `v`. */
    method Fill(p: int, v: int, n: int, ghost h: int)
      requires HeapTracked() && h in book.asked && n == book.asked[h] && p == h + HDRSIZE && 0 <= v < 256
      modifies mm.lib`words
      ensures mm.lib.pagemap.Repr == old(mm.lib.pagemap.Repr)
      ensures HeapTracked() && Filled(mm.lib.words, p, n, v)
      ensures LiveKept(old(mm.lib.words), mm.lib.words, mm.layout.blocks, h)
    {
      ghost var m, L := mm.lib.words, mm.layout;
      assert AskedAt(L.blocks, book.asked, h);
      mm.lib.words := Memset(mm.lib.words, p, n, v);
      PayloadWritten(m, mm.lib.words, mm.freeListHead, mm.pageListHead, L, h, p, n, v);
    }

    /** Free the block at `h`. */
    method GiveBack(p: int, ghost h: int)
      requires HeapTracked() && h in book.asked && p == h + HDRSIZE
      modifies this`book, mm`freeListHead, mm`pageListHead, mm`layout
      modifies mm.lib`words, mm.lib`pageCount, mm.lib.pagemap.Repr
      ensures Apart() && fresh(mm.lib.pagemap.Repr - old(mm.lib.pagemap.Repr))
      ensures HeapTracked() && book == old(book).(asked := old(book.asked) - {h})
      ensures Released(old(mm.layout), mm.layout, h)
      ensures LiveKept(old(mm.lib.words), mm.lib.words, old(mm.layout.blocks), h)
    {
      ghost var L := mm.layout;
      assert AskedAt(L.blocks, book.asked, h);
      assert h != 0 && p != 0 by { InsideChunk(L.chunks, L.blocks, h); }
      mm.Free(p);
      ReleaseGives(L, mm.layout, h);
      ReleaseAsked(L.blocks, mm.layout.blocks, book.asked, h);
      book := book.(asked := book.asked - {h});
    }

    // ---------------------------------------------------------------- ids and blocks

    /** The heap is sound, and the trace's arrays tell where the block of each id is. */
    ghost predicate Booked()
      reads this, mm, mm.lib, mm.lib.pagemap, mm.lib.pagemap.Repr, blocks, sizes
    {
      HeapTracked() && IdsOk(blocks[..], sizes[..], book)
    }

    /** In addition, the payloads are listed and hold what was written there. */
    ghost predicate Tracked()
      reads this, mm, mm.lib, mm.lib.pagemap, mm.lib.pagemap.Repr, list, blocks, sizes
    {
      Booked() && RangesOk(list.ranges, book.asked) && FillsOk(mm.lib.words, book)
    }

    /** A new block, so far held by no id. */
    method AcquireUnheld(size: int) returns (r: Outcome<int>)
      requires Booked() && 0 <= size <= INT_MAX
      modifies this`book, mm`freeListHead, mm`pageListHead, mm`layout
      modifies mm.lib, mm.lib.pagemap.Repr
      ensures Apart() && fresh(mm.lib.pagemap.Repr - old(mm.lib.pagemap.Repr))
      ensures mm.lib.mmapFailed <==> r.Aborted?
      ensures r.Done? ==> (r.value == 0 <==> size == 0)
      ensures r.Done? && size > 0 ==> Booked() && Obtained(old(book), book, r.value - HDRSIZE, size)
      ensures r.Done? && size > 0 ==> Mallocd(old(mm.layout), mm.layout, size, r.value)
      ensures r.Done? && size > 0 && old(FillsOk(mm.lib.words, book)) ==> FillsOk(mm.lib.words, book)
    {
      ghost var m, B, b0, bs, ss := mm.lib.words, mm.layout.blocks, book, blocks[..], sizes[..];
      NullIsNoBlock(mm.layout);
      r := Acquire(size);
      if r.Done? && size > 0 {
        IdsGrow(bs, ss, b0, book, r.value - HDRSIZE, size);
        if FillsOk(m, b0) { FillsGrow(m, mm.lib.words, B, bs, ss, b0, book, r.value - HDRSIZE, size); }
      }
    }

    /** Write `n` bytes of the id's pattern into the payload of the block `h`, which no id holds. */
    method Stamp(id: int, p: int, n: int, ghost h: int)
      requires Booked() && FillsOk(mm.lib.words, book) && Unheld(book, h)
      requires n == book.asked[h] && p == h + HDRSIZE
      modifies mm.lib`words
      ensures mm.lib.pagemap.Repr == old(mm.lib.pagemap.Repr)
      ensures Booked() && FillsOk(mm.lib.words, book) && Filled(mm.lib.words, p, n, id % 256)
    {
      ghost var m := mm.lib.words;
      Fill(p, id % 256, n, h);
      FillsKept(m, mm.lib.words, mm.layout.blocks, book, h);
    }

    /** Remember that `id` holds the block `h` with payload `p` of `size` bytes. */
    method Remember(id: int, p: int, size: int, ghost h: int)
      requires Booked() && 0 <= id < blocks.Length && p == h + HDRSIZE
      requires Unheld(book, h) && book.asked[h] == size
      modifies this`book, blocks, sizes
      ensures mm.lib.pagemap.Repr == old(mm.lib.pagemap.Repr)
      ensures Booked() && book == Assigned(old(book), id, h)
      ensures old(FillsOk(mm.lib.words, book)) && Filled(mm.lib.words, p, size, id % 256) ==>
        FillsOk(mm.lib.words, book)
    {
      ghost var bs, ss, b := blocks[..], sizes[..], book;
      blocks[id] := p;
      sizes[id] := size;
      book := Assigned(b, id, h);
      IdsGrant(bs, ss, b, book, id, h, size);
      assert blocks[..] == bs[id := p] && sizes[..] == ss[id := size];
      if FillsOk(mm.lib.words, b) && Filled(mm.lib.words, p, size, id % 256) {
        FillsGrant(mm.lib.words, b, book, id, h);
      }
    }

    /** Free the block that `id` holds. */
    method Retire(id: int, p: int)
      requires Booked() && id in book.at && p == book.at[id] + HDRSIZE
      modifies this`book, mm`freeListHead, mm`pageListHead, mm`layout
      modifies mm.lib`words, mm.lib`pageCount, mm.lib.pagemap.Repr
      ensures Apart() && fresh(mm.lib.pagemap.Repr - old(mm.lib.pagemap.Repr))
      ensures Booked() && book == Retired(old(book), id)
      ensures Released(old(mm.layout), mm.layout, old(book.at[id]))
      ensures LiveKept(old(mm.lib.words), mm.lib.words, old(mm.layout.blocks), old(book.at[id]))
      ensures old(FillsOk(mm.lib.words, book)) ==> FillsOk(mm.lib.words, book)
    {
      ghost var m, B, h, b0, bs, ss := mm.lib.words, mm.layout.blocks, book.at[id], book, blocks[..], sizes[..];
      assert IdOk(bs, ss, b0, id);
      GiveBack(p, h);
      book := book.(at := book.at - {id});
      RetireIds(bs, ss, b0, book, id);
      if FillsOk(m, b0) { RetireFills(m, mm.lib.words, B, bs, ss, b0, book, id); }
    }

    /** Check the payload of the new block `h`, list it and write the id's pattern into it. */
    method Accept(id: int, p: int, size: int, ghost h: int, ghost listed: map<int, int>) returns (ok: bool)
      requires Booked() && FillsOk(mm.lib.words, book) && Unheld(book, h)
      requires size == book.asked[h] && p == h + HDRSIZE
      requires RangesOk(list.ranges, listed) && h !in listed
      requires forall a :: a in listed ==> a in book.asked && listed[a] == book.asked[a]
      modifies mm.lib`words, list
      ensures mm.lib.pagemap.Repr == old(mm.lib.pagemap.Repr)
      ensures ok && RangesOk(list.ranges, listed[h := size])
      ensures Booked() && FillsOk(mm.lib.words, book) && Filled(mm.lib.words, p, size, id % 256)
    {
      ok := Check(p, size, h, listed);
      if ok { Stamp(id, p, size, h); }
    }

    // ---------------------------------------------------------------- one request

    /** An allocation request: false if the answer is null or fails a check. */
    method ServeAlloc(id: int, size: int) returns (r: Outcome<bool>)
      requires Tracked() && 0 <= id < blocks.Length && 0 <= size <= INT_MAX
      modifies this`book, mm`freeListHead, mm`pageListHead, mm`layout
      modifies mm.lib, mm.lib.pagemap.Repr, list, blocks, sizes
      ensures Apart() && fresh(mm.lib.pagemap.Repr - old(mm.lib.pagemap.Repr))
      ensures mm.lib.mmapFailed <==> r.Aborted?
      ensures r.Done? ==> (r.value <==> size > 0)
      ensures r.Done? && r.value ==> Tracked() && HandedOut(old(book), book, id, size)
    {
      ghost var b0 := book;
      var p :- AcquireUnheld(size);
      if p == 0 { return Done(false); }
      var ok := Install(id, p, size, p - HDRSIZE, b0);
      r := Done(ok);
    }

    /** Check, list, fill and remember the new block. */
    method Install(id: int, p: int, size: int, ghost h: int, ghost b: Book) returns (ok: bool)
      requires Booked() && FillsOk(mm.lib.words, book) && Obtained(b, book, h, size) && p == h + HDRSIZE
      requires RangesOk(list.ranges, b.asked) && 0 <= id < blocks.Length
      modifies this`book, mm.lib`words, list, blocks, sizes
      ensures Apart() && mm.lib.pagemap.Repr == old(mm.lib.pagemap.Repr)
      ensures ok && Tracked() && HandedOut(b, book, id, size)
    {
      ok := Accept(id, p, size, h, b.asked);
      if !ok { assert false; return; }
      Remember(id, p, size, h);
    }

    /** A reallocation request: a new block is checked and filled before the old one is freed. */
    method ServeRealloc(id: int, size: int) returns (r: Outcome<bool>)
      requires Tracked() && id in book.at && 0 <= size <= INT_MAX
      modifies this`book, mm`freeListHead, mm`pageListHead, mm`layout
      modifies mm.lib, mm.lib.pagemap.Repr, list, blocks, sizes
      ensures Apart() && fresh(mm.lib.pagemap.Repr - old(mm.lib.pagemap.Repr))
      ensures mm.lib.mmapFailed <==> r.Aborted?
      ensures r.Done? ==> (r.value <==> size > 0)
      ensures r.Done? && r.value ==> Tracked() && Exchanged(old(book), book, id, size)
    {
      ghost var b0 := book;
      assert IdOk(blocks[..], sizes[..], book, id);
      var oldp := blocks[id];
      var newp :- AcquireUnheld(size);
      if newp == 0 { return Done(false); }
      var ok := Reinstall(id, oldp, newp, size, newp - HDRSIZE, b0);
      r := Done(ok);
    }

    method Reinstall(id: int, oldp: int, newp: int, size: int, ghost h: int, ghost b: Book) returns (ok: bool)
      requires Booked() && FillsOk(mm.lib.words, book) && Obtained(b, book, h, size) && newp == h + HDRSIZE
      requires id in b.at && oldp == b.at[id] + HDRSIZE && b.at[id] in b.asked
      requires RangesOk(list.ranges, b.asked) && 0 <= id < blocks.Length
      modifies this`book, mm`freeListHead, mm`pageListHead, mm`layout
      modifies mm.lib`words, mm.lib`pageCount, mm.lib.pagemap.Repr, list, blocks, sizes
      ensures Apart() && fresh(mm.lib.pagemap.Repr - old(mm.lib.pagemap.Repr))
      ensures ok && Tracked() && Exchanged(b, book, id, size)
    {
      ghost var b1 := book;
      Delist(oldp, b.at[id], b.asked);
      ok := Accept(id, newp, size, h, b.asked - {b.at[id]});
      if !ok { assert false; return; }
      Exchange(id, oldp, newp, size, h);
      ExchangeAsked(b, b1, book, id, h, size);
    }

    /** The payload `p` of the block `h` leaves the list. */
    method Delist(p: int, ghost h: int, ghost listed: map<int, int>)
      requires RangesOk(list.ranges, listed) && p == h + HDRSIZE
      modifies list
      ensures RangesOk(list.ranges, listed - {h})
    {
      UnlistRange(list.ranges, listed, h, p);
      list.RemoveRange(p);
    }

    /** Free the old block of `id`; it now holds `h`. */
    method Exchange(id: int, oldp: int, newp: int, size: int, ghost h: int)
      requires Booked() && id in book.at && 0 <= id < blocks.Length
      requires Unheld(book, h) && book.asked[h] == size && newp == h + HDRSIZE && oldp == book.at[id] + HDRSIZE
      modifies this`book, mm`freeListHead, mm`pageListHead, mm`layout
      modifies mm.lib`words, mm.lib`pageCount, mm.lib.pagemap.Repr, blocks, sizes
      ensures Apart() && fresh(mm.lib.pagemap.Repr - old(mm.lib.pagemap.Repr))
      ensures Booked() && book == Assigned(Retired(old(book), id), id, h)
      ensures Released(old(mm.layout), mm.layout, old(book.at[id]))
      ensures old(FillsOk(mm.lib.words, book) && Filled(mm.lib.words, newp, size, id % 256)) ==>
        FillsOk(mm.lib.words, book)
    {
      ghost var m, B := mm.lib.words, mm.layout.blocks;
      assert AskedAt(B, book.asked, h);
      RetireKeepsUnheld(book, id, h);
      Retire(id, oldp);
      assert SamePayload(m, mm.lib.words, B, h);
      if Filled(m, newp, size, id % 256) { FilledKept(m, mm.lib.words, B, h, newp, size, id % 256); }
      Remember(id, newp, size, h);
    }

    /** A request to free. */
    method ServeFree(id: int)
      requires Tracked() && id in book.at
      modifies this`book, mm`freeListHead, mm`pageListHead, mm`layout
      modifies mm.lib`words, mm.lib`pageCount, mm.lib.pagemap.Repr, list
      ensures Apart() && fresh(mm.lib.pagemap.Repr - old(mm.lib.pagemap.Repr))
      ensures Tracked() && book == Retired(old(book), id)
    {
      assert IdOk(blocks[..], sizes[..], book, id);
      var p := blocks[id];
      Delist(p, book.at[id], book.asked);
      Retire(id, p);
    }

    // ---------------------------------------------------------------- the run

    method Serve(op: Op) returns (r: Outcome<bool>)
      requires Tracked() && Servable(op, book, blocks.Length)
      modifies this`book, mm`freeListHead, mm`pageListHead, mm`layout
      modifies mm.lib, mm.lib.pagemap.Repr, list, blocks, sizes
      ensures Apart() && fresh(mm.lib.pagemap.Repr - old(mm.lib.pagemap.Repr))
      ensures mm.lib.mmapFailed <==> r.Aborted?
      ensures r.Done? ==> (r.value <==> Demanding(op))
      ensures r.Done? && r.value ==> Tracked() && Stepped(op, old(book), book)
    {
      match op
      case Alloc(id, size) =>
        r := ServeAlloc(id, size);
      case Realloc(id, size) =>
        r := ServeRealloc(id, size);
      case Free(id) =>
        ServeFree(id);
        r := Done(true);
    }

    /** Serve the requests of a trace. Unless the operating system refuses memory, all of them
        are served exactly if none asks for zero bytes. */
    method RunOps(ops: seq<Op>) returns (r: Outcome<bool>)
      requires Tracked() && book == EmptyBook() && Runnable(ops, blocks.Length)
      modifies this`book, mm`freeListHead, mm`pageListHead, mm`layout
      modifies mm.lib, mm.lib.pagemap.Repr, list, blocks, sizes
      ensures Apart() && fresh(mm.lib.pagemap.Repr - old(mm.lib.pagemap.Repr))
      ensures mm.lib.mmapFailed <==> r.Aborted?
      ensures r.Done? ==> (r.value <==> Positive(ops))
      ensures r.Done? && r.value ==> Tracked() && book.at.Keys == Live(ops)
      ensures r.Done? && r.value && NoReuse(ops) ==> NoLeak(book)
      ensures r.Done? && r.value && NoReuse(ops) && Live(ops) == {} ==> mm.lib.pagemap.Pages == mm.lost
    {
      var i := 0;
      while i < |ops|
        invariant Tracked() && fresh(mm.lib.pagemap.Repr - old(mm.lib.pagemap.Repr))
        invariant Progress(ops, i, book)
      {
        NextServable(ops, i, book, blocks.Length);
        ghost var b := book;
        var ok :- Serve(ops[i]);
        if !ok { return Done(false); }
        StepProgress(ops, i, b, book);
        i := i + 1;
      }
      AllServed(ops, mm.layout, book, mm.lib.pagemap.Pages, mm.lost);
      r := Done(true);
    }

    /** The verdict on a trace: 1 exactly if every request asks for at least one byte. */
    method EvalMmValid(ops: seq<Op>) returns (r: Outcome<int>)
      requires Apart() && mm !in mm.lib.pagemap.Repr && mm.lib.Valid()
      requires !mm.lib.mmapFailed
      requires Runnable(ops, blocks.Length)
      modifies this`book, mm, mm.lib, mm.lib.pagemap.Repr, list, blocks, sizes
      ensures Apart() && fresh(mm.lib.pagemap.Repr - old(mm.lib.pagemap.Repr))
      ensures mm.lib.mmapFailed <==> r.Aborted?
      ensures r.Done? ==> r.value == if Positive(ops) then 1 else 0
      ensures r.Done? && r.value == 1 ==> mm.lib.Valid() && mm.lib.pagemap.Pages == {}
    {
      Start();
      var ok :- RunOps(ops);
      if !ok { return Done(0); }
      mm.lib.Reset();
      r := Done(1);
    }

    method Start()
      requires Apart() && mm !in mm.lib.pagemap.Repr && mm.lib.Valid()
      requires !mm.lib.mmapFailed
      modifies this`book, mm, list
      ensures Tracked() && book == EmptyBook() && mm.lost == mm.lib.pagemap.Pages == old(mm.lib.pagemap.Pages)
    {
      list.ClearRanges();
      Begin();
    }

    method Begin()
      requires Apart() && mm !in mm.lib.pagemap.Repr && mm.lib.Valid()
      requires !mm.lib.mmapFailed
      modifies this`book, mm
      ensures Booked() && book == EmptyBook() && mm.layout == EmptyLayout()
      ensures mm.lost == mm.lib.pagemap.Pages == old(mm.lib.pagemap.Pages)
    {
      mm.Init();
      book := EmptyBook();
    }

    // ---------------------------------------------------------------- utilization

    method SpendAlloc(id: int, size: int, total: int) returns (r: Outcome<int>)
      requires Booked() && 0 <= id < blocks.Length && 0 <= size <= INT_MAX
      modifies this`book, mm`freeListHead, mm`pageListHead, mm`layout
      modifies mm.lib, mm.lib.pagemap.Repr, blocks, sizes
      ensures Apart() && fresh(mm.lib.pagemap.Repr - old(mm.lib.pagemap.Repr))
      ensures r.Aborted? <==> mm.lib.mmapFailed || size == 0
      ensures r.Done? ==> Booked() && HandedOut(old(book), book, id, size) && r.value == total + size
      ensures r.Done? ==> LayoutStep(Alloc(id, size), old(mm.layout), mm.layout)
    {
      var p :- AcquireUnheld(size);
      if p == 0 { return Aborted; }
      Remember(id, p, size, p - HDRSIZE);
      r := Done(total + size);
    }

    method SpendRealloc(id: int, newsize: int, total: int) returns (r: Outcome<int>)
      requires Booked() && id in book.at && 0 <= newsize <= INT_MAX
      modifies this`book, mm`freeListHead, mm`pageListHead, mm`layout
      modifies mm.lib, mm.lib.pagemap.Repr, blocks, sizes
      ensures Apart() && fresh(mm.lib.pagemap.Repr - old(mm.lib.pagemap.Repr))
      ensures r.Aborted? <==> mm.lib.mmapFailed || newsize == 0
      ensures old(book.at[id] in book.asked)
      ensures r.Done? ==> Booked() && Exchanged(old(book), book, id, newsize)
      ensures r.Done? ==> r.value == total + (newsize - old(book.asked[book.at[id]]))
      ensures r.Done? ==> LayoutStep(Realloc(id, newsize), old(mm.layout), mm.layout)
    {
      assert IdOk(blocks[..], sizes[..], book, id);
      ghost var b := book;
      var oldsize := sizes[id];
      var oldp := blocks[id];
      var newp :- AcquireUnheld(newsize);
      if newp == 0 { return Aborted; }
      SpendExchange(id, oldp, newp, newsize, newp - HDRSIZE, b);
      r := Done(total + (newsize - oldsize));
    }

    method SpendExchange(id: int, oldp: int, newp: int, size: int, ghost h: int, ghost b: Book)
      requires Booked() && Obtained(b, book, h, size) && newp == h + HDRSIZE && 0 <= id < blocks.Length
      requires id in b.at && b.at[id] in b.asked && oldp == b.at[id] + HDRSIZE
      modifies this`book, mm`freeListHead, mm`pageListHead, mm`layout
      modifies mm.lib`words, mm.lib`pageCount, mm.lib.pagemap.Repr, blocks, sizes
      ensures Apart() && fresh(mm.lib.pagemap.Repr - old(mm.lib.pagemap.Repr))
      ensures Booked() && Exchanged(b, book, id, size)
      ensures Released(old(mm.layout), mm.layout, b.at[id])
    {
      ghost var b1 := book;
      Exchange(id, oldp, newp, size, h);
      ExchangeAsked(b, b1, book, id, h, size);
    }

    method SpendFree(id: int, total: int) returns (total': int)
      requires Booked() && id in book.at
      modifies this`book, mm`freeListHead, mm`pageListHead, mm`layout
      modifies mm.lib`words, mm.lib`pageCount, mm.lib.pagemap.Repr
      ensures Apart() && fresh(mm.lib.pagemap.Repr - old(mm.lib.pagemap.Repr))
      ensures old(book.at[id] in book.asked)
      ensures Booked() && book == Retired(old(book), id) && total' == total - old(book.asked[book.at[id]])
      ensures Released(old(mm.layout), mm.layout, old(book.at[id]))
    {
      assert IdOk(blocks[..], sizes[..], book, id);
      var size := sizes[id];
      Retire(id, blocks[id]);
      total' := total - size;
    }

    /** One request of the utilization run; the process ends if it is refused. */
    method Spend(op: Op, total: int, ghost was: int) returns (r: Outcome<int>)
      requires Booked() && Servable(op, book, blocks.Length)
      requires !op.Alloc? ==> book.at[op.index] in book.asked && was == book.asked[book.at[op.index]]
      modifies this`book, mm`freeListHead, mm`pageListHead, mm`layout
      modifies mm.lib, mm.lib.pagemap.Repr, blocks, sizes
      ensures Apart() && fresh(mm.lib.pagemap.Repr - old(mm.lib.pagemap.Repr))
      ensures r.Aborted? <==> mm.lib.mmapFailed || !Demanding(op)
      ensures r.Done? ==> Booked() && Stepped(op, old(book), book) && r.value == Changed(op, total, was)
      ensures r.Done? ==> LayoutStep(op, old(mm.layout), mm.layout)
    {
      match op
      case Alloc(id, size) =>
        r := SpendAlloc(id, size, total);
      case Realloc(id, size) =>
        r := SpendRealloc(id, size, total);
      case Free(id) =>
        var total' := SpendFree(id, total);
        r := Done(total');
    }

    /** Request `i` of the utilization run. */
    method SpendOne(ops: seq<Op>, i: nat, total: int) returns (r: Outcome<int>)
      requires Booked() && Runnable(ops, blocks.Length) && i < |ops|
      requires Totalled(ops, i, book) && total == Demand(ops[..i])
      modifies this`book, mm`freeListHead, mm`pageListHead, mm`layout
      modifies mm.lib, mm.lib.pagemap.Repr, blocks, sizes
      ensures Apart() && fresh(mm.lib.pagemap.Repr - old(mm.lib.pagemap.Repr))
      ensures r.Aborted? ==> mm.lib.mmapFailed || !Positive(ops)
      ensures r.Done? ==> Booked() && Totalled(ops, i + 1, book) && r.value == Demand(ops[..i + 1])
      ensures r.Done? ==> LayoutStep(ops[i], old(mm.layout), mm.layout)
    {
      ghost var b := book;
      NextSpendable(ops, i, book, blocks.Length);
      r := Spend(ops[i], total, SizeOf(ops[..i], ops[i].index));
      if r.Done? { StepTotalled(ops, i, b, book); }
    }

    /** Request `i` and the figures taken after it. */
    method SpendNext(ops: seq<Op>, i: nat, total: int, use: Usage,
                     ghost history: seq<Sample>, ghost layouts: seq<Layout>)
      returns (r: Outcome<int>, use': Usage, ghost history': seq<Sample>, ghost layouts': seq<Layout>)
      requires Booked() && Runnable(ops, blocks.Length) && i < |ops|
      requires Totalled(ops, i, book) && total == Demand(ops[..i])
      requires Figures(ops, |mm.lost|, i, use, history, layouts) && mm.layout == LayoutBefore(layouts, i)
      modifies this`book, mm`freeListHead, mm`pageListHead, mm`layout
      modifies mm.lib, mm.lib.pagemap.Repr, blocks, sizes
      ensures Apart() && fresh(mm.lib.pagemap.Repr - old(mm.lib.pagemap.Repr))
      ensures r.Aborted? ==> mm.lib.mmapFailed || !Positive(ops)
      ensures r.Done? ==> Booked() && Totalled(ops, i + 1, book) && r.value == Demand(ops[..i + 1])
      ensures r.Done? ==> Figures(ops, |mm.lost|, i + 1, use', history', layouts')
      ensures r.Done? ==> mm.layout == LayoutBefore(layouts', i + 1)
    {
      use', history', layouts' := use, history, layouts;
      r := SpendOne(ops, i, total);
      if r.Done? {
        NextFigures(ops, i, r.value, use, history, layouts);
        use' := Updated(use, r.value, mm.lib.HeapSize());
        history' := history + [Sample(r.value, mm.lib.HeapSize(), |mm.lib.pagemap.Pages|)];
        layouts' := layouts + [mm.layout];
      }
    }

    /** The figures after request `i`, with the heap as it is then. */
    lemma NextFigures(ops: seq<Op>, i: nat, total: int, use: Usage, history: seq<Sample>, layouts: seq<Layout>)
      requires Booked() && i < |ops| && Totalled(ops, i + 1, book) && total == Demand(ops[..i + 1])
      requires Figures(ops, |mm.lost|, i, use, history, layouts)
      requires LayoutStep(ops[i], LayoutBefore(layouts, i), mm.layout)
      ensures mm.lib.Valid() && total >= 0 && mm.lib.HeapSize() >= 0 && use.ratios.frac > 0.0
      ensures Figures(ops, |mm.lost|, i + 1, Updated(use, total, mm.lib.HeapSize()),
                      history + [Sample(total, mm.lib.HeapSize(), |mm.lib.pagemap.Pages|)], layouts + [mm.layout])
    {
      var s := Sample(total, mm.lib.HeapSize(), |mm.lib.pagemap.Pages|);
      NewSample(ops, i, mm.layout, book, mm.lib.pagemap.Pages, mm.lost, s);
      Recorded(ops, |mm.lost|, history, layouts, i, s, mm.layout, use);
    }

    /** The requests of the utilization run, with the figures taken after each. */
    method Spending(ops: seq<Op>)
      returns (r: Outcome<Usage>, ghost history: seq<Sample>, ghost layouts: seq<Layout>)
      requires Booked() && book == EmptyBook() && mm.layout == EmptyLayout() && Runnable(ops, blocks.Length)
      modifies this`book, mm`freeListHead, mm`pageListHead, mm`layout
      modifies mm.lib, mm.lib.pagemap.Repr, blocks, sizes
      ensures Apart() && fresh(mm.lib.pagemap.Repr - old(mm.lib.pagemap.Repr))
      ensures r.Aborted? <==> mm.lib.mmapFailed || !Positive(ops)
      ensures r.Done? ==> Booked() && Figures(ops, |mm.lost|, |ops|, r.value, history, layouts)
    {
      history, layouts := [], [];
      var i, total, use := 0, 0, Usage(0, 0, Split(1.0, 0));
      NothingTotalled(ops);
      while i < |ops|
        invariant 0 <= i <= |ops|
        invariant Booked() && fresh(mm.lib.pagemap.Repr - old(mm.lib.pagemap.Repr))
        invariant Totalled(ops, i, book) && total == Demand(ops[..i])
        invariant Figures(ops, |mm.lost|, i, use, history, layouts)
        invariant mm.layout == LayoutBefore(layouts, i)
      {
        var next;
        next, use, history, layouts := SpendNext(ops, i, total, use, history, layouts);
        if next.Aborted? { return Aborted, history, layouts; }
        total := next.value;
        i := i + 1;
      }
      AllTotalled(ops, book);
      r := Done(use);
    }

    /** The figures on memory utilization. `history` holds what was measured after each request, and
        `layouts` how the heap was laid out then. */
    method EvalMmUtil(ops: seq<Op>)
      returns (r: Outcome<Usage>, ghost history: seq<Sample>, ghost layouts: seq<Layout>)
      requires Apart() && mm !in mm.lib.pagemap.Repr && mm.lib.Valid()
      requires !mm.lib.mmapFailed
      requires Runnable(ops, blocks.Length)
      modifies this`book, mm, mm.lib, mm.lib.pagemap.Repr, blocks, sizes
      ensures fresh(mm.lib.pagemap.Repr - old(mm.lib.pagemap.Repr))
      ensures r.Aborted? <==> mm.lib.mmapFailed || !Positive(ops)
      ensures r.Done? ==> mm.lib.Valid() && mm.lib.pagemap.Pages == {}
      ensures r.Done? ==> Figures(ops, |old(mm.lib.pagemap.Pages)|, |ops|, r.value, history, layouts)
      ensures r.Done? && Needs(ops) + APAGE_SIZE * |old(mm.lib.pagemap.Pages)| <= INT_MAX ==>
        r.value.peak <= r.value.maxHeap
    {
      ghost var lost := |mm.lib.pagemap.Pages|;
      Begin();
      r, history, layouts := Spending(ops);
      if r.Aborted? { return; }
      if Needs(ops) + APAGE_SIZE * lost <= INT_MAX {
        SmallTraceIsModerate(ops, lost, history, layouts);
        UtilizationAtMostOne(ops, lost, r.value, history, layouts, blocks.Length);
      }
      mm.lib.Reset();
    }
  }

  lemma NewSample(ops: seq<Op>, i: nat, L: Layout, b: Book, pages: set<int>, lost: set<int>, s: Sample)
    requires i < |ops| && Totalled(ops, i + 1, b) && s.total == Demand(ops[..i + 1])
    requires HeapOk(L) && Distinct(L.order) && Members(L.order, L.chunks) && AskedOk(L.blocks, b.asked)
    requires Owns(pages, L.chunks, lost) && forall p {:trigger PageOk(p)} :: p in pages ==> PageOk(p)
    requires s.pages == |pages| && s.heap == HeapFigure(|pages|)
    ensures SampleOk(ops, |lost|, i, s, L)
  {
    OwnsIs(pages, L.chunks, lost);
    AllPages(pages);
    SampleFits(ops, |lost|, i, L, b, s);
  }

  /** After `i` requests: who holds a block, and that no block is lost. */
  ghost predicate Progress(ops: seq<Op>, i: int, b: Book) {
    && 0 <= i <= |ops|
    && b.at.Keys == Live(ops[..i]) && Positive(ops[..i])
    && (NoReuse(ops) ==> NoLeak(b))
  }

  lemma StepProgress(ops: seq<Op>, i: nat, b: Book, b': Book)
    requires i < |ops| && Stepped(ops[i], b, b') && Demanding(ops[i]) && Progress(ops, i, b)
    ensures Progress(ops, i + 1, b')
  {
    StepPositive(ops, i, b, b');
  }

  lemma NextServable(ops: seq<Op>, i: nat, b: Book, n: nat)
    requires Runnable(ops, n) && i < |ops| && Progress(ops, i, b)
    ensures Servable(ops[i], b, n)
    ensures Positive(ops) ==> Demanding(ops[i])
  {
    assert OpOk(ops, n, i);
  }

  /** At the end of a trace that gives everything back, the heap is empty. */
  lemma AllServed(ops: seq<Op>, L: Layout, b: Book, pages: set<int>, lost: set<int>)
    requires Progress(ops, |ops|, b) && Owns(pages, L.chunks, lost)
    requires HeapOk(L) && Members(L.order, L.chunks) && AskedOk(L.blocks, b.asked)
    ensures Positive(ops) && b.at.Keys == Live(ops) && (NoReuse(ops) ==> NoLeak(b))
    ensures NoReuse(ops) && Live(ops) == {} ==> pages == lost
  {
    assert ops[..|ops|] == ops;
    if NoReuse(ops) && Live(ops) == {} {
      forall a ensures a !in Used(L.blocks) {
        assert AskedAt(L.blocks, b.asked, a) && a !in b.at.Keys;
      }
      NothingUsed(L);
      OwnsIs(pages, L.chunks, lost);
    }
  }

  lemma MallocAsked(L: Layout, L': Layout, asked: map<int, int>, n: int, bp: int, h: int)
    requires HeapOk(L) && n > 0 && Mallocd(L, L', n, bp) && h == bp - HDRSIZE && AskedOk(L.blocks, asked)
    ensures h !in asked && AskedOk(L'.blocks, asked[h := n])
  {
    MallocGives(L, L', n, bp, h);
    NullIsNoBlock(L);
    GrantAsked(L.blocks, L'.blocks, asked, h, n);
  }

  /** Writing inside a payload leaves every structure of the heap and all other payloads alone. */
  lemma PayloadWritten(m: Memory, m': Memory, freeHead: int, pageHead: int, L: Layout, h: int, p: int, n: int, v: int)
    requires Image(m, freeHead, pageHead, L, 0) && h in Used(L.blocks) && p == h + HDRSIZE && n > 0
    requires n + HDRSIZE + FDRSIZE <= L.blocks[h].size && 0 <= v < 256
    requires m' == Memset(m, p, n, v)
    ensures Image(m', freeHead, pageHead, L, 0) && m'.Keys == m.Keys
    ensures Filled(m', p, n, v) && LiveKept(m, m', L.blocks, h)
  {
    InsideChunk(L.chunks, L.blocks, h);
    assert m'.Keys == m.Keys;
    assert h + HDRSIZE !in L.free;
    BlockWriteFrame(m, m', L, freeHead, pageHead, 0, h);
    assert Tag(m, L.blocks, h, 0);
    forall a | a in L.blocks ensures Tag(m', L.blocks, a, 0) {
      if a == h { assert Tag(m', L.blocks, h, 0); } else { assert Tag(m', L.blocks, a, 0); }
    }
    ClearBlock(L.chunks, L.blocks, h, h);
    KeepLive(m, m', L.chunks, L.blocks, h, h, h + L.blocks[h].size, []);
    PayloadFilled(m, L, h, p, n, v);
  }

  lemma PayloadFilled(m: Memory, L: Layout, h: int, p: int, n: int, v: int)
    requires Tiling(L.chunks, L.blocks) && Mapped(m, L.chunks) && h in L.blocks && p == h + HDRSIZE
    requires n + HDRSIZE + FDRSIZE <= L.blocks[h].size && 0 <= v < 256
    ensures Filled(Memset(m, p, n, v), p, n, v)
  {
    forall x | p <= x < p + n && WordAligned(x) ensures x in m {
      WordMapped(m, L.chunks, L.blocks, h, x);
    }
    assert p % 8 == 0 by {
      InsideChunk(L.chunks, L.blocks, h);
      PayloadAligned(h, p);
    }
    MemsetBytes(m, p, n, v);
  }

  lemma PayloadAligned(h: int, p: int)
    requires h % 16 == 0 && p == h + HDRSIZE
    ensures p % 8 == 0
  {
  }
}
