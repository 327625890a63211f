/** The map of pages handed out: a three-level radix table whose leaf cells are also the
    nodes of a doubly linked list. It is used as a plain set of pages. */
module PageMaps {
  import opened Machine
  import opened Sequences

  const LEVEL1_SIZE := 0x1_0000
  const LEVEL2_SIZE := 0x1_0000
  const LEVEL3_SIZE := 0x10_0000

  // The shifts and masks of the level-bit macros, on the number of a page.
  function Level1(n: int): int { n / 0x10_0000_0000 }
  function Level2(n: int): int { n / 0x10_0000 % 0x1_0000 }
  function Level3(n: int): int { n % 0x10_0000 }

  predicate IsPointer(p: int) { 0 <= p < ADDRESS_LIMIT }

  function PageOf(p: int): int { p / APAGE_SIZE * APAGE_SIZE }

  lemma LevelsInjective(n: int, n': int)
    requires 0 <= n < PAGES && 0 <= n' < PAGES
    ensures Level1(n) == Level1(n') && Level2(n) == Level2(n') && Level3(n) == Level3(n') <==> n == n'
  {
  }

  /** The index fields are the top 16 bits of an address, the next 16 and the next 20. */
  lemma LevelsOfAddress(p: int, n: int)
    requires IsPointer(p) && n == p / 0x1000
    ensures p == Level1(n) * 0x1_0000_0000_0000 + Level2(n) * 0x1_0000_0000 + Level3(n) * 0x1000 + p % 0x1000
    ensures 0 <= Level1(n) < 0x1_0000 && 0 <= Level2(n) < 0x1_0000 && 0 <= Level3(n) < 0x10_0000
  {
  }

  /** The page of an address is the multiple of 4096 at or before it. */
  lemma PageOfIs(p: int, q: int)
    ensures q == PageOf(p) <==> q % 4096 == 0 && q <= p < q + 4096
  {
  }

  /** The pages that share the level-3 table with page `n` are consecutive. */
  lemma SameTable(n: int, n': int)
    requires 0 <= n < PAGES && 0 <= n' < PAGES
    ensures Level1(n) == Level1(n') && Level2(n) == Level2(n') <==>
      n - Level3(n) <= n' < n - Level3(n) + LEVEL3_SIZE
    ensures Level1(n) == Level1(n') && Level2(n) == Level2(n') ==> Level3(n') == n' - (n - Level3(n))
  {
  }

  lemma InTable(n: int, k: int, base: int)
    requires 0 <= n < PAGES && 0 <= k < PAGES && base == n - Level3(n)
    ensures 0 <= Level1(k) < LEVEL1_SIZE && 0 <= Level2(k) < LEVEL2_SIZE && 0 <= Level3(k) < LEVEL3_SIZE
    ensures Level1(n) == Level1(k) && Level2(n) == Level2(k) <==> base <= k < base + LEVEL3_SIZE
    ensures base <= k < base + LEVEL3_SIZE ==> Offset(k, base) == Level3(k)
  {
    SameTable(n, k);
  }

  /** A leaf cell; `addr` is null while its page is not mapped. */
  class MPage {
    var addr: int
    var prev: MPage?
    var next: MPage?

    constructor ()
      ensures addr == 0 && prev == null && next == null
    {
      addr, prev, next := 0, null, null;
    }
  }

  method Calloc3() returns (t: seq<MPage>)
    ensures |t| == LEVEL3_SIZE
    ensures forall i, j :: 0 <= i < |t| && 0 <= j < |t| && i != j ==> t[i] != t[j]
    ensures forall c :: c in t ==> fresh(c) && c.addr == 0
  {
    t := [];
    while |t| < LEVEL3_SIZE
      invariant |t| <= LEVEL3_SIZE && Distinct(t)
      invariant forall c :: c in t ==> fresh(c) && c.addr == 0
    {
      var c := new MPage();
      t := t + [c];
    }
  }

  function Offset(n: int, base: int): int { n - base }

  /** `cells` with the cells `t` of a new level-3 table, the first of which is that of page `base`. */
  ghost function Grow(cells: map<int, MPage>, t: seq<MPage>, base: int): map<int, MPage>
    requires |t| == LEVEL3_SIZE
  {
    (map k {:trigger Offset(k, base)} | base <= k < base + LEVEL3_SIZE :: t[Offset(k, base)]) + cells
  }

  lemma GrowDistinct(cells: map<int, MPage>, t: seq<MPage>, base: int)
    requires |t| == LEVEL3_SIZE
    requires forall i, j :: 0 <= i < |t| && 0 <= j < |t| && i != j ==> t[i] != t[j]
    requires forall n, n' :: n in cells && n' in cells && n != n' ==> cells[n] != cells[n']
    requires forall n :: n in cells ==> cells[n] !in t
    ensures var cells' := Grow(cells, t, base);
      && (forall n, n' :: n in cells' && n' in cells' && n != n' ==> cells'[n] != cells'[n'])
      && (forall n :: n in cells' && n !in cells ==> cells'[n] in t)
  {
  }

  /** The three levels of tables, allocated on first use. */
  class RadixTable {
    var maps1: array?<array?<seq<MPage>>>       // an empty sequence is a null level-3 table
    ghost var maps2: set<array<seq<MPage>>>     // the level-2 tables
    ghost var cells: map<int, MPage>            // page number -> its cell, where tables exist

    ghost predicate TablesOk()
      reads this, maps1, maps2
    {
      maps1 != null ==>
        && maps1.Length == LEVEL1_SIZE
        && (forall i :: 0 <= i < LEVEL1_SIZE && maps1[i] != null ==>
          maps1[i] in maps2 && maps1[i].Length == LEVEL2_SIZE)
        && (forall i, j :: 0 <= i < j < LEVEL1_SIZE && maps1[i] != null ==> maps1[i] != maps1[j])
    }

    /** The level-3 table for page `n`, empty if some level on the way is null. */
    ghost function Table(n: int): seq<MPage>
      requires 0 <= n < PAGES && TablesOk()
      reads this, maps1, maps2
    {
      if maps1 == null || maps1[Level1(n)] == null then [] else maps1[Level1(n)][Level2(n)]
    }

    /** Following the three levels for page `n` ends in its cell, if it has one. */
    ghost predicate PathOk(n: int)
      requires 0 <= n < PAGES && TablesOk()
      reads this, maps1, maps2
    {
      if n in cells then |Table(n)| == LEVEL3_SIZE && Table(n)[Level3(n)] == cells[n] else Table(n) == []
    }

    ghost predicate Valid()
      reads this, maps1, maps2
    {
      && TablesOk()
      && (forall n :: n in cells ==> 0 <= n < PAGES)
      && (forall n {:trigger PathOk(n)} :: 0 <= n < PAGES ==> PathOk(n))
      && (forall n, n' :: n in cells && n' in cells && n != n' ==> cells[n] != cells[n'])
    }

    constructor ()
      ensures Valid() && maps1 == null && maps2 == {} && cells == map[]
    {
      maps1, maps2, cells := null, {}, map[];
    }

    method Lookup(n: int) returns (page: MPage?)
      requires Valid() && 0 <= n < PAGES
      ensures page == if n in cells then cells[n] else null
    {
      assert PathOk(n);
      if maps1 == null { return null; }
      var m2 := maps1[Level1(n)];
      if m2 == null { return null; }
      var m3: seq<MPage> := m2[Level2(n)];
      if m3 == [] { return null; }
      return m3[Level3(n)];
    }

    method NewLevel1()
      requires Valid() && maps1 == null
      modifies this
      ensures Valid() && fresh(maps1) && maps2 == old(maps2) && cells == old(cells)
    {
      forall n | 0 <= n < PAGES ensures n !in cells { assert PathOk(n); }
      maps1 := new array?<seq<MPage>>[LEVEL1_SIZE](_ => null);
      forall n | 0 <= n < PAGES ensures PathOk(n) {}
    }

    lemma NoCellsYet(n: int, base: int)
      requires Valid() && 0 <= n < PAGES && maps1 != null && base == n - Level3(n)
      requires 0 <= Level1(n) < maps1.Length && maps1[Level1(n)] != null
      requires 0 <= Level2(n) < maps1[Level1(n)].Length && maps1[Level1(n)][Level2(n)] == []
      ensures forall k :: base <= k < base + LEVEL3_SIZE ==> 0 <= k < PAGES && k !in cells
    {
      forall k | base <= k < base + LEVEL3_SIZE ensures 0 <= k < PAGES && k !in cells {
        SameTable(n, k);
        assert PathOk(k);
      }
    }

    method NewLevel2(n: int)
      requires Valid() && 0 <= n < PAGES && maps1 != null
      requires 0 <= Level1(n) < maps1.Length && maps1[Level1(n)] == null
      modifies this, maps1
      ensures Valid() && maps1 == old(maps1) && cells == old(cells)
      ensures 0 <= Level1(n) < maps1.Length && maps1[Level1(n)] != null
      ensures fresh(maps2 - old(maps2))
    {
      var t := new seq<MPage>[LEVEL2_SIZE](_ => []);
      ghost var i := Level1(n);
      forall k | 0 <= k < PAGES && Level1(k) == i ensures k !in cells { assert PathOk(k); }
      forall k | 0 <= k < PAGES ensures PathOk(k) { assert PathOk(k); }
      maps1[Level1(n)] := t;
      maps2 := maps2 + {t};
      forall k | 0 <= k < PAGES ensures PathOk(k) {
        assert old(PathOk(k));
      }
    }

    method NewLevel3(n: int)
      requires Valid() && 0 <= n < PAGES && maps1 != null
      requires 0 <= Level1(n) < maps1.Length && maps1[Level1(n)] != null
      requires 0 <= Level2(n) < maps1[Level1(n)].Length && maps1[Level1(n)][Level2(n)] == []
      modifies this, maps2
      ensures Valid() && maps1 == old(maps1) && maps2 == old(maps2) && n in cells
      ensures Extends(old(cells), cells)
      ensures forall k :: k in cells && k !in old(cells) ==> fresh(cells[k]) && cells[k].addr == 0
    {
      ghost var base := n - Level3(n);
      NoCellsYet(n, base);
      var t := Calloc3();
      var m2 := maps1[Level1(n)];
      m2[Level2(n)] := t;
      ghost var cells0 := cells;
      cells := Grow(cells0, t, base);
      GrowDistinct(cells0, t, base);
      forall k | 0 <= k < PAGES ensures PathOk(k) {
        InTable(n, k, base);
        if base <= k < base + LEVEL3_SIZE {
          assert Table(k) == t;
        } else {
          assert old(PathOk(k)) && Table(k) == old(Table(k));
        }
      }
    }

    /** The cell of page `n`; the tables on the way are allocated where missing. */
    method Find(n: int) returns (page: MPage, ghost added: set<object>)
      requires Valid() && 0 <= n < PAGES
      modifies this, maps1, maps2
      ensures Valid() && n in cells && page == cells[n]
      ensures fresh(added) && maps1 in {old(maps1)} + added && maps2 <= old(maps2) + added
      ensures Extends(old(cells), cells)
      ensures forall k :: k in cells && k !in old(cells) ==> cells[k] in added && cells[k].addr == 0
    {
      if maps1 == null { NewLevel1(); }
      if maps1[Level1(n)] == null { NewLevel2(n); }
      if maps1[Level1(n)][Level2(n)] == [] { NewLevel3(n); }
      assert PathOk(n);
      page := maps1[Level1(n)][Level2(n)][Level3(n)];
      added := (maps2 - old(maps2)) + set k | k in cells && k !in old(cells) :: cells[k];
      if maps1 != old(maps1) { added := added + {maps1}; }
    }
  }

  ghost predicate Extends(cells: map<int, MPage>, cells': map<int, MPage>) {
    forall n :: n in cells ==> n in cells' && cells'[n] == cells[n]
  }

  /** The doubly linked list of mapped cells. */
  class CellList {
    var head: MPage?
    ghost var cells: seq<MPage>

    ghost predicate LinkOk(i: int)
      requires 0 <= i < |cells|
      reads this, cells
    {
      && cells[i].prev == (if i == 0 then null else cells[i - 1])
      && cells[i].next == (if i + 1 == |cells| then null else cells[i + 1])
    }

    ghost predicate Valid()
      reads this, cells
    {
      && Distinct(cells)
      && head == (if cells == [] then null else cells[0])
      && (forall i {:trigger LinkOk(i)} :: 0 <= i < |cells| ==> LinkOk(i))
    }

    constructor ()
      ensures Valid() && cells == []
    {
      head, cells := null, [];
    }

    /** The address of a cell is no part of the list. */
    method SetAddr(page: MPage, a: int)
      requires Valid()
      modifies page`addr
      ensures Valid() && page.addr == a
    {
      page.addr := a;
      forall i | 0 <= i < |cells| ensures LinkOk(i) { assert old(LinkOk(i)); }
    }

    method Push(page: MPage)
      requires Valid() && page !in cells
      modifies this, page`prev, page`next, cells
      ensures Valid() && cells == [page] + old(cells)
      ensures forall c :: c in cells ==> c.addr == old(c.addr)
    {
      if cells != [] { assert LinkOk(0); }
      page.prev := null;
      page.next := head;
      if head != null {
        head.prev := page;
      }
      head := page;
      cells := [page] + cells;
      forall i | 0 <= i < |cells| ensures LinkOk(i) {
        if i > 0 { assert old(LinkOk(i - 1)); }
      }
    }

    /** The cell's page is mapped: its address is set and it enters the list. */
    method Put(page: MPage, a: int)
      requires Valid() && page !in cells
      modifies this, page, cells
      ensures Valid() && cells == [page] + old(cells)
      ensures page.addr == a && forall c :: c in old(cells) ==> c.addr == old(c.addr)
    {
      SetAddr(page, a);
      Push(page);
    }

    /** The cell's page is unmapped: its address becomes null and it leaves the list. */
    method Take(page: MPage, ghost k: nat)
      requires Valid() && k < |cells| && cells[k] == page
      modifies this, cells
      ensures Valid() && cells == old(cells)[..k] + old(cells)[k + 1..]
      ensures page.next == old(page.next) && page.addr == 0
      ensures forall c :: c in old(cells) && c != page ==> c.addr == old(c.addr)
    {
      SetAddr(page, 0);
      Remove(page, k);
    }

    method Remove(page: MPage, ghost k: nat)
      requires Valid() && k < |cells| && cells[k] == page
      modifies this, cells
      ensures Valid() && cells == old(cells)[..k] + old(cells)[k + 1..]
      ensures page.next == old(page.next)
      ensures forall c :: c in old(cells) ==> c.addr == old(c.addr)
    {
      assert LinkOk(k);
      if k > 0 { assert LinkOk(k - 1) && cells[k - 1] in cells; }
      if k + 1 < |cells| { assert LinkOk(k + 1) && cells[k + 1] in cells; }
      if page.prev != null {
        page.prev.next := page.next;
      } else {
        head := page.next;
      }
      if page.next != null {
        page.next.prev := page.prev;
      }
      cells := cells[..k] + cells[k + 1..];
      forall i | 0 <= i < |cells| ensures LinkOk(i) {
        var j := if i < k then i else i + 1;
        assert old(LinkOk(j));
      }
    }
  }

  /** Each of the pages is still mapped or has been visited, once. */
  ghost predicate Visiting(all: set<int>, pages: set<int>, visited: seq<int>) {
    && Distinct(visited)
    && (forall q :: q in all <==> q in pages || q in visited)
    && (forall q :: q in pages ==> q !in visited && 0 < q < ADDRESS_LIMIT)
  }

  class PageMap {
    const table: RadixTable
    const mapped: CellList
    ghost var Pages: set<int>       // the set the structure stands for
    ghost var Repr: set<object>

    ghost predicate Footprint()
      reads this, Repr
    {
      && this in Repr && table in Repr && mapped in Repr
      && (table.maps1 != null ==> table.maps1 in Repr)
      && table.maps2 <= Repr
      && (forall n :: n in table.cells ==> table.cells[n] in Repr)
      && (forall c :: c in mapped.cells ==> c in Repr)
    }

    /** A cell is in the list exactly while its page is in the set, and then holds its address. */
    ghost predicate CellOk(n: int)
      requires Footprint() && n in table.cells
      reads this, Repr
    {
      var cell := table.cells[n];
      && (cell.addr == 0 || cell.addr == n * APAGE_SIZE)
      && (cell.addr != 0 <==> cell in mapped.cells)
      && (cell.addr != 0 <==> n * APAGE_SIZE in Pages)
    }

    ghost predicate ListedOk(c: MPage)
      requires Footprint() && c in mapped.cells
      reads this, Repr
    {
      c.addr / APAGE_SIZE in table.cells && table.cells[c.addr / APAGE_SIZE] == c
    }

    ghost predicate Valid()
      reads this, Repr
      ensures Valid() ==> this in Repr
    {
      && Footprint() && table.Valid() && mapped.Valid()
      && (forall n {:trigger CellOk(n)} :: n in table.cells ==> CellOk(n))
      && (forall c {:trigger ListedOk(c)} :: c in mapped.cells ==> ListedOk(c))
      && (forall p :: p in Pages ==> p % APAGE_SIZE == 0 && p / APAGE_SIZE in table.cells)
    }

    constructor ()
      ensures Valid() && fresh(Repr) && Pages == {}
    {
      table := new RadixTable();
      mapped := new CellList();
      Pages := {};
      new;
      Repr := {this, table, mapped};
    }

    method IsMapped(p: int) returns (b: bool)
      requires Valid() && IsPointer(p)
      ensures b <==> PageOf(p) in Pages
    {
      var n := p / APAGE_SIZE;
      var page := table.Lookup(n);
      assert page != null ==> CellOk(n);
      b := page != null && page.addr != 0;
    }

    method FindCell(n: int) returns (page: MPage)
      requires Valid() && 0 <= n < PAGES
      modifies Repr
      ensures Valid() && fresh(Repr - old(Repr))
      ensures Pages == old(Pages) && mapped.cells == old(mapped.cells)
      ensures Extends(old(table.cells), table.cells)
      ensures n in table.cells && page == table.cells[n]
    {
      ghost var added;
      page, added := table.Find(n);
      Repr := Repr + added;
      assert mapped.cells == old(mapped.cells);
      forall c | c in mapped.cells ensures ListedOk(c) {
        assert old(ListedOk(c));
      }
      forall m | m in table.cells ensures CellOk(m) {
        assert m in old(table.cells) ==> old(CellOk(m));
      }
    }

    method Insert(page: MPage, p: int)
      requires Valid() && p % APAGE_SIZE == 0 && p > 0 && p !in Pages
      requires p / APAGE_SIZE in table.cells && page == table.cells[p / APAGE_SIZE]
      modifies Repr
      ensures Valid() && Repr == old(Repr) && Pages == old(Pages) + {p}
    {
      assert CellOk(p / APAGE_SIZE);
      mapped.Put(page, p);
      Pages := Pages + {p};
      forall c | c in mapped.cells ensures ListedOk(c) {
        assert c != page ==> old(ListedOk(c));
      }
      forall m | m in table.cells ensures CellOk(m) {
        assert old(CellOk(m));
      }
    }

    method Delete(page: MPage, p: int)
      requires Valid() && p % APAGE_SIZE == 0 && p > 0 && p in Pages
      requires p / APAGE_SIZE in table.cells && page == table.cells[p / APAGE_SIZE]
      modifies Repr
      ensures Valid() && Repr == old(Repr) && Pages == old(Pages) - {p}
      ensures mapped.cells == Without(old(mapped.cells), page)
    {
      assert CellOk(p / APAGE_SIZE);
      mapped.Take(page, IndexOf(mapped.cells, page));
      Pages := Pages - {p};
      forall c | c in mapped.cells ensures ListedOk(c) {
        assert old(ListedOk(c));
      }
      forall m | m in table.cells ensures CellOk(m) {
        assert old(CellOk(m));
      }
    }

    /** `p` is put into the set or taken out of it. None of the aborts is reached. */
    method Modify(p: int, map_: bool)
      requires Valid() && IsPointer(p) && p % APAGE_SIZE == 0 && p > 0
      requires map_ <==> p !in Pages
      modifies Repr
      ensures Valid() && fresh(Repr - old(Repr))
      ensures Pages == if map_ then old(Pages) + {p} else old(Pages) - {p}
      ensures !map_ ==> p / APAGE_SIZE in old(table.cells)
      ensures !map_ ==> mapped.cells == Without(old(mapped.cells), old(table.cells)[p / APAGE_SIZE])
    {
      var page := FindCell(p / APAGE_SIZE);
      assert CellOk(p / APAGE_SIZE);
      if map_ {
        if page.addr != 0 { assert false; }
        if page == mapped.head { assert false; }
        Insert(page, p);
      } else {
        if page.addr == 0 { assert false; }
        Delete(page, p);
      }
    }

    /** Visits every mapped page once, and leaves none mapped. The callback, which only unmaps
        the page it is given, is left to the caller: it may be run on `visited` in order. */
    method ForEach() returns (visited: seq<int>)
      requires Valid() && forall p :: p in Pages ==> 0 < p < ADDRESS_LIMIT
      modifies Repr
      ensures Valid() && fresh(Repr - old(Repr)) && Pages == {}
      ensures Distinct(visited)
      ensures forall p :: p in visited <==> p in old(Pages)
    {
      visited := [];
      var p := mapped.head;
      forall q | q in Pages ensures mapped.cells != [] { assert CellOk(q / APAGE_SIZE); }
      while p != null
        invariant Valid() && fresh(Repr - old(Repr))
        invariant p == mapped.head && (Pages != {} ==> p != null)
        invariant Visiting(old(Pages), Pages, visited)
        decreases |Pages|
      {
        assert mapped.LinkOk(0) && ListedOk(p) && CellOk(p.addr / APAGE_SIZE);
        var next := p.next;
        visited := visited + [p.addr];
        Modify(p.addr, false);
        p := next;
        forall q | q in Pages ensures mapped.cells != [] { assert CellOk(q / APAGE_SIZE); }
      }
      assert mapped.head == null;
    }
  }
}
