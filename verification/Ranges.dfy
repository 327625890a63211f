/** The driver's list of payload extents, and the checks a new payload has to pass. */
module RangeLists {
  import opened Machine
  import opened PageMaps

  /** `hi` is the last byte of the payload. */
  datatype Range = Range(lo: int, hi: int)

  const ALIGNMENT := 16

  /** Every byte of `[lo, lo + size)` lies on a mapped page. */
  ghost predicate AllMapped(pages: set<int>, lo: int, size: int) {
    forall x {:trigger PageOf(x)} :: lo <= x < lo + size ==> PageOf(x) in pages
  }

  /** One end of the new payload lies in an old one. */
  predicate Overlaps(lo: int, hi: int, r: Range) {
    (r.lo <= lo <= r.hi) || (r.lo <= hi <= r.hi)
  }

  ghost predicate NoneOverlaps(ranges: seq<Range>, lo: int, hi: int) {
    forall r :: r in ranges ==> !Overlaps(lo, hi, r)
  }

  /** The test looks only at the ends of the new payload: it misses exactly the old payloads that
      the new one encloses. */
  lemma OverlapTestMisses(lo: int, hi: int, r: Range)
    requires lo <= hi && r.lo <= r.hi
    ensures Overlaps(lo, hi, r) <==> (lo <= r.hi && r.lo <= hi) && !(lo < r.lo && r.hi < hi)
    ensures !Overlaps(r.lo - 1, r.hi + 1, r)
  {
  }

  /** A byte between two that are at most a page apart lies on the page of one of them. */
  lemma NearestPage(lo: int, x: int, hi: int)
    requires lo <= x <= hi <= lo + APAGE_SIZE
    ensures PageOf(x) == PageOf(lo) || PageOf(x) == PageOf(hi)
  {
  }

  lemma StridedStep(pages: set<int>, lo: int, i: int, hi: int)
    requires i > 0 ==> forall x {:trigger PageOf(x)} :: lo <= x <= lo + i - APAGE_SIZE ==> PageOf(x) in pages
    requires i >= 0 && (i > 0 ==> lo + i - APAGE_SIZE >= lo) && lo <= hi <= lo + i && PageOf(hi) in pages
    requires i == 0 ==> hi == lo
    ensures forall x {:trigger PageOf(x)} :: lo <= x <= hi ==> PageOf(x) in pages
  {
    forall x | lo <= x <= hi ensures PageOf(x) in pages {
      if i > 0 && x > lo + i - APAGE_SIZE { NearestPage(lo + i - APAGE_SIZE, x, hi); }
    }
  }

  class RangeList {
    var ranges: seq<Range>        // from the head of the list

    constructor ()
      ensures ranges == []
    {
      ranges := [];
    }

    /** Looking at every 4096th byte and at the last one decides about all bytes. */
    method PayloadMapped(pm: PageMap, lo: int, size: int) returns (ok: bool)
      requires pm.Valid() && size > 0 && lo >= 0 && lo + size <= ADDRESS_LIMIT
      ensures ok <==> AllMapped(pm.Pages, lo, size)
    {
      var i := 0;
      while i < size
        invariant 0 <= i < size + APAGE_SIZE && (i > 0 ==> i >= APAGE_SIZE)
        invariant i > 0 ==> forall x {:trigger PageOf(x)} :: lo <= x <= lo + i - APAGE_SIZE ==> PageOf(x) in pm.Pages
      {
        var b := pm.IsMapped(lo + i);
        if !b { return false; }
        StridedStep(pm.Pages, lo, i, lo + i);
        i := i + APAGE_SIZE;
      }
      ok := pm.IsMapped(lo + size - 1);
      if ok { StridedStep(pm.Pages, lo, i, lo + size - 1); }
    }

    /** The checks for a new payload; if it passes, its extent is put at the front of the list. */
    method AddRange(pm: PageMap, lo: int, size: int) returns (ok: bool)
      requires pm.Valid() && size > 0 && lo >= 0 && lo + size <= ADDRESS_LIMIT
      modifies this
      ensures ok <==>
        (lo % 16 == 0 && AllMapped(pm.Pages, lo, size) && NoneOverlaps(old(ranges), lo, lo + size - 1))
      ensures ranges == if ok then [Range(lo, lo + size - 1)] + old(ranges) else old(ranges)
    {
      var hi := lo + size - 1;
      if lo % ALIGNMENT != 0 { return false; }
      ok := PayloadMapped(pm, lo, size);
      if !ok { return; }
      for p := 0 to |ranges|
        invariant NoneOverlaps(ranges[..p], lo, hi)
      {
        if (lo >= ranges[p].lo && lo <= ranges[p].hi) || (hi >= ranges[p].lo && hi <= ranges[p].hi) {
          var r := ranges[p];
          assert r in ranges && Overlaps(lo, hi, r);
          return false;
        }
      }
      assert ranges[..|ranges|] == ranges;
      ranges := [Range(lo, hi)] + ranges;
    }

    /** The first extent that starts at `lo` leaves the list. */
    method RemoveRange(lo: int)
      modifies this
      ensures ranges == WithoutFirst(old(ranges), lo)
    {
      var p := 0;
      while p < |ranges|
        invariant p <= |ranges| && ranges == old(ranges)
        invariant forall i :: 0 <= i < p ==> ranges[i].lo != lo
      {
        if ranges[p].lo == lo {
          WithoutFirstAt(ranges, p, lo);
          ranges := ranges[..p] + ranges[p + 1..];
          return;
        }
        p := p + 1;
      }
      WithoutFirstAt(ranges, p, lo);
    }

    method ClearRanges()
      modifies this
      ensures ranges == []
    {
      while ranges != []
        decreases |ranges|
      {
        ranges := ranges[1..];
      }
    }
  }

  function WithoutFirst(ranges: seq<Range>, lo: int): seq<Range> {
    if ranges == [] then [] else if ranges[0].lo == lo then ranges[1..] else [ranges[0]] + WithoutFirst(ranges[1..], lo)
  }

  lemma {:induction false} WithoutFirstAt(ranges: seq<Range>, p: nat, lo: int)
    requires p <= |ranges| && (p < |ranges| ==> ranges[p].lo == lo)
    requires forall i :: 0 <= i < p ==> ranges[i].lo != lo
    ensures WithoutFirst(ranges, lo) == if p < |ranges| then ranges[..p] + ranges[p + 1..] else ranges
  {
    if p > 0 {
      WithoutFirstAt(ranges[1..], p - 1, lo);
      assert ranges == [ranges[0]] + ranges[1..];
    }
  }

  /** Where no two extents start at the same place, only that extent goes. */
  lemma {:induction false} WithoutFirstMembers(ranges: seq<Range>, lo: int)
    requires forall i, j :: 0 <= i < j < |ranges| ==> ranges[i].lo != ranges[j].lo
    ensures var w := WithoutFirst(ranges, lo);
      && (forall r :: r in w <==> r in ranges && r.lo != lo)
      && (forall i, j :: 0 <= i < j < |w| ==> w[i].lo != w[j].lo)
  {
    if ranges != [] {
      var rest := ranges[1..];
      assert ranges == [ranges[0]] + rest;
      WithoutFirstMembers(rest, lo);
      forall r | r in rest ensures r.lo != ranges[0].lo {
        var k :| 0 <= k < |rest| && rest[k] == r;
        assert ranges[k + 1] == r;
      }
    }
  }
}
