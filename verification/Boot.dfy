/** From the BIOS memory map to a working page allocator. */
module Boot {
  import opened Blocks
  import opened Buddy
  import opened Chunk
  import opened FreeList
  import opened PhysMem
  import opened MemoryMap

  /** The allocator maps a region exactly when it is non-empty and starts in its range. */
  predicate Taken(r: Region) {
    InManagedRange(r.address, r.size)
  }

  /** What the page-rounded table promises, and no taken region passes the end of the bitmaps. */
  ghost predicate TableReady(table: seq<Region>) {
    && FilledSeparated(table)
    && forall r :: r in table ==> PageAligned(r) && (Taken(r) ==> r.End() <= 0x7000_0000)
  }

  ghost predicate InTable(table: seq<Region>, p: nat) {
    exists r :: r in table && Taken(r) && PageInside(r, p)
  }

  ghost function TablePages(table: seq<Region>): iset<nat> {
    iset p: nat | InTable(table, p)
  }

  function FirstPageOf(r: Region): nat {
    r.address / PAGE
  }

  function PageCount(r: Region): nat {
    r.size / PAGE
  }

  lemma RegionPages(r: Region, p: nat)
    requires PageAligned(r)
    ensures PageInside(r, p) <==> p in Range(FirstPageOf(r), FirstPageOf(r) + PageCount(r))
  {
  }

  lemma InTableCons(r: Region, rest: seq<Region>, p: nat)
    ensures InTable([r] + rest, p) <==> InTable(rest, p) || (Taken(r) && PageInside(r, p))
  {
    var t := [r] + rest;
    assert r in t && forall q :: q in t <==> q == r || q in rest;
  }

  lemma TablePagesCons(r: Region, rest: seq<Region>)
    requires PageAligned(r)
    ensures TablePages([r] + rest) ==
      if Taken(r) then TablePages(rest) + Range(FirstPageOf(r), FirstPageOf(r) + PageCount(r)) else TablePages(rest)
  {
    forall p: nat
      ensures InTable([r] + rest, p) <==> InTable(rest, p) || (Taken(r) && p in Range(FirstPageOf(r), FirstPageOf(r) + PageCount(r)))
    {
      InTableCons(r, rest, p);
      RegionPages(r, p);
    }
  }

  /** A region of the table does not touch the pages of the regions after it. */
  lemma HeadSeparate(table: seq<Region>, i: nat)
    requires TableReady(table) && i < |table| && Taken(table[i])
    ensures Mappable(TablePages(table[i + 1..]), table[i].address, table[i].size)
  {
    var r, rest := table[i], table[i + 1..];
    var a, e := FirstPageOf(r), FirstPageOf(r) + PageCount(r);
    assert r in table;
    forall p: nat | p in TablePages(rest)
      ensures p > e
    {
      var q :| q in rest && Taken(q) && PageInside(q, p);
      var j :| 0 <= j < |rest| && rest[j] == q;
      assert table[i + 1 + j] == q;
      assert r.End() < q.address;
    }
    SeparateByGap(TablePages(rest), a, e);
  }

  /** The mapping loop of Page_BuddyMaps_Initialize: last entry first. */
  method InitializeMaps(mem: Allocator, table: seq<Region>)
    requires mem.Shaped() && Wired(mem.lists[..], mem.next, mem.prev, mem.blocks) && mem.blocks == EMPTY.lists && TableReady(table)
    modifies mem, mem.lists, mem.maps
    ensures mem.Valid() && mem.free == TablePages(table)
  {
    mem.ClearMaps();
    mem.free := iset{};
    EmptyInv();
    assert mem.Contents() == EMPTY;
    assert TablePages([]) == iset{};
    if |table| == 0 {
      return;
    }
    for i := 0 to |table|
      invariant mem.Valid() && mem.free == TablePages(table[|table| - i..])
    {
      var r := table[|table| - 1 - i];
      assert r in table;
      assert table[|table| - 1 - i..] == [r] + table[|table| - i..];
      TablePagesCons(r, table[|table| - i..]);
      if Taken(r) {
        HeadSeparate(table, |table| - 1 - i);
      }
      mem.MapMemoryChunk(r.address, r.size);
    }
    assert table[0..] == table;
  }

  // ---------------------------------------------------------------- end to end

  /** The run of available pages around p starts at page a. */
  ghost predicate RunStart(t: seq<Entry>, a: nat, p: nat) {
    && a <= p
    && (forall q: nat :: a <= q <= p ==> PageAvailable(t, q))
    && (a > 0 ==> !PageAvailable(t, a - 1))
  }

  /** The pages the allocator starts with: those in runs of available pages that start between 1 MB
      and the end of the range the bitmaps cover. */
  ghost predicate InitiallyFree(t: seq<Entry>, p: nat) {
    exists a: nat :: LOWMEM_PAGES <= a < MANAGED_PAGES && RunStart(t, a, p)
  }

  /** No run of available pages crosses the end of the range the bitmaps cover. */
  ghost predicate NothingCrosses(t: seq<Entry>) {
    !(PageAvailable(t, MANAGED_PAGES - 1) && PageAvailable(t, MANAGED_PAGES))
  }

  ghost predicate Usable64(t: seq<Entry>) {
    WellFormed(t) && RunsChained(t) && BelowLastPage(t)
  }

  lemma PageOfTable(t: seq<Entry>, r: Region, p: nat)
    requires Usable64(t) && r in Table(t, true) && PageInside(r, p)
    ensures PageAvailable(t, p)
  {
    PageTableExactIff(t);
  }

  /** Neighbouring available pages share their region. */
  lemma NeighbourInside(t: seq<Entry>, r: Region, p: nat, q: nat)
    requires Usable64(t) && r in Table(t, true) && PageInside(r, p)
    requires (q == p + 1 || p == q + 1) && PageAvailable(t, q)
    ensures PageInside(r, q)
  {
    var table := Table(t, true);
    PageTableExactIff(t);
    var s :| s in table && PageInside(s, q);
    var i: nat :| i < |table| && table[i] == r;
    var j: nat :| j < |table| && table[j] == s;
    NeighboursTogether(table, i, j, p, q);
  }

  lemma NeighboursTogether(table: seq<Region>, i: nat, j: nat, p: nat, q: nat)
    requires FilledSeparated(table) && i < |table| && j < |table| && PageAligned(table[i]) && PageAligned(table[j])
    requires PageInside(table[i], p) && PageInside(table[j], q) && (q == p + 1 || p == q + 1)
    ensures i == j
  {
  }

  /** A region of the table that holds page p starts where the run around p starts ... */
  lemma RegionStartsRun(t: seq<Entry>, r: Region, p: nat)
    requires Usable64(t) && r in Table(t, true) && PageInside(r, p)
    ensures r.address == PAGE * FirstPageOf(r) && RunStart(t, FirstPageOf(r), p)
  {
    hide Table, PageAvailable, Usable64;
    TableAligned(t, r);
    var a := FirstPageOf(r);
    forall q: nat | a <= q <= p
      ensures PageAvailable(t, q)
    {
      PageOfTable(t, r, q);
    }
    if a > 0 {
      var b: nat := a - 1;
      if PageAvailable(t, b) {
        NeighbourInside(t, r, a, b);
      }
    }
  }

  lemma TableAligned(t: seq<Entry>, r: Region)
    requires Usable64(t) && r in Table(t, true)
    ensures PageAligned(r)
  {
    PageTableExactIff(t);
  }

  /** ... which is one place. */
  lemma RunStartUnique(t: seq<Entry>, a: nat, b: nat, p: nat)
    requires RunStart(t, a, p) && RunStart(t, b, p)
    ensures a == b
  {
    assert a < b ==> a <= b - 1 <= p;
    assert b < a ==> b <= a - 1 <= p;
  }

  /** The pages of the taken regions are the initially free pages. */
  lemma TakenPages(t: seq<Entry>, p: nat)
    requires Usable64(t)
    ensures InTable(Table(t, true), p) <==> InitiallyFree(t, p)
  {
    var table := Table(t, true);
    PageTableExactIff(t);
    if InTable(table, p) {
      var r :| r in table && Taken(r) && PageInside(r, p);
      assert PageAligned(r);
      RegionStartsRun(t, r, p);
      assert LOWMEM_PAGES <= FirstPageOf(r) < MANAGED_PAGES;
    }
    if InitiallyFree(t, p) {
      var a: nat :| LOWMEM_PAGES <= a < MANAGED_PAGES && RunStart(t, a, p);
      assert PageAvailable(t, p);
      var r :| r in table && PageInside(r, p);
      RegionStartsRun(t, r, p);
      RunStartUnique(t, a, FirstPageOf(r), p);
      assert Taken(r);
    }
  }

  lemma TableIsReady(t: seq<Entry>)
    requires Usable64(t) && NothingCrosses(t)
    ensures TableReady(Table(t, true))
  {
    var table := Table(t, true);
    PageTableExactIff(t);
    forall r | r in table && Taken(r)
      ensures r.End() <= 0x7000_0000
    {
      TakenEnds(t, r);
    }
  }

  lemma TakenEnds(t: seq<Entry>, r: Region)
    requires Usable64(t) && NothingCrosses(t) && r in Table(t, true) && Taken(r) && PageAligned(r)
    ensures r.End() <= 0x7000_0000
  {
    hide Table, PageAvailable, Usable64;
    if r.End() > 0x7000_0000 {
      PageOfTable(t, r, MANAGED_PAGES - 1);
      PageOfTable(t, r, MANAGED_PAGES);
    }
  }

  /** Boot, end to end: the memory map is merged, rounded and compacted, and every table entry is cut
      into blocks.  The allocator invariant holds, and its free pages are exactly the whole pages of
      runs of available memory that start at or above 1 MB within the range it covers. */
  method BootAllocator(t: seq<Entry>) returns (mem: Allocator)
    requires Usable64(t) && NothingCrosses(t)
    ensures mem.Valid()
    ensures forall p: nat :: p in mem.free <==> InitiallyFree(t, p)
  {
    var table := StoreInfo(t, true);
    TableIsReady(t);
    mem := new Allocator();
    InitializeMaps(mem, table);
    forall p: nat
      ensures p in mem.free <==> InitiallyFree(t, p)
    {
      TakenPages(t, p);
    }
  }
}
