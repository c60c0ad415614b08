/** The boot loader's table of available RAM, built from the BIOS memory map. */
module MemoryMap {

  datatype Entry = Entry(base: nat, size: nat, kind: nat, acpi3: nat)

  datatype Region = Region(address: nat, size: nat) {
    function End(): nat {
      address + size
    }
  }

  const ADDR_LIMIT: nat := 0xFFFF_FFFF_FFFF_FFFF
  const AVAILABLE: nat := 1
  const ACPI3_FLAG: nat := 1
  const PAGE: nat := 0x1000

  predicate Usable(e: Entry) {
    e.acpi3 == ACPI3_FLAG && e.kind == AVAILABLE
  }

  function EntryEnd(e: Entry): nat {
    e.base + e.size
  }

  /** The reader of the BIOS map stores no empty entry; 64-bit ends must not wrap. */
  ghost predicate WellFormed(t: seq<Entry>) {
    forall i :: 0 <= i < |t| && Usable(t[i]) ==> t[i].size > 0 && EntryEnd(t[i]) <= ADDR_LIMIT
  }

  /** Some usable entry holds byte x. */
  ghost predicate Available(t: seq<Entry>, x: nat) {
    exists i :: 0 <= i < |t| && Usable(t[i]) && t[i].base <= x < EntryEnd(t[i])
  }

  ghost predicate Listed(rs: seq<Region>, x: nat) {
    exists j :: 0 <= j < |rs| && rs[j].address <= x < rs[j].End()
  }

  ghost predicate Increasing(rs: seq<Region>) {
    forall i, j :: 0 <= i < j < |rs| ==> rs[i].End() <= rs[j].address
  }

  /** Not even touching. */
  ghost predicate Separated(rs: seq<Region>) {
    forall i, j :: 0 <= i < j < |rs| ==> rs[i].End() < rs[j].address
  }

  ghost predicate NonEmpty(rs: seq<Region>) {
    forall i :: 0 <= i < |rs| ==> rs[i].size > 0
  }

  /** An entry that is extended by another one comes before it.  Any table sorted by base and any
      table of entries that do not meet is of this kind. */
  ghost predicate ChainOrdered(t: seq<Entry>) {
    forall i, j :: 0 <= i < |t| && 0 <= j < |t| && Usable(t[i]) && Usable(t[j]) && t[i].base < t[j].base <= EntryEnd(t[i]) < EntryEnd(t[j]) ==> i < j
  }

  ghost predicate SortedByBase(t: seq<Entry>) {
    forall i, j :: 0 <= i < j < |t| && Usable(t[i]) && Usable(t[j]) ==> t[i].base <= t[j].base
  }

  lemma SortedIsChainOrdered(t: seq<Entry>)
    requires SortedByBase(t)
    ensures ChainOrdered(t)
  {
  }

  // ---------------------------------------------------------------- merging available entries

  ghost predicate StartsAt(t: seq<Entry>, n: nat, base: nat)
    requires n <= |t|
  {
    exists i :: 0 <= i < n && Usable(t[i]) && t[i].base == base
  }

  /** The lowest usable base at or above the cursor among the first n entries, or the limit. */
  function Closest(t: seq<Entry>, cursor: nat, n: nat): (c: nat)
    requires n <= |t|
    ensures c <= ADDR_LIMIT
    ensures forall i :: 0 <= i < n && Usable(t[i]) && cursor <= t[i].base < ADDR_LIMIT ==> c <= t[i].base
    ensures c < ADDR_LIMIT ==> c >= cursor && StartsAt(t, n, c)
  {
    if n == 0 then ADDR_LIMIT
    else
      var c := Closest(t, cursor, n - 1);
      if Usable(t[n - 1]) && t[n - 1].base >= cursor && t[n - 1].base < c then
        assert t[n - 1].base == t[n - 1].base;
        t[n - 1].base
      else c
  }

  /** The size of the region from start after one pass over the first n entries in index order. */
  function Extend(t: seq<Entry>, start: nat, n: nat): (size: nat)
    requires n <= |t|
  {
    if n == 0 then 0
    else
      var e, end := t[n - 1], start + Extend(t, start, n - 1);
      if Usable(e) && EntryEnd(e) >= end && e.base <= end then EntryEnd(e) - start else end - start
  }

  /** The regions found from the cursor on. */
  function Merge(t: seq<Entry>, cursor: nat): seq<Region>
    requires WellFormed(t)
    decreases |Pending(t, cursor)|
  {
    var c := Closest(t, cursor, |t|);
    if c == ADDR_LIMIT then []
    else
      var size := Extend(t, c, |t|);
      ExtendPositive(t, c, |t|);
      PendingFalls(t, cursor, c, c + size);
      [Region(c, size)] + Merge(t, c + size)
  }

  /** The usable entries that start at or after the cursor. */
  ghost function Pending(t: seq<Entry>, cursor: nat): set<nat> {
    set i: nat | i < |t| && Usable(t[i]) && t[i].base >= cursor
  }

  lemma PendingFalls(t: seq<Entry>, cursor: nat, start: nat, end: nat)
    requires cursor <= start < end && StartsAt(t, |t|, start)
    ensures |Pending(t, end)| < |Pending(t, cursor)|
  {
    var i: nat :| i < |t| && Usable(t[i]) && t[i].base == start;
    assert i in Pending(t, cursor) && i !in Pending(t, end);
    assert Pending(t, end) < Pending(t, cursor);
    SmallerSet(Pending(t, end), Pending(t, cursor));
  }

  lemma SmallerSet(a: set<nat>, b: set<nat>)
    requires a < b
    ensures |a| < |b|
  {
    assert b == a + (b - a);
    assert b - a != {};
    assert |b| == |a| + |b - a|;
  }

  lemma {:induction false} ExtendPositive(t: seq<Entry>, start: nat, n: nat)
    requires WellFormed(t) && n <= |t|
    ensures StartsAt(t, n, start) ==> Extend(t, start, n) > 0
    ensures Extend(t, start, n) > 0 ==> start + Extend(t, start, n) <= ADDR_LIMIT
  {
    if n > 0 {
      ExtendPositive(t, start, n - 1);
    }
  }

  /** A region holds only available bytes. */
  lemma {:induction false} ExtendSound(t: seq<Entry>, start: nat, n: nat, x: nat)
    requires n <= |t| && start <= x < start + Extend(t, start, n)
    ensures Available(t, x)
  {
    if x < start + Extend(t, start, n - 1) {
      ExtendSound(t, start, n - 1, x);
    } else {
      assert Usable(t[n - 1]) && t[n - 1].base <= x < EntryEnd(t[n - 1]);
    }
  }

  /** No usable entry among the first n that starts inside the region or at its end reaches past it. */
  ghost predicate Closed(t: seq<Entry>, n: nat, start: nat, end: nat)
    requires n <= |t|
  {
    forall j :: 0 <= j < n && Usable(t[j]) && start <= t[j].base <= end ==> EntryEnd(t[j]) <= end
  }

  lemma {:induction false} ExtendClosed(t: seq<Entry>, start: nat, n: nat)
    requires n <= |t| && ChainOrdered(t)
    ensures Closed(t, n, start, start + Extend(t, start, n))
  {
    if n > 0 {
      ExtendClosed(t, start, n - 1);
    }
  }

  /** The search loop for the next boundary. */
  method ClosestBoundary(t: seq<Entry>, cursor: nat) returns (closest: nat)
    ensures closest == Closest(t, cursor, |t|)
  {
    closest := ADDR_LIMIT;
    for i := 0 to |t|
      invariant closest == Closest(t, cursor, i)
    {
      if t[i].acpi3 != ACPI3_FLAG || t[i].kind != AVAILABLE {
        continue;
      }
      if t[i].base >= cursor && t[i].base < closest {
        closest := t[i].base;
      }
    }
  }

  /** The extension loop. */
  method ExtendRegion(t: seq<Entry>, start: nat) returns (size: nat)
    ensures size == Extend(t, start, |t|)
  {
    size := 0;
    for i := 0 to |t|
      invariant size == Extend(t, start, i)
    {
      if t[i].acpi3 != ACPI3_FLAG || t[i].kind != AVAILABLE {
        continue;
      }
      var entryEnd := t[i].base + t[i].size;
      var regionEnd := start + size;
      if entryEnd >= regionEnd && t[i].base <= regionEnd {
        size := entryEnd - start;
      }
    }
  }

  lemma MergeUnfold(t: seq<Entry>, cursor: nat)
    requires WellFormed(t)
    ensures var c := Closest(t, cursor, |t|);
      Merge(t, cursor) == if c == ADDR_LIMIT then [] else [Region(c, Extend(t, c, |t|))] + Merge(t, c + Extend(t, c, |t|))
  {
    hide WellFormed, StartsAt, Extend, Pending;
  }

  /** One turn of the merging loop. */
  lemma MergeStep(t: seq<Entry>, cursor: nat)
    requires WellFormed(t)
    ensures var c := Closest(t, cursor, |t|);
      if c == ADDR_LIMIT then Merge(t, cursor) == [] else
      var r := Region(c, Extend(t, c, |t|));
      && cursor <= c && r.size > 0 && r.End() <= ADDR_LIMIT && StartsAt(t, |t|, c)
      && Merge(t, cursor) == [r] + Merge(t, r.End())
      && |Pending(t, r.End())| < |Pending(t, cursor)|
  {
    hide Merge, WellFormed, Extend, Pending, StartsAt;
    var c := Closest(t, cursor, |t|);
    MergeUnfold(t, cursor);
    if c != ADDR_LIMIT {
      ExtendPositive(t, c, |t|);
      PendingFalls(t, cursor, c, c + Extend(t, c, |t|));
    }
  }

  /** The merging loop of Memory_StoreInfo. */
  method MergeAvailable(t: seq<Entry>) returns (rs: seq<Region>)
    requires WellFormed(t)
    ensures rs == Merge(t, 0)
  {
    hide Merge, Closest, Extend;
    rs := [];
    var cursor := 0;
    while true
      invariant rs + Merge(t, cursor) == Merge(t, 0)
      decreases |Pending(t, cursor)|
    {
      var closest := ClosestBoundary(t, cursor);
      MergeStep(t, cursor);
      if closest == ADDR_LIMIT {
        break;
      }
      var size := ExtendRegion(t, closest);
      assert rs + ([Region(closest, size)] + Merge(t, closest + size)) == rs + [Region(closest, size)] + Merge(t, closest + size);
      rs := rs + [Region(closest, size)];
      cursor := closest + size;
    }
  }

  /** Non-empty regions above the cursor, in increasing order, that hold only available bytes. */
  ghost predicate SoundFrom(t: seq<Entry>, rs: seq<Region>, cursor: nat) {
    && Increasing(rs) && NonEmpty(rs)
    && (forall j :: 0 <= j < |rs| ==> cursor <= rs[j].address && rs[j].End() <= ADDR_LIMIT)
    && (forall x: nat :: Listed(rs, x) ==> Available(t, x))
  }

  /** For any well-formed map, in whatever order: the regions are increasing, disjoint and hold only
      available bytes. */
  lemma {:induction false} MergeSound(t: seq<Entry>, cursor: nat)
    requires WellFormed(t)
    ensures SoundFrom(t, Merge(t, cursor), cursor)
    decreases |Pending(t, cursor)|
  {
    hide Merge, Extend, Closest;
    MergeStep(t, cursor);
    var c := Closest(t, cursor, |t|);
    if c != ADDR_LIMIT {
      var r := Region(c, Extend(t, c, |t|));
      MergeSound(t, r.End());
      forall x: nat | Listed(Merge(t, cursor), x)
        ensures Available(t, x)
      {
        ListedCons(r, Merge(t, r.End()), x);
        if c <= x < r.End() {
          ExtendSound(t, c, |t|, x);
        }
      }
    }
  }

  // ---------------------------------------------------------------- when the single pass is enough

  /** Some usable entry starts at a, and none that starts below a reaches it. */
  ghost predicate RunBase(t: seq<Entry>, a: nat) {
    StartsAt(t, |t|, a) && forall j :: 0 <= j < |t| && Usable(t[j]) && t[j].base < a ==> EntryEnd(t[j]) < a
  }

  /** Where a chain of entries from a ends. */
  ghost function ChainEnd(t: seq<Entry>, a: nat, chain: seq<nat>): nat {
    if chain == [] || chain[|chain| - 1] >= |t| then a else EntryEnd(t[chain[|chain| - 1]])
  }

  /** Usable entries in index order, each starting no later than where the one before it ends and
      ending no earlier. */
  ghost predicate IsChain(t: seq<Entry>, a: nat, chain: seq<nat>) {
    chain == [] ||
    var n := |chain| - 1;
    && IsChain(t, a, chain[..n])
    && chain[n] < |t| && Usable(t[chain[n]]) && (n > 0 ==> chain[n - 1] < chain[n])
    && t[chain[n]].base <= ChainEnd(t, a, chain[..n]) <= EntryEnd(t[chain[n]])
  }

  /** From the start of every run of available bytes some chain leads in index order to where no
      entry reaches further. */
  ghost predicate RunsChained(t: seq<Entry>) {
    forall a: nat :: RunBase(t, a) ==> exists chain: seq<nat> :: IsChain(t, a, chain) && Closed(t, |t|, a, ChainEnd(t, a, chain))
  }

  lemma {:induction false} ChainRises(t: seq<Entry>, a: nat, chain: seq<nat>)
    requires IsChain(t, a, chain)
    ensures a <= ChainEnd(t, a, chain)
    decreases |chain|
  {
    if chain != [] {
      ChainRises(t, a, chain[..|chain| - 1]);
    }
  }

  /** One pass over the first n entries gets at least as far as any chain of them. */
  lemma {:induction false} ChainWithin(t: seq<Entry>, a: nat, chain: seq<nat>, n: nat)
    requires IsChain(t, a, chain) && n <= |t| && (chain != [] ==> chain[|chain| - 1] < n)
    ensures ChainEnd(t, a, chain) <= a + Extend(t, a, n)
    decreases n
  {
    if chain != [] {
      if chain[|chain| - 1] < n - 1 {
        ChainWithin(t, a, chain, n - 1);
      } else {
        ChainWithin(t, a, chain[..|chain| - 1], n - 1);
      }
    }
  }

  lemma ChainSnoc(t: seq<Entry>, a: nat, chain: seq<nat>, m: nat)
    requires IsChain(t, a, chain) && m < |t| && (chain != [] ==> chain[|chain| - 1] < m)
    requires Usable(t[m]) && t[m].base <= ChainEnd(t, a, chain) <= EntryEnd(t[m])
    ensures IsChain(t, a, chain + [m]) && ChainEnd(t, a, chain + [m]) == EntryEnd(t[m])
  {
    var more := chain + [m];
    assert more[..|more| - 1] == chain;
  }

  lemma ExtendStep(t: seq<Entry>, a: nat, n: nat)
    requires 0 < n <= |t|
    ensures var e, end := t[n - 1], a + Extend(t, a, n - 1);
      a + Extend(t, a, n) == if Usable(e) && EntryEnd(e) >= end && e.base <= end then EntryEnd(e) else end
  {
  }

  /** The pass itself follows a chain. */
  lemma {:induction false} PassIsChain(t: seq<Entry>, a: nat, n: nat) returns (chain: seq<nat>)
    requires n <= |t|
    ensures IsChain(t, a, chain) && (chain != [] ==> chain[|chain| - 1] < n) && ChainEnd(t, a, chain) == a + Extend(t, a, n)
  {
    hide IsChain, ChainEnd, Extend;
    if n == 0 {
      EmptyPass(t, a);
      chain := [];
    } else {
      chain := PassIsChain(t, a, n - 1);
      ExtendStep(t, a, n);
      var e, end := t[n - 1], a + Extend(t, a, n - 1);
      if Usable(e) && EntryEnd(e) >= end && e.base <= end {
        ChainSnoc(t, a, chain, n - 1);
        chain := chain + [n - 1];
      }
    }
  }

  lemma EmptyPass(t: seq<Entry>, a: nat)
    ensures IsChain(t, a, []) && ChainEnd(t, a, []) == a + Extend(t, a, 0) == a
  {
  }

  /** From the start of a run the pass never gets past where no entry reaches further. */
  lemma {:induction false} PassWithin(t: seq<Entry>, a: nat, end: nat, n: nat)
    requires RunBase(t, a) && Closed(t, |t|, a, end) && a <= end && n <= |t|
    ensures a + Extend(t, a, n) <= end
    decreases n
  {
    if n > 0 {
      PassWithin(t, a, end, n - 1);
    }
  }

  /** On a chained run the pass gets exactly to its end. */
  lemma ChainedRunCloses(t: seq<Entry>, a: nat)
    requires RunsChained(t) && RunBase(t, a)
    ensures Closed(t, |t|, a, a + Extend(t, a, |t|))
  {
    var chain: seq<nat> :| IsChain(t, a, chain) && Closed(t, |t|, a, ChainEnd(t, a, chain));
    ChainRises(t, a, chain);
    ChainWithin(t, a, chain, |t|);
    PassWithin(t, a, ChainEnd(t, a, chain), |t|);
  }

  lemma ChainOrderedIsChained(t: seq<Entry>)
    requires ChainOrdered(t)
    ensures RunsChained(t)
  {
    forall a: nat | RunBase(t, a)
      ensures exists chain: seq<nat> :: IsChain(t, a, chain) && Closed(t, |t|, a, ChainEnd(t, a, chain))
    {
      var chain := PassIsChain(t, a, |t|);
      ExtendClosed(t, a, |t|);
    }
  }

  /** Nothing that starts up to the cursor reaches past it or starts at it. */
  ghost predicate Settled(t: seq<Entry>, cursor: nat) {
    cursor == 0 || forall j :: 0 <= j < |t| && Usable(t[j]) && t[j].base <= cursor ==> t[j].base < cursor && EntryEnd(t[j]) <= cursor
  }

  lemma NextIsRunBase(t: seq<Entry>, cursor: nat)
    requires WellFormed(t) && Settled(t, cursor) && Closest(t, cursor, |t|) != ADDR_LIMIT
    ensures RunBase(t, Closest(t, cursor, |t|))
  {
  }

  lemma RegionSettles(t: seq<Entry>, cursor: nat, c: nat, end: nat)
    requires WellFormed(t) && Settled(t, cursor) && c == Closest(t, cursor, |t|) < end && Closed(t, |t|, c, end)
    ensures Settled(t, end)
  {
  }

  /** On a chained map every usable byte of entries that start at or above the cursor is listed, in
      regions that do not touch. */
  lemma {:induction false} MergeComplete(t: seq<Entry>, cursor: nat)
    requires WellFormed(t) && RunsChained(t) && Settled(t, cursor)
    ensures Separated(Merge(t, cursor))
    ensures forall i, x: nat :: 0 <= i < |t| && Usable(t[i]) && cursor <= t[i].base <= x < EntryEnd(t[i]) ==> Listed(Merge(t, cursor), x)
    decreases |Pending(t, cursor)|
  {
    hide Merge, Extend, RunsChained, Closest, Closed, RunBase, Settled;
    MergeStep(t, cursor);
    var c := Closest(t, cursor, |t|);
    ClosestIsLeast(t, cursor);
    if c != ADDR_LIMIT {
      var r := Region(c, Extend(t, c, |t|));
      var rest := Merge(t, r.End());
      NextIsRunBase(t, cursor);
      ChainedRunCloses(t, c);
      RegionSettles(t, cursor, c, r.End());
      MergeComplete(t, r.End());
      NextApart(t, c, r.End());
      forall i, x: nat | 0 <= i < |t| && Usable(t[i]) && cursor <= t[i].base <= x < EntryEnd(t[i])
        ensures Listed(Merge(t, cursor), x)
      {
        ListedCons(r, rest, x);
        ClosedCovers(t, c, r.End(), i, x);
      }
    }
  }

  lemma ClosestIsLeast(t: seq<Entry>, cursor: nat)
    requires WellFormed(t)
    ensures forall i :: 0 <= i < |t| && Usable(t[i]) && cursor <= t[i].base ==> Closest(t, cursor, |t|) <= t[i].base < ADDR_LIMIT
  {
  }

  lemma ClosedCovers(t: seq<Entry>, start: nat, end: nat, i: nat, x: nat)
    requires Closed(t, |t|, start, end) && i < |t| && Usable(t[i]) && start <= t[i].base <= x < EntryEnd(t[i])
    ensures x < end || end <= t[i].base
  {
  }

  /** After a closed region the next one starts strictly later. */
  lemma NextApart(t: seq<Entry>, start: nat, end: nat)
    requires WellFormed(t) && Closed(t, |t|, start, end) && start <= end
    ensures forall j :: 0 <= j < |Merge(t, end)| ==> end < Merge(t, end)[j].address
  {
    MergeSound(t, end);
    var rs := Merge(t, end);
    if rs != [] {
      assert StartsAt(t, |t|, rs[0].address);
      assert forall j :: 0 < j < |rs| ==> rs[0].End() <= rs[j].address;
    }
  }

  lemma ListedCons(r: Region, rs: seq<Region>, x: nat)
    ensures Listed([r] + rs, x) <==> r.address <= x < r.End() || Listed(rs, x)
  {
    var s := [r] + rs;
    assert s[0] == r;
    if Listed(rs, x) {
      var j :| 0 <= j < |rs| && rs[j].address <= x < rs[j].End();
      assert s[j + 1] == rs[j];
    }
  }

  /** The table of merged regions is the list of maximal runs of available bytes. */
  ghost predicate ExactlyMerged(t: seq<Entry>)
    requires WellFormed(t)
  {
    Separated(Merge(t, 0)) && forall x: nat :: Listed(Merge(t, 0), x) <==> Available(t, x)
  }

  /** The regions are the maximal runs of available bytes, if and only if every run is chained. */
  lemma MergeExactIffChained(t: seq<Entry>)
    requires WellFormed(t)
    ensures ExactlyMerged(t) <==> RunsChained(t)
  {
    if RunsChained(t) {
      MergeSound(t, 0);
      MergeComplete(t, 0);
    }
    if ExactlyMerged(t) {
      forall a: nat | RunBase(t, a)
        ensures exists chain: seq<nat> :: IsChain(t, a, chain) && Closed(t, |t|, a, ChainEnd(t, a, chain))
      {
        var chain := PassIsChain(t, a, |t|);
        ExactRunCloses(t, a);
      }
    }
  }

  lemma NotCovered(t: seq<Entry>, k: nat, x: nat)
    requires k < |t| && Usable(t[k]) && t[k].base <= x && !Available(t, x)
    ensures EntryEnd(t[k]) <= x
  {
  }

  /** In an exact table the pass from the start of a run goes as far as any entry reaches. */
  lemma ExactRunCloses(t: seq<Entry>, a: nat)
    requires WellFormed(t) && RunBase(t, a) && ExactlyMerged(t)
    ensures Closed(t, |t|, a, a + Extend(t, a, |t|))
  {
    hide Merge, Extend;
    var j := RegionAt(t, a);
    MergeMember(t, 0, j);
    MergeSound(t, 0);
    EndNotListed(Merge(t, 0), j);
    forall k | 0 <= k < |t| && Usable(t[k]) && a <= t[k].base <= a + Extend(t, a, |t|)
      ensures EntryEnd(t[k]) <= a + Extend(t, a, |t|)
    {
      NotCovered(t, k, a + Extend(t, a, |t|));
    }
  }

  lemma EndNotListed(rs: seq<Region>, j: nat)
    requires Separated(rs) && j < |rs| && rs[j].size > 0
    ensures !Listed(rs, rs[j].End())
  {
    forall k | 0 <= k < |rs|
      ensures !(rs[k].address <= rs[j].End() < rs[k].End())
    {
      assert k < j ==> rs[k].End() < rs[j].address;
      assert j < k ==> rs[j].End() < rs[k].address;
    }
  }

  /** In an exact table a run starts a region. */
  lemma RegionAt(t: seq<Entry>, a: nat) returns (j: nat)
    requires WellFormed(t) && RunBase(t, a) && ExactlyMerged(t)
    ensures j < |Merge(t, 0)| && Merge(t, 0)[j].address == a
  {
    hide Merge;
    var rs := Merge(t, 0);
    assert Available(t, a);
    j :| 0 <= j < |rs| && rs[j].address <= a < rs[j].End();
    if a > 0 {
      NothingBefore(t, a);
      FirstListed(rs, j, a);
    }
  }

  lemma FirstListed(rs: seq<Region>, j: nat, a: nat)
    requires j < |rs| && rs[j].address <= a < rs[j].End() && a > 0 && !Listed(rs, a - 1)
    ensures rs[j].address == a
  {
  }

  lemma NothingBefore(t: seq<Entry>, a: nat)
    requires RunBase(t, a) && a > 0
    ensures !Available(t, a - 1)
  {
  }

  /** Every region starts at a usable base and extends as far as one pass from there. */
  lemma {:induction false} MergeMember(t: seq<Entry>, cursor: nat, j: nat)
    requires WellFormed(t) && j < |Merge(t, cursor)|
    ensures var r := Merge(t, cursor)[j]; r.size == Extend(t, r.address, |t|) && StartsAt(t, |t|, r.address)
    decreases |Pending(t, cursor)|
  {
    hide Merge, Extend;
    MergeStep(t, cursor);
    var c := Closest(t, cursor, |t|);
    if j > 0 {
      MergeMember(t, c + Extend(t, c, |t|), j - 1);
    }
  }

  /** The single pass loses bytes when an entry precedes one that it extends: here the first entry
      starts inside the second, whose region is closed off before it can be joined. */
  const UNORDERED: seq<Entry> := [Entry(0x1800, 0x1800, AVAILABLE, ACPI3_FLAG), Entry(0x1000, 0x1000, AVAILABLE, ACPI3_FLAG)]

  lemma UnorderedMapLosesBytes()
    ensures WellFormed(UNORDERED) && !ChainOrdered(UNORDERED)
    ensures Merge(UNORDERED, 0) == [Region(0x1000, 0x1000)]
    ensures Available(UNORDERED, 0x2000) && !Listed(Merge(UNORDERED, 0), 0x2000)
  {
    assert Usable(UNORDERED[0]) && Usable(UNORDERED[1]);
    assert Closest(UNORDERED, 0, 2) == 0x1000 by {
      assert Closest(UNORDERED, 0, 1) == 0x1800;
    }
    assert Extend(UNORDERED, 0x1000, 2) == 0x1000 by {
      assert Extend(UNORDERED, 0x1000, 1) == 0;
    }
    assert Closest(UNORDERED, 0x2000, 2) == ADDR_LIMIT by {
      assert Closest(UNORDERED, 0x2000, 1) == ADDR_LIMIT;
    }
    assert Merge(UNORDERED, 0x2000) == [];
  }

  // ---------------------------------------------------------------- page rounding and compaction

  /** One region shrunk to page boundaries, in 64-bit arithmetic; nothing left becomes (0, 0). */
  function RoundPage(r: Region): Region {
    var low := r.address - r.address % PAGE;
    var min := if low < r.address then (low + PAGE) % (ADDR_LIMIT + 1) else low;
    var max := r.End() - r.End() % PAGE;
    if max > min then Region(min, max - min) else Region(0, 0)
  }

  /** Page p lies wholly inside the region. */
  predicate PageInside(r: Region, p: nat) {
    r.address <= PAGE * p && PAGE * p + PAGE <= r.End()
  }

  predicate PageAligned(r: Region) {
    r.address % PAGE == 0 && r.size % PAGE == 0
  }

  function PageUp(x: nat): nat {
    if x % PAGE == 0 then x else x - x % PAGE + PAGE
  }

  function PageDown(x: nat): nat {
    x - x % PAGE
  }

  lemma PageBounds(x: nat, p: nat)
    ensures x <= PAGE * p <==> PageUp(x) <= PAGE * p
    ensures PAGE * p <= x <==> PAGE * p <= PageDown(x)
    ensures PageUp(x) % PAGE == 0 && PageDown(x) % PAGE == 0
  {
  }

  lemma RoundPageNoWrap(r: Region)
    requires r.address <= ADDR_LIMIT + 1 - PAGE
    ensures RoundPage(r) == var min, max := PageUp(r.address), PageDown(r.End()); if max > min then Region(min, max - min) else Region(0, 0)
  {
    var low := PageDown(r.address);
    if low < r.address {
      NoWrap(low, r.address);
    }
  }

  lemma NoWrap(low: nat, x: nat)
    requires low < x <= ADDR_LIMIT + 1 - PAGE && low % PAGE == 0
    ensures (low + PAGE) % (ADDR_LIMIT + 1) == low + PAGE
  {
  }

  lemma RoundedPage(r: Region, p: nat)
    requires r.address <= ADDR_LIMIT + 1 - PAGE
    ensures PageInside(RoundPage(r), p) <==> PageInside(r, p)
  {
    hide RoundPage, PageUp, PageDown;
    RoundPageNoWrap(r);
    PageBounds(r.address, p);
    PageBounds(r.End(), p + 1);
  }

  lemma RoundingWraps(r: Region)
    requires r.size > 0 && r.End() <= ADDR_LIMIT && r.address > ADDR_LIMIT + 1 - PAGE
    ensures RoundPage(r) == Region(0, ADDR_LIMIT + 1 - PAGE)
  {
    assert r.address / PAGE == r.End() / PAGE == ADDR_LIMIT / PAGE;
  }

  lemma RoundAligned(r: Region)
    ensures PageAligned(RoundPage(r))
  {
    var low := r.address - r.address % PAGE;
    WrapAligned(low + PAGE);
    DownAligned(r.address);
    DownAligned(r.End());
    DifferenceAligned(r.End() - r.End() % PAGE, low);
    DifferenceAligned(r.End() - r.End() % PAGE, (low + PAGE) % (ADDR_LIMIT + 1));
  }

  lemma DownAligned(x: nat)
    ensures (x - x % PAGE) % PAGE == 0 && (x - x % PAGE + PAGE) % PAGE == 0
  {
  }

  lemma WrapAligned(x: nat)
    ensures x % PAGE == 0 ==> x % (ADDR_LIMIT + 1) % PAGE == 0
  {
  }

  lemma DifferenceAligned(x: nat, y: nat)
    ensures x % PAGE == 0 && y % PAGE == 0 ==> (x - y) % PAGE == 0
  {
  }

  /** A region rounds to exactly its whole pages if and only if it starts no higher than the last page
      of the address space, where rounding the start up would wrap. */
  lemma RoundExactIff(r: Region)
    requires r.size > 0 && r.End() <= 0xFFFF_FFFF_FFFF_FFFF
    ensures (forall p: nat :: PageInside(RoundPage(r), p) <==> PageInside(r, p)) <==> r.address <= 0xFFFF_FFFF_FFFF_F000
    ensures PageAligned(RoundPage(r))
  {
    hide RoundPage;
    RoundAligned(r);
    if r.address > ADDR_LIMIT + 1 - PAGE {
      RoundingWraps(r);
      assert PageInside(RoundPage(r), 0) && !PageInside(r, 0);
    } else {
      forall p: nat
        ensures PageInside(RoundPage(r), p) <==> PageInside(r, p)
      {
        RoundedPage(r, p);
      }
    }
  }

  lemma RoundBounds(r: Region)
    requires r.address <= ADDR_LIMIT + 1 - PAGE && RoundPage(r).size > 0
    ensures r.address <= RoundPage(r).address && RoundPage(r).End() <= r.End()
  {
    hide RoundPage;
    RoundPageNoWrap(r);
  }

  function RoundAll(rs: seq<Region>): (r: seq<Region>)
    ensures |r| == |rs| && forall i :: 0 <= i < |rs| ==> r[i] == RoundPage(rs[i])
  {
    seq(|rs|, i requires 0 <= i < |rs| => RoundPage(rs[i]))
  }

  /** The rounding loop of Memory_StoreInfo, in place. */
  method RoundTable(rs: seq<Region>) returns (table: seq<Region>)
    ensures table == RoundAll(rs)
  {
    table := rs;
    for i := 0 to |table|
      invariant |table| == |rs|
      invariant forall j :: 0 <= j < i ==> table[j] == RoundPage(rs[j])
      invariant forall j :: i <= j < |rs| ==> table[j] == rs[j]
    {
      var min := table[i].address - table[i].address % PAGE;
      var max := table[i].address + table[i].size - (table[i].address + table[i].size) % PAGE;
      if min < table[i].address {
        min := (min + PAGE) % (ADDR_LIMIT + 1);
      }
      table := table[i := Region(if max > min then min else 0, if max > min then max - min else 0)];
    }
  }

  /** What the compaction loop leaves: after a removal the element that slides down is not examined. */
  function Compact(rs: seq<Region>): seq<Region> {
    if rs == [] then []
    else if rs[0].size != 0 then [rs[0]] + Compact(rs[1..])
    else if |rs| == 1 then []
    else [rs[1]] + Compact(rs[2..])
  }

  function Filled(rs: seq<Region>): seq<Region> {
    if rs == [] then [] else if rs[0].size != 0 then [rs[0]] + Filled(rs[1..]) else Filled(rs[1..])
  }

  /** The compaction loop of Memory_StoreInfo, in place. */
  method CompactTable(rs: seq<Region>) returns (table: seq<Region>)
    ensures table == Compact(rs)
  {
    hide Compact;
    table := rs;
    var i := 0;
    ghost var done, rest := [], rs;
    while i < |table|
      invariant i == |done| || (i == |done| + 1 && rest == [])
      invariant table == done + rest && done + Compact(rest) == Compact(rs)
      decreases |rest|
    {
      CompactHead(rest);
      AtHead(done, rest);
      if table[i].size == 0 {
        table := table[..i] + table[i + 1..];
        if |rest| == 1 {
          rest := [];
        } else {
          AppendOne(done, rest[1], rest[2..]);
          AppendOne(done, rest[1], Compact(rest[2..]));
          done, rest := done + [rest[1]], rest[2..];
        }
      } else {
        AppendOne(done, rest[0], rest[1..]);
        AppendOne(done, rest[0], Compact(rest[1..]));
        done, rest := done + [rest[0]], rest[1..];
      }
      i := i + 1;
    }
    CompactNothing();
  }

  lemma AppendOne(done: seq<Region>, r: Region, rest: seq<Region>)
    ensures done + [r] + rest == done + ([r] + rest)
  {
  }

  /** The element between two parts, and what is left when it is removed. */
  lemma AtHead(done: seq<Region>, rest: seq<Region>)
    requires rest != []
    ensures var t := done + rest;
      t[|done|] == rest[0] && t == done + ([rest[0]] + rest[1..]) && t[..|done|] + t[|done| + 1..] == done + rest[1..]
    ensures |rest| > 1 ==> rest[1..] == [rest[1]] + rest[2..]
  {
  }

  lemma CompactNothing()
    ensures Compact([]) == []
  {
  }

  lemma CompactHead(rs: seq<Region>)
    requires rs != []
    ensures Compact(rs) ==
      if rs[0].size != 0 then [rs[0]] + Compact(rs[1..]) else if |rs| == 1 then [] else [rs[1]] + Compact(rs[2..])
    ensures |rs| == 1 ==> Compact([]) == []
  {
  }

  /** Compaction keeps the non-empty regions, all of them and in order. */
  lemma {:induction false} CompactKeepsFilled(rs: seq<Region>)
    ensures Filled(Compact(rs)) == Filled(rs)
  {
    if rs == [] {
    } else if rs[0].size != 0 {
      CompactKeepsFilled(rs[1..]);
    } else if |rs| > 1 {
      CompactKeepsFilled(rs[2..]);
      assert rs[1..][1..] == rs[2..];
    }
  }

  ghost predicate NoTwoEmpty(rs: seq<Region>) {
    forall i :: 0 <= i < |rs| - 1 ==> rs[i].size != 0 || rs[i + 1].size != 0
  }

  /** Compaction removes every empty region if and only if no two of them are adjacent. */
  lemma {:induction false} CompactCleanIff(rs: seq<Region>)
    ensures NonEmpty(Compact(rs)) <==> NoTwoEmpty(rs)
  {
    if rs == [] {
    } else if rs[0].size != 0 {
      CompactCleanIff(rs[1..]);
      NonEmptyCons(rs[0], Compact(rs[1..]));
      assert NoTwoEmpty(rs[1..]) ==> NoTwoEmpty(rs) by {
        assert forall i :: 1 <= i < |rs| ==> rs[i] == rs[1..][i - 1];
      }
      assert NoTwoEmpty(rs) ==> NoTwoEmpty(rs[1..]) by {
        assert forall i :: 0 <= i < |rs| - 1 ==> rs[1..][i] == rs[i + 1];
      }
    } else if |rs| > 1 {
      CompactCleanIff(rs[2..]);
      NonEmptyCons(rs[1], Compact(rs[2..]));
      assert rs[1].size != 0 && NoTwoEmpty(rs[2..]) ==> NoTwoEmpty(rs) by {
        assert forall i :: 2 <= i < |rs| ==> rs[i] == rs[2..][i - 2];
      }
      assert NoTwoEmpty(rs) ==> NoTwoEmpty(rs[2..]) by {
        assert forall i :: 0 <= i < |rs| - 2 ==> rs[2..][i] == rs[i + 2];
      }
    }
  }

  lemma NonEmptyCons(r: Region, rs: seq<Region>)
    ensures NonEmpty([r] + rs) <==> r.size > 0 && NonEmpty(rs)
  {
    var s := [r] + rs;
    assert s[0] == r && forall i :: 0 <= i < |rs| ==> s[i + 1] == rs[i];
  }

  /** The non-empty regions are in order and do not touch. */
  ghost predicate FilledSeparated(rs: seq<Region>) {
    forall i, j :: 0 <= i < j < |rs| && rs[i].size > 0 && rs[j].size > 0 ==> rs[i].End() < rs[j].address
  }

  lemma {:induction false} CompactMembers(rs: seq<Region>, r: Region)
    ensures r in Compact(rs) ==> r in rs
    ensures r.size > 0 && r in rs ==> r in Compact(rs)
  {
    if rs != [] {
      assert rs == [rs[0]] + rs[1..];
      if rs[0].size != 0 {
        CompactMembers(rs[1..], r);
      } else if |rs| > 1 {
        assert rs == [rs[0], rs[1]] + rs[2..];
        CompactMembers(rs[2..], r);
      }
    }
  }

  lemma {:induction false} CompactSeparated(rs: seq<Region>)
    requires FilledSeparated(rs)
    ensures FilledSeparated(Compact(rs))
  {
    if rs == [] {
    } else if rs[0].size != 0 {
      CompactSeparated(rs[1..]);
      SeparatedCons(rs, 0, Compact(rs[1..]));
    } else if |rs| > 1 {
      CompactSeparated(rs[2..]);
      SeparatedCons(rs, 1, Compact(rs[2..]));
    }
  }

  lemma SeparatedCons(rs: seq<Region>, k: nat, tail: seq<Region>)
    requires k < |rs| && FilledSeparated(rs) && FilledSeparated(tail) && tail == Compact(rs[k + 1..])
    ensures FilledSeparated([rs[k]] + tail)
  {
    forall j | 0 <= j < |tail| && rs[k].size > 0 && tail[j].size > 0
      ensures rs[k].End() < tail[j].address
    {
      CompactMembers(rs[k + 1..], tail[j]);
      var n :| 0 <= n < |rs[k + 1..]| && rs[k + 1..][n] == tail[j];
      assert rs[k + 1 + n] == tail[j];
    }
  }

  lemma {:induction false} CompactNonEmpty(rs: seq<Region>)
    requires NonEmpty(rs)
    ensures Compact(rs) == rs
  {
    if rs != [] {
      CompactNonEmpty(rs[1..]);
    }
  }

  // ---------------------------------------------------------------- the whole table

  function Table(t: seq<Entry>, pageAlign: bool): seq<Region>
    requires WellFormed(t)
  {
    Compact(if pageAlign then RoundAll(Merge(t, 0)) else Merge(t, 0))
  }

  /** Memory_StoreInfo */
  method StoreInfo(t: seq<Entry>, pageAlign: bool) returns (table: seq<Region>)
    requires WellFormed(t)
    ensures table == Table(t, pageAlign)
  {
    table := MergeAvailable(t);
    if pageAlign {
      table := RoundTable(table);
    }
    table := CompactTable(table);
  }

  ghost predicate PageAvailable(t: seq<Entry>, p: nat) {
    forall x: nat :: PAGE * p <= x < PAGE * p + PAGE ==> Available(t, x)
  }

  /** Without page rounding the table is the list of maximal runs of available bytes. */
  lemma PlainTableExact(t: seq<Entry>)
    requires WellFormed(t)
    ensures Increasing(Table(t, false)) && NonEmpty(Table(t, false))
    ensures forall x: nat :: Listed(Table(t, false), x) ==> Available(t, x)
    ensures RunsChained(t) <==> Separated(Table(t, false)) && forall x: nat :: Listed(Table(t, false), x) <==> Available(t, x)
  {
    MergeSound(t, 0);
    CompactNonEmpty(Merge(t, 0));
    MergeExactIffChained(t);
  }

  /** Of a single entry exactly the memory of type 1 that is flagged as valid enters the table. */
  lemma OneEntryTable(e: Entry)
    requires e.size > 0 && e.base + e.size <= 0xFFFF_FFFF_FFFF_FFFF
    ensures Table([e], false) == if e.kind == 1 && e.acpi3 == 1 then [Region(e.base, e.size)] else []
  {
    var t := [e];
    assert Closest(t, 0, 0) == ADDR_LIMIT && Extend(t, e.base, 0) == 0;
    assert Closest(t, e.base + e.size, 0) == ADDR_LIMIT;
    if Usable(e) {
      assert Closest(t, 0, 1) == e.base && Extend(t, e.base, 1) == e.size;
      assert Closest(t, e.base + e.size, 1) == ADDR_LIMIT;
      assert Merge(t, e.base + e.size) == [];
      assert Merge(t, 0) == [Region(e.base, e.size)];
      assert [Region(e.base, e.size)][1..] == [] && Compact([]) == [];
    } else {
      assert Merge(t, 0) == [];
    }
  }

  /** A page all of whose bytes are listed lies in one region, since regions do not touch. */
  lemma PageInOneRegion(rs: seq<Region>, p: nat) returns (j: nat)
    requires Separated(rs) && forall x: nat :: PAGE * p <= x < PAGE * p + PAGE ==> Listed(rs, x)
    ensures j < |rs| && PageInside(rs[j], p)
  {
    var a := PAGE * p;
    assert Listed(rs, a);
    j :| 0 <= j < |rs| && rs[j].address <= a < rs[j].End();
    EndNotListed(rs, j);
  }

  /** No run of available bytes starts in the last page of the 64-bit address space. */
  ghost predicate BelowLastPage(t: seq<Entry>) {
    forall a: nat :: RunBase(t, a) ==> a <= ADDR_LIMIT + 1 - PAGE
  }

  /** The non-empty regions of the page-rounded table are in order and never touch, and the table holds
      exactly the pages all of whose bytes are available. */
  ghost predicate PageTableRight(t: seq<Entry>)
    requires WellFormed(t)
  {
    && FilledSeparated(Table(t, true))
    && forall p: nat :: (exists r :: r in Table(t, true) && PageInside(r, p)) <==> PageAvailable(t, p)
  }

  lemma PageTableAligned(t: seq<Entry>)
    requires WellFormed(t)
    ensures forall r :: r in Table(t, true) ==> PageAligned(r)
  {
    var rounded := RoundAll(Merge(t, 0));
    forall r | r in Compact(rounded)
      ensures PageAligned(r)
    {
      CompactMembers(rounded, r);
      var j :| 0 <= j < |rounded| && rounded[j] == r;
      RoundAligned(Merge(t, 0)[j]);
    }
  }

  /** On a chained map the page-rounded table is right if and only if no run starts in the last page. */
  lemma PageTableExactIff(t: seq<Entry>)
    requires WellFormed(t) && RunsChained(t)
    ensures PageTableRight(t) <==> BelowLastPage(t)
    ensures forall r :: r in Table(t, true) ==> PageAligned(r)
  {
    hide RunsChained, Merge, RunBase, Compact, RoundAll, PageAligned, PageTableRight;
    PageTableAligned(t);
    MergeExactIffChained(t);
    if BelowLastPage(t) {
      LowRunsRight(t);
    } else {
      var a: nat :| RunBase(t, a) && a > ADDR_LIMIT + 1 - PAGE;
      HighRunWrong(t, a);
    }
  }

  /** In an exact table every region starts a run. */
  lemma RegionIsRunBase(t: seq<Entry>, j: nat)
    requires WellFormed(t) && ExactlyMerged(t) && j < |Merge(t, 0)|
    ensures RunBase(t, Merge(t, 0)[j].address)
  {
    hide Merge;
    var rs := Merge(t, 0);
    var a := rs[j].address;
    MergeMember(t, 0, j);
    MergeSound(t, 0);
    forall k | 0 <= k < |t| && Usable(t[k]) && t[k].base < a
      ensures EntryEnd(t[k]) < a
    {
      JustBefore(rs, j);
      NotCovered(t, k, a - 1);
    }
  }

  /** Regions that do not touch leave the byte before each of them out. */
  lemma JustBefore(rs: seq<Region>, j: nat)
    requires Separated(rs) && j < |rs| && rs[j].size > 0 && rs[j].address > 0
    ensures !Listed(rs, rs[j].address - 1)
  {
    forall k | 0 <= k < |rs|
      ensures !(rs[k].address <= rs[j].address - 1 < rs[k].End())
    {
      assert k < j ==> rs[k].End() < rs[j].address;
      assert j < k ==> rs[j].End() < rs[k].address;
    }
  }

  lemma LowRunsRight(t: seq<Entry>)
    requires WellFormed(t) && ExactlyMerged(t) && BelowLastPage(t)
    ensures PageTableRight(t)
  {
    hide Merge, RunBase, Compact, PageInside, RoundPage;
    var rs := Merge(t, 0);
    var rounded := RoundAll(rs);
    MergeSound(t, 0);
    forall j: nat | j < |rs|
      ensures rs[j].address <= ADDR_LIMIT + 1 - PAGE
    {
      RegionIsRunBase(t, j);
    }
    forall i, j | 0 <= i < j < |rounded| && rounded[i].size > 0 && rounded[j].size > 0
      ensures rounded[i].End() < rounded[j].address
    {
      RoundBounds(rs[i]);
      RoundBounds(rs[j]);
    }
    CompactSeparated(rounded);
    forall p: nat
      ensures (exists r :: r in Table(t, true) && PageInside(r, p)) <==> PageAvailable(t, p)
    {
      PageTablePage(t, rs, rounded, p);
    }
  }

  /** Two non-empty regions stay in order. */
  lemma {:induction false} CompactPair(rs: seq<Region>, i: nat, j: nat) returns (m: nat, n: nat)
    requires i < j < |rs| && rs[i].size > 0 && rs[j].size > 0
    ensures m < n < |Compact(rs)| && Compact(rs)[m] == rs[i] && Compact(rs)[n] == rs[j]
    decreases |rs|
  {
    var c := Compact(rs);
    if rs[0].size != 0 {
      if i == 0 {
        n := CompactOne(rs[1..], j - 1);
        m, n := 0, n + 1;
      } else {
        m, n := CompactPair(rs[1..], i - 1, j - 1);
        m, n := m + 1, n + 1;
      }
    } else if i == 1 {
      n := CompactOne(rs[2..], j - 2);
      m, n := 0, n + 1;
    } else {
      m, n := CompactPair(rs[2..], i - 2, j - 2);
      m, n := m + 1, n + 1;
    }
  }

  lemma {:induction false} CompactOne(rs: seq<Region>, j: nat) returns (n: nat)
    requires j < |rs| && rs[j].size > 0
    ensures n < |Compact(rs)| && Compact(rs)[n] == rs[j]
    decreases |rs|
  {
    if rs[0].size != 0 {
      if j == 0 {
        n := 0;
      } else {
        n := CompactOne(rs[1..], j - 1);
        n := n + 1;
      }
    } else if j == 1 {
      n := 0;
    } else {
      n := CompactOne(rs[2..], j - 2);
      n := n + 1;
    }
  }

  /** A run that starts in the last page comes out as all pages below it, next to a region that holds
      page 0, or claiming it wrongly. */
  lemma HighRunWrong(t: seq<Entry>, a: nat)
    requires WellFormed(t) && ExactlyMerged(t) && RunBase(t, a) && a > ADDR_LIMIT + 1 - PAGE
    ensures !PageTableRight(t)
  {
    hide Merge, RunBase, Compact, RoundPage;
    var rs := Merge(t, 0);
    var rounded := RoundAll(rs);
    MergeSound(t, 0);
    var j := RegionAt(t, a);
    RoundingWraps(rs[j]);
    var n := CompactOne(rounded, j);
    assert Compact(rounded)[n] in Table(t, true) && PageInside(Compact(rounded)[n], 0);
    if PageAvailable(t, 0) {
      var i := PageInOneRegion(rs, 0);
      assert i < j;
      RoundedPage(rs[i], 0);
      var p, q := CompactPair(rounded, i, j);
    }
  }

  lemma PageTablePage(t: seq<Entry>, rs: seq<Region>, rounded: seq<Region>, p: nat)
    requires Separated(rs) && NonEmpty(rs) && rounded == RoundAll(rs)
    requires forall x: nat :: Listed(rs, x) <==> Available(t, x)
    requires forall j :: 0 <= j < |rs| ==> rs[j].address <= ADDR_LIMIT + 1 - PAGE && rs[j].End() <= ADDR_LIMIT
    ensures (exists r :: r in Compact(rounded) && PageInside(r, p)) <==> PageAvailable(t, p)
  {
    if PageAvailable(t, p) {
      var j := PageInOneRegion(rs, p);
      RoundExactIff(rs[j]);
      assert rounded[j] in rounded && PageInside(rounded[j], p);
      CompactMembers(rounded, rounded[j]);
    }
    if r :| r in Compact(rounded) && PageInside(r, p) {
      CompactMembers(rounded, r);
      var j :| 0 <= j < |rounded| && rounded[j] == r;
      RoundExactIff(rs[j]);
      assert PageInside(rs[j], p);
      forall x: nat | PAGE * p <= x < PAGE * p + PAGE
        ensures Available(t, x)
      {
        assert Listed(rs, x);
      }
    }
  }
}
