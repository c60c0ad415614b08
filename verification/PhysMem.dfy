/** The physical page allocator as it runs: list heads and pair bitmaps in arrays, list links in the
    words of the listed pages themselves. */
module PhysMem {
  import opened Blocks
  import opened Options
  import opened Buddy
  import opened BuddyMacro
  import opened Bitmap
  import opened FreeList
  import opened RawRelease
  import opened Chunk
  import opened Arith

  /** Page_maps_size: one bit per pair of blocks below the 1.75 GB limit. */
  function MapSize(k: nat): nat {
    FloorDiv(0x7000_0000, Size(k + 4))
  }

  /** PAGE_MAP_IDX and PAGE_MAP_BIT together: byte and bit positions of the pair. */
  lemma MapPosition(addr: nat, k: nat)
    ensures addr / Size(k + 4) == BlockAt(addr, k) / 2 / 8
    ensures addr / Size(k + 1) % 8 == BlockAt(addr, k) / 2 % 8
  {
    AddressIndex(addr, k);
    AddressIndex(addr, k + 4);
    var b := BlockAt(addr, k);
    assert BlockAt(addr, k + 1) == b / 2;
    assert BlockAt(addr, k + 2) == b / 2 / 2;
    assert BlockAt(addr, k + 3) == b / 2 / 2 / 2;
    assert BlockAt(addr, k + 4) == b / 2 / 2 / 2 / 2;
  }

  /** The bitmap of each order covers every managed address. */
  lemma MapCovers(addr: nat, k: nat)
    requires addr < 0x7000_0000 && k <= MAX_ORDER
    ensures addr / Size(k + 4) < MapSize(k)
  {
    var d := Size(k + 4);
    PowTable(k + 4);
    assert 0x7000_0000 % d == 0;
    LessDiv(addr, 0x7000_0000, d);
  }

  lemma LessDiv(x: nat, y: nat, d: nat)
    requires d >= 1 && x < y && y % d == 0
    ensures x / d < y / d
  {
    assert x == x / d * d + x % d && y == y / d * d;
    if y / d <= x / d {
      Monotone(y / d, x / d, d);
    }
  }

  lemma PowTable(k: nat)
    requires k <= 14
    ensures Pow2(k) == [1, 2, 4, 8, 16, 32, 64, 128, 256, 512, 1024, 2048, 4096, 8192, 16384][k]
  {
    if k > 0 {
      PowTable(k - 1);
    }
  }

  ghost function AllBits(maps: seq<seq<bv8>>): seq<set<nat>> {
    seq(|maps|, k requires 0 <= k < |maps| => Bits(maps[k]))
  }

  lemma HalfAddresses(j: nat, b: nat)
    ensures Address(j + 1, b) == Address(j, 2 * b) && Address(j, 2 * b + 1) == Address(j, 2 * b) + Size(j)
  {
    NextMultiple(2 * b, Size(j));
  }

  lemma AllBitsUpdate(maps: seq<seq<bv8>>, k: nat, m: seq<bv8>)
    requires k < |maps|
    ensures AllBits(maps[k := m]) == AllBits(maps)[k := Bits(m)]
  {
  }

  lemma ReleasedIs(w: Words, addr: nat, k: nat, m: nat, rounded: bool)
    requires m < |w.heads|
    ensures Released(w, addr, k, m, rounded) == PushAt(RawRelease.UnlinkUp(w, addr, k, m, rounded), m, addr / Size(m) * Size(m) + OFFSET)
  {
  }

  /** Empty lists are passed over. */
  lemma {:induction false} AcquireSkips(s: State, k: nat, i: nat)
    requires Shape(s) && k <= i <= MAX_ORDER && forall l :: k <= l < i ==> s.lists[l] == []
    ensures Buddy.Acquire(s, k).0.None? <==> Buddy.Acquire(s, i).0.None?
    ensures Buddy.Acquire(s, i).0.None? ==> Buddy.Acquire(s, k).1 == s
    decreases i - k
  {
    if k < i {
      AcquireSkips(s, k + 1, i);
    }
  }

  /** One level of Buddy.Acquire. */
  lemma AcquireStep(s: State, k: nat)
    requires Shape(s) && k <= MAX_ORDER
    ensures s.lists[k] != [] ==>
      var h := s.lists[k][0];
      Buddy.Acquire(s, k) == (Some(h), State(s.lists[k := s.lists[k][1..]], s.bits[k := Toggle(s.bits[k], h / 2)]))
    ensures s.lists[k] == [] && k < MAX_ORDER && Buddy.Acquire(s, k + 1).0.Some? ==>
      var (b, t) := Buddy.Acquire(s, k + 1);
      Buddy.Acquire(s, k) == (Some(2 * b.value), State(t.lists[k := [2 * b.value + 1]], t.bits[k := Toggle(t.bits[k], b.value)]))
  {
  }

  lemma AcquiredState(s: State, free: iset<nat>, k: nat)
    requires Inv(s, free) && Managed(free) && k <= MAX_ORDER && Buddy.Acquire(s, k).0.Some?
    ensures var (b, t) := Buddy.Acquire(s, k);
      Distinct(t.lists) && Whole(free, k, b.value) && Ptr(k, b.value) < NULL && Inv(t, free - Pages(k, b.value))
  {
    var (b, t) := Buddy.Acquire(s, k);
    AcquireExact(s, free, k);
    InvDistinct(t, free - Pages(k, b.value));
    PtrInRange(free, k, b.value);
  }

  /** Every stage of a split has distinct list pointers. */
  ghost predicate SplitsDistinct(s: State, k: nat, i: nat)
    requires Shape(s)
  {
    forall j: nat :: k <= j <= i <= MAX_ORDER ==> Distinct(Buddy.Acquire(s, j).1.lists)
  }

  lemma SplitStages(s: State, free: iset<nat>, k: nat, i: nat)
    requires Inv(s, free) && Managed(free) && k <= i <= MAX_ORDER && s.lists[i] != []
    ensures SplitsDistinct(s, k, i)
    ensures Address(i, s.lists[i][0]) < 0x7000_0000
  {
    forall j: nat | k <= j <= i
      ensures Distinct(Buddy.Acquire(s, j).1.lists)
    {
      AcquireExact(s, free, j);
      if Buddy.Acquire(s, j).0.Some? {
        AcquiredState(s, free, j);
      } else {
        InvDistinct(s, free);
      }
    }
    assert s.lists[i][0] in s.lists[i];
    PtrInRange(free, i, s.lists[i][0]);
  }

  /** Page_MapMemoryChunk ignores everything else. */
  predicate InManagedRange(base: nat, size: nat) {
    size > 0 && 0x10_0000 <= base < 0x7000_0000
  }

  /** Whole pages within the range the bitmaps cover, separate from the pages already free. */
  ghost predicate Mappable(free: iset<nat>, base: nat, size: nat) {
    && base % PAGE_SIZE == 0 && size % PAGE_SIZE == 0 && base + size <= 0x7000_0000
    && Separate(free, Range(base / PAGE_SIZE, base / PAGE_SIZE + size / PAGE_SIZE))
  }

  lemma SizeFits(k: nat, n: nat)
    ensures Size(k) <= PAGE_SIZE * n <==> Pow2(k) <= n
  {
  }

  function LowSize(base: nat, m: nat): int {
    Padding(base, Size(m))
  }

  function TopBase(end: nat, m: nat): int {
    Floor(end, Size(m))
  }

  /** The cut points in bytes are the cut points in pages. */
  lemma CutBytes(b: nat, e: nat, m: nat)
    ensures PAGE_SIZE * b + LowSize(PAGE_SIZE * b, m) == Address(m, FirstBlock(b, m)) == PAGE_SIZE * (FirstBlock(b, m) * Pow2(m))
    ensures TopBase(PAGE_SIZE * e, m) == Address(m, LastBlock(e, m)) == PAGE_SIZE * (LastBlock(e, m) * Pow2(m))
  {
    hide Pow2, CeilDiv, Padding, Floor;
    ScaledCuts(b, Pow2(m), PAGE_SIZE);
    ScaledCuts(e, Pow2(m), PAGE_SIZE);
    PageOfAddress(m, FirstBlock(b, m));
    PageOfAddress(m, LastBlock(e, m));
  }

  lemma BlocksBetween(m: nat, lo: nat, hi: nat)
    requires lo <= hi
    ensures (Address(m, hi) - Address(m, lo)) / Size(m) == hi - lo
  {
    Spread(lo, hi, Size(m));
    MultipleDiv(hi - lo, Size(m));
  }

  /** A part of a chunk, in bytes and in pages, is either mappable or empty. */
  ghost predicate PartReady(f: iset<nat>, base: nat, size: nat, p: nat, q: nat) {
    && (InManagedRange(base, size) <==> p < q)
    && (if p < q then Mappable(f, base, size) else f + Range(p, q) == f)
  }

  lemma PartIsReady(f: iset<nat>, b: nat, e: nat, p: nat, q: nat)
    requires LOWMEM_PAGES <= b <= p <= q <= e <= MANAGED_PAGES && Separate(f, Range(p, q))
    ensures PartReady(f, PAGE_SIZE * p, PAGE_SIZE * (q - p), p, q)
  {
    assert p == q ==> f + Range(p, q) == f;
  }

  /** One step of the central loop, on addresses ... */
  lemma CentralAddress(m: nat, lo: nat, x: nat)
    requires lo <= x
    ensures Address(m, lo) + (x - lo) * Size(m) == Address(m, x)
    ensures BlockAt(Address(m, x), m) == x
  {
    AddressBlock(m, x);
    Spread(lo, x, Size(m));
  }

  lemma CentralBounds(m: nat, lo: nat, x: nat, hi: nat)
    requires lo <= x < hi
    ensures lo * Pow2(m) <= x * Pow2(m) && (x + 1) * Pow2(m) <= hi * Pow2(m)
  {
    Monotone(lo, x, Pow2(m));
    Monotone(x + 1, hi, Pow2(m));
  }

  /** ... and on the allocator. */
  lemma CentralBlock(s: State, f: iset<nat>, a: nat, e: nat, m: nat, x: nat)
    requires m <= MAX_ORDER && LOWMEM_PAGES <= a <= x * Pow2(m) && (x + 1) * Pow2(m) <= e <= MANAGED_PAGES
    requires Separate(f, Range(a, e)) && (m < MAX_ORDER ==> e - a < Pow2(m + 1)) && Managed(f)
    requires Inv(s, f + Range((x + 1) * Pow2(m), e))
    ensures Address(m, x) < 0x7000_0000
    ensures Distinct(s.lists) && Distinct(PushBlock(s, m, x).lists)
    ensures Managed(f + Range(x * Pow2(m), e)) && Inv(PushBlock(s, m, x), f + Range(x * Pow2(m), e))
  {
    NextMultiple(x, Pow2(m));
    PushBlockExact(s, f, a, e, m, x);
    ManagedPart(f, x * Pow2(m), e);
    ManagedPart(f, (x + 1) * Pow2(m), e);
    PushedDistinct(s, f + Range((x + 1) * Pow2(m), e), f + Range(x * Pow2(m), e), m, x);
  }

  /** Everything Page_MapMemoryChunk computes about a chunk, in pages. */
  lemma Cuts(f: iset<nat>, b: nat, n: nat, m: nat) returns (lo: nat, hi: nat, c: nat, p: nat)
    requires LOWMEM_PAGES <= b && b + n <= MANAGED_PAGES && n >= 1 && Separate(f, Range(b, b + n)) && m == MaxOrder(n) && Managed(f)
    ensures lo == FirstBlock(b, m) && hi == LastBlock(b + n, m) && CutsAt(n, m, lo, hi, c, p)
    ensures b <= c <= p <= b + n && lo <= hi && c - b < n && b + n - p < n
    ensures PAGE_SIZE * b + LowSize(PAGE_SIZE * b, m) == Address(m, lo) == PAGE_SIZE * c
    ensures TopBase(PAGE_SIZE * (b + n), m) == Address(m, hi) == PAGE_SIZE * p
    ensures (PAGE_SIZE * p - PAGE_SIZE * c) / Size(m) == hi - lo
    ensures PartReady(f, PAGE_SIZE * p, PAGE_SIZE * (b + n - p), p, b + n)
    ensures PartReady(f + Range(c, b + n), PAGE_SIZE * b, PAGE_SIZE * (c - b), b, c)
    ensures Managed(f + Range(c, b + n))
  {
    hide Pow2, Size, LowSize, TopBase, FirstBlock, LastBlock, Index, Whole, Separate, OrderUpTo, MaxOrder;
    lo, hi := FirstBlock(b, m), LastBlock(b + n, m);
    c, p := lo * Pow2(m), hi * Pow2(m);
    CutPoints(b, n);
    CutBytes(b, b + n, m);
    BlocksBetween(m, lo, hi);
    SeparateSubset(f, Range(b, b + n), Range(p, b + n));
    PartIsReady(f, b, b + n, p, b + n);
    SeparateCut(f, b, m, lo, b + n);
    PartIsReady(f + Range(c, b + n), b, b + n, b, c);
  }

  lemma ManagedPart(f: iset<nat>, p: nat, e: nat)
    requires Managed(f) && LOWMEM_PAGES <= p && e <= MANAGED_PAGES
    ensures Managed(f + Range(p, e))
  {
  }

  lemma PushedDistinct(s: State, f: iset<nat>, f': iset<nat>, m: nat, x: nat)
    requires m <= MAX_ORDER && Inv(s, f) && Inv(PushBlock(s, m, x), f') && Managed(f) && Managed(f')
    ensures Distinct(s.lists) && Distinct(PushBlock(s, m, x).lists) && Address(m, x) < 0x7000_0000
  {
    InvDistinct(s, f);
    InvDistinct(PushBlock(s, m, x), f');
    assert x in PushBlock(s, m, x).lists[m];
    PtrInRange(f', m, x);
  }

  /** The first loop of Page_MapMemoryChunk: the largest order whose blocks fit in size bytes. */
  method LargestOrder(size: nat, ghost n: nat) returns (m: nat)
    requires size == PAGE_SIZE * n && n >= 1
    ensures m == MaxOrder(n)
  {
    m := 0;
    for i := 0 to MAX_ORDER + 1
      invariant m <= MAX_ORDER && (i > 0 ==> m == OrderUpTo(n, i - 1)) && (i == 0 ==> m == 0)
    {
      SizeFits(i, n);
      if Size(i) <= size {
        m := i;
      }
    }
  }

  /** The size and address computations of Page_MapMemoryChunk, with the cut points in pages. */
  method LayOut(base: nat, size: nat, ghost b: nat, ghost n: nat, ghost f: iset<nat>, ghost s: State)
    returns (m: nat, topBase: nat, topSize: nat, centralBase: nat, count: nat, lowSize: nat, ghost lo: nat, ghost c: nat, ghost p: nat)
    requires InManagedRange(base, size) && Mappable(f, base, size) && Managed(f) && Shape(s)
    requires base == PAGE_SIZE * b && size == PAGE_SIZE * n
    ensures m <= MAX_ORDER && CutsAt(n, m, lo, lo + count, c, p)
    ensures b <= c <= p <= b + n && c - b < n && b + n - p < n
    ensures centralBase == Address(m, lo)
    ensures topBase == PAGE_SIZE * p && topSize == PAGE_SIZE * (b + n - p) && lowSize == PAGE_SIZE * (c - b)
    ensures PartReady(f, topBase, topSize, p, b + n)
    ensures PartReady(f + Range(c, b + n), base, lowSize, b, c)
    ensures MapChunk(s, b, n) == MapChunk(PushBlocks(MapChunk(s, p, b + n - p), m, lo, lo + count), b, c - b)
  {
    hide Pow2, Size, Address, LowSize, TopBase, FirstBlock, LastBlock, Index, Whole, Separate, OrderUpTo, MaxOrder, Floor, Padding, MapChunk, PushBlocks, PartReady, Range;
    m := LargestOrder(size, n);
    ghost var hi;
    lo, hi, c, p := Cuts(f, b, n, m);
    MapChunkStep(s, b, n, lo, hi, c, p);
    lowSize := LowSize(base, m);
    topBase := TopBase(base + size, m);
    topSize := base + size - topBase;
    centralBase := base + lowSize;
    count := (topBase - centralBase) / Size(m);
  }

  class Allocator {
    const lists: array<int>
    const maps: array<seq<bv8>>
    var next: map<int, int>
    var prev: map<int, int>
    ghost var blocks: seq<seq<nat>>
    ghost var free: iset<nat>

    /** The statically initialised globals: every list empty. */
    constructor ()
      ensures Shaped() && Wired(lists[..], next, prev, blocks) && blocks == EMPTY.lists
      ensures fresh(lists) && fresh(maps)
    {
      lists := new int[MAX_ORDER + 1](_ => NULL);
      maps := new seq<bv8>[MAX_ORDER + 1](k requires 0 <= k => seq(MapSize(k), _ => 0));
      next, prev := map[], map[];
      blocks, free := EMPTY.lists, iset{};
      new;
      assert forall k: nat :: k <= MAX_ORDER ==> lists[..][k] == NULL && blocks[k] == [];
    }

    ghost predicate Shaped()
      reads this, lists, maps
    {
      && lists.Length == MAX_ORDER + 1
      && maps.Length == MAX_ORDER + 1
      && |blocks| == MAX_ORDER + 1
      && forall k: nat :: k <= MAX_ORDER ==> |maps[k]| == MapSize(k)
    }

    ghost function Contents(): State
      reads this, maps
    {
      State(blocks, AllBits(maps[..]))
    }

    ghost predicate Valid()
      reads this, lists, maps
    {
      && Shaped()
      && Wired(lists[..], next, prev, blocks)
      && Inv(Contents(), free)
      && Managed(free)
    }

    /** PAGE_MAP_TOGGLEBIT */
    method ToggleMapBit(addr: nat, k: nat)
      requires Shaped() && k <= MAX_ORDER && addr < 0x7000_0000
      modifies maps
      ensures Shaped()
      ensures AllBits(maps[..]) == old(AllBits(maps[..]))[k := Toggle(old(AllBits(maps[..]))[k], BlockAt(addr, k) / 2)]
    {
      var idx, bit := addr / Size(k + 4), addr / Size(k + 1) % 8;
      MapPosition(addr, k);
      MapCovers(addr, k);
      ToggleBitIsToggle(maps[k], BlockAt(addr, k) / 2);
      AllBitsUpdate(maps[..], k, ToggleBit(maps[k], BlockAt(addr, k) / 2));
      ghost var was := maps[..];
      maps[k] := maps[k][idx := maps[k][idx] ^ Mask(bit)];
      assert maps[..] == was[k := ToggleBit(was[k], BlockAt(addr, k) / 2)];
    }

    /** PAGE_MAP_SETBIT */
    method SetMapBit(addr: nat, k: nat)
      requires Shaped() && k <= MAX_ORDER && addr < 0x7000_0000
      modifies maps
      ensures Shaped()
      ensures AllBits(maps[..]) == old(AllBits(maps[..]))[k := old(AllBits(maps[..]))[k] + {BlockAt(addr, k) / 2}]
    {
      var idx, bit := addr / Size(k + 4), addr / Size(k + 1) % 8;
      MapPosition(addr, k);
      MapCovers(addr, k);
      SetBitIsInsert(maps[k], BlockAt(addr, k) / 2);
      AllBitsUpdate(maps[..], k, SetBit(maps[k], BlockAt(addr, k) / 2));
      ghost var was := maps[..];
      maps[k] := maps[k][idx := maps[k][idx] | Mask(bit)];
      assert maps[..] == was[k := SetBit(was[k], BlockAt(addr, k) / 2)];
    }

    /** PAGE_MAP_ISBITSET */
    method IsMapBitSet(addr: nat, k: nat) returns (on: bool)
      requires Shaped() && k <= MAX_ORDER && addr < 0x7000_0000
      ensures on <==> BlockAt(addr, k) / 2 in AllBits(maps[..])[k]
    {
      var idx, bit := addr / Size(k + 4), addr / Size(k + 1) % 8;
      MapPosition(addr, k);
      MapCovers(addr, k);
      on := maps[k][idx] & Mask(bit) > 0;
    }

    /** The words of memory. */
    ghost function Memory(): Words
      reads this, lists
    {
      Words(lists[..], next, prev)
    }

    /** One round of the second loop of Page_Release: unlinks whatever starts at the pointer given. */
    method Unlink(k: nat, buddy: int)
      requires Shaped() && k <= MAX_ORDER
      modifies this`next, this`prev, lists
      ensures Shaped() && Memory() == UnlinkAt(old(Memory()), k, buddy)
    {
      var after, before := Read(next, buddy), Read(prev, buddy);
      if before != NULL {
        next := next[before := after];
      }
      if after != NULL {
        prev := prev[after := before];
      }
      if before == NULL {
        lists[k] := after;
      }
      next, prev := next[buddy := 0], prev[buddy := 0];
      assert lists[..] == UnlinkAt(old(Memory()), k, buddy).heads;
    }

    /** Links a block in front of its list, as the end of Page_Release and Page_MapMemoryChunk do. */
    method LinkFirst(k: nat, block: int)
      requires Shaped() && k <= MAX_ORDER
      modifies this`next, this`prev, lists
      ensures Shaped() && Memory() == PushAt(old(Memory()), k, block)
    {
      prev, next := prev[block := NULL], next[block := lists[k]];
      if lists[k] != NULL {
        prev := prev[lists[k] := block];
      }
      lists[k] := block;
      assert lists[..] == PushAt(old(Memory()), k, block).heads;
    }

    /** Takes the first block off its list. */
    method Pop(k: nat)
      requires Shaped() && k <= MAX_ORDER && Wired(lists[..], next, prev, blocks) && Distinct(blocks)
      requires blocks[k] != []
      modifies this`prev, this`blocks, lists
      ensures Shaped() && Wired(lists[..], next, prev, blocks)
      ensures blocks == old(blocks)[k := old(blocks)[k][1..]]
    {
      ghost var list, heads, prev0 := blocks[k], lists[..], prev;
      assert Linked(heads[k], next, prev, k, list);
      assert lists[k] == PtrAt(k, list, 0);
      lists[k] := next[lists[k]];
      if lists[k] != NULL {
        prev := prev[lists[k] := NULL];
      }
      EntriesDistinct(blocks, k);
      assert lists[k] == PtrAt(k, list, 1);
      UnlinkKeepsWired(heads, next, prev0, lists[..], next, prev, blocks, k, 0);
      blocks := blocks[k := list[1..]];
    }

    /** Makes a block the only entry of a list, overwriting the head. */
    method ListAlone(k: nat, block: int, ghost i: nat)
      requires Shaped() && k <= MAX_ORDER && Wired(lists[..], next, prev, blocks) && blocks[k] == []
      requires Distinct(blocks) && Distinct(blocks[k := [i]]) && block == Ptr(k, i)
      modifies this`next, this`prev, this`blocks, lists
      ensures Shaped() && Wired(lists[..], next, prev, blocks)
      ensures blocks == old(blocks)[k := [i]]
    {
      ghost var next0, prev0, heads := next, prev, lists[..];
      assert Linked(heads[k], next, prev, k, blocks[k]);
      lists[k] := block;
      next := next[lists[k] := NULL];
      prev := prev[lists[k] := NULL];
      assert [i] + blocks[k] == [i];
      PushKeepsWired(heads, next0, prev0, next, prev, blocks, k, i);
      blocks := blocks[k := [i]];
    }

    /** The clearing loops of Page_BuddyMaps_Initialize. */
    method ClearMaps()
      requires Shaped()
      modifies maps
      ensures Shaped() && AllBits(maps[..]) == EMPTY.bits
    {
      for i := 0 to MAX_ORDER + 1
        invariant Shaped()
        invariant forall k: nat, n: nat :: k < i && n < |maps[k]| ==> maps[k][n] == 0
      {
        for j := 0 to |maps[i]|
          invariant Shaped() && |maps[i]| == MapSize(i)
          invariant forall n: nat :: n < j ==> maps[i][n] == 0
          invariant forall k: nat, n: nat :: k < i && n < |maps[k]| ==> maps[k][n] == 0
        {
          maps[i] := maps[i][j := 0];
        }
      }
      forall k: nat | k <= MAX_ORDER
        ensures Bits(maps[..][k]) == {}
      {
        ZeroBits(maps[k]);
      }
      assert AllBits(maps[..]) == EMPTY.bits;
    }

    /** The first loop of Page_Release: toggle bits upwards until one comes on. */
    method ToggleUp(addr: nat, k: nat) returns (i: nat)
      requires Shaped() && k <= MAX_ORDER && addr < 0x7000_0000
      modifies maps
      ensures Shaped()
      ensures i == MergeLevel(old(Contents()), k, BlockAt(addr, k)) && k <= i <= MAX_ORDER
      ensures AllBits(maps[..]) == Buddy.Release(old(Contents()), k, BlockAt(addr, k)).bits
    {
      ghost var s := Contents();
      i := k;
      ghost var t := s;
      while true
        invariant k <= i <= MAX_ORDER && Shaped() && Shape(t)
        invariant AllBits(maps[..]) == t.bits
        invariant Buddy.Release(t, i, BlockAt(addr, i)) == Buddy.Release(s, k, BlockAt(addr, k))
        invariant MergeLevel(t, i, BlockAt(addr, i)) == MergeLevel(s, k, BlockAt(addr, k))
        decreases MAX_ORDER - i
      {
        ToggleMapBit(addr, i);
        var on := IsMapBitSet(addr, i);
        if i == MAX_ORDER || on {
          break;
        }
        MergeLevelUp(t, i, BlockAt(addr, i), Without(t.lists[i], Sibling(BlockAt(addr, i))));
        t := Merged(t, i, BlockAt(addr, i));
        i := i + 1;
      }
    }

    /** The second loop of Page_Release: a round at every order merged, at the buddy of the raw address
        as in the source, or of the merged block. */
    method UnlinkUp(addr: nat, k: nat, i: nat, rounded: bool)
      requires Shaped() && k <= i <= MAX_ORDER
      modifies this`next, this`prev, lists
      ensures Shaped() && Memory() == RawRelease.UnlinkUp(old(Memory()), addr, k, i, rounded)
    {
      hide UnlinkAt, BuddyUsed;
      var j := k;
      while j < i
        invariant k <= j <= i && Shaped()
        invariant RawRelease.UnlinkUp(Memory(), addr, j, i, rounded) == RawRelease.UnlinkUp(old(Memory()), addr, k, i, rounded)
      {
        Unlink(j, BuddyUsed(addr, j, rounded) + OFFSET);
        j := j + 1;
      }
    }

    /** Page_Release.  The source takes the buddy of the raw address at every order (rounded is false);
        with rounded the buddy is that of the merged block, to which the source already rounds the
        address it finally lists.  Memory ends as specified in any case, and exact when the buddies
        are those of the merged blocks. */
    method Release(pointer: int, k: nat, rounded: bool)
      requires Valid() && k <= MAX_ORDER
      requires pointer != NULL ==> Releasable(free, pointer, k)
      modifies this, lists, maps
      ensures Shaped()
      ensures pointer == NULL ==> Valid() && Contents() == old(Contents()) && free == old(free)
      ensures pointer != NULL ==>
        var addr: nat := pointer - OFFSET;
        var i := BlockAt(addr, k);
        && AllBits(maps[..]) == Buddy.Release(old(Contents()), k, i).bits
        && Memory() == Released(old(Memory()), addr, k, MergeLevel(old(Contents()), k, i), rounded)
        && (rounded || RawSafe(old(Contents()), addr, k) ==>
              Valid() && Contents() == Buddy.Release(old(Contents()), k, i) && free == old(free) + Pages(k, i))
    {
      hide Released, Wired, Inv, Buddy.Release, MergeLevel, RawSafe;
      if pointer == NULL {
        return;
      }
      var addr: nat := pointer - OFFSET;
      ghost var s, w, g := Contents(), Memory(), Pages(k, BlockAt(addr, k));
      ManagedAddress(addr, k);
      var i := ToggleUp(addr, k);
      UnlinkUp(addr, k, i, rounded);
      LinkFirst(i, addr / Size(i) * Size(i) + OFFSET);
      ReleasedIs(w, addr, k, i, rounded);
      if rounded || RawSafe(s, addr, k) {
        SafeReleaseHolds(w, s, free, addr, k, rounded);
        ReleaseCoalesces(s, free, k, BlockAt(addr, k));
        blocks, free := Buddy.Release(s, k, BlockAt(addr, k)).lists, free + g;
      }
    }

    /** The search loop of Page_Acquire: the first order from k up with a non-empty list, if any. */
    method FirstListed(k: nat) returns (i: nat, found: bool)
      requires Shaped() && k <= MAX_ORDER && Wired(lists[..], next, prev, blocks) && Distinct(blocks)
      ensures k <= i <= MAX_ORDER && (found <==> blocks[i] != [])
      ensures forall l :: k <= l < i ==> blocks[l] == []
      ensures !found ==> i == MAX_ORDER
      ensures found ==> lists[i] == Ptr(i, blocks[i][0])
    {
      i := k;
      while true
        invariant k <= i <= MAX_ORDER
        invariant forall l :: k <= l < i ==> blocks[l] == []
        decreases MAX_ORDER - i
      {
        assert Linked(lists[i], next, prev, i, blocks[i]);
        EntriesDistinct(blocks, i);
        if lists[i] != NULL {
          return i, true;
        } else if i == MAX_ORDER {
          return i, false;
        }
        i := i + 1;
      }
    }

    /** Page_Acquire */
    method Acquire(k: nat) returns (page: int)
      requires Valid() && k <= MAX_ORDER
      modifies this, lists, maps
      ensures Valid()
      ensures var (b, t) := Buddy.Acquire(old(Contents()), k);
        && Contents() == t
        && page == (if b.None? then 0xFFFF_FFFF else Ptr(k, b.value))
        && free == (if b.None? then old(free) else old(free) - Pages(k, b.value))
        && (b.Some? ==> page != NULL && Whole(old(free), k, b.value))
    {
      ghost var s := Contents();
      InvDistinct(s, free);
      var i, found := FirstListed(k);
      AcquireSkips(s, k, i);
      if !found {
        return NULL;
      }
      page := lists[i];
      SplitStages(s, free, k, i);
      SplitDown(page - OFFSET, k, i, s);
      AcquiredState(s, free, k);
      free := free - Pages(k, Buddy.Acquire(s, k).0.value);
    }

    /** The second loop of Page_Acquire: take the head at order i and list the right halves below. */
    method SplitDown(addr: nat, k: nat, i: nat, ghost s: State)
      requires Shaped() && Wired(lists[..], next, prev, blocks) && Contents() == s && k <= i <= MAX_ORDER
      requires s.lists[i] != [] && addr == Address(i, s.lists[i][0]) && addr < 0x7000_0000
      requires forall l :: k <= l < i ==> s.lists[l] == []
      requires Distinct(s.lists) && SplitsDistinct(s, k, i)
      modifies this`next, this`prev, this`blocks, lists, maps
      ensures Shaped() && Wired(lists[..], next, prev, blocks)
      ensures Buddy.Acquire(s, k).0.Some? && Contents() == Buddy.Acquire(s, k).1
      ensures addr == Address(k, Buddy.Acquire(s, k).0.value)
    {
      hide Pow2, Size, Address, Index, BlockAt, Distinct, Wired, Buddy.Acquire;
      AddressBlock(i, s.lists[i][0]);
      AcquireStep(s, i);
      ToggleMapBit(addr, i);
      Pop(i);
      var j: int := i - 1;
      while j >= k
        invariant k - 1 <= j < i && Shaped() && Wired(lists[..], next, prev, blocks)
        invariant Buddy.Acquire(s, j + 1).0.Some? && Contents() == Buddy.Acquire(s, j + 1).1
        invariant addr == Address(j + 1, Buddy.Acquire(s, j + 1).0.value)
      {
        SplitOnce(addr, j, s);
        j := j - 1;
      }
    }

    method SplitOnce(addr: nat, j: nat, ghost s: State)
      requires Shaped() && Wired(lists[..], next, prev, blocks) && j < MAX_ORDER && Shape(s)
      requires s.lists[j] == [] && addr < 0x7000_0000
      requires Buddy.Acquire(s, j + 1).0.Some? && Contents() == Buddy.Acquire(s, j + 1).1
      requires addr == Address(j + 1, Buddy.Acquire(s, j + 1).0.value)
      requires Distinct(Buddy.Acquire(s, j + 1).1.lists) && Distinct(Buddy.Acquire(s, j).1.lists)
      modifies this`next, this`prev, this`blocks, lists, maps
      ensures Shaped() && Wired(lists[..], next, prev, blocks)
      ensures Buddy.Acquire(s, j).0.Some? && Contents() == Buddy.Acquire(s, j).1
      ensures addr == Address(j, Buddy.Acquire(s, j).0.value)
    {
      hide Pow2, Size, Address, Index, BlockAt, Distinct, Wired, Buddy.Acquire;
      ghost var b := Buddy.Acquire(s, j + 1).0.value;
      HalfAddresses(j, b);
      AddressBlock(j, 2 * b);
      AcquireStep(s, j);
      ToggleMapBit(addr, j);
      ListAlone(j, addr + Size(j) + OFFSET, 2 * b + 1);
    }

    /** One turn of the central loop of Page_MapMemoryChunk: list a block and set its bit. */
    method PushOne(m: nat, page: nat, ghost f: iset<nat>, ghost a: nat, ghost e: nat, ghost x: nat)
      requires Valid() && m <= MAX_ORDER && page == Address(m, x)
      requires LOWMEM_PAGES <= a <= x * Pow2(m) && (x + 1) * Pow2(m) <= e <= MANAGED_PAGES
      requires Separate(f, Range(a, e)) && (m < MAX_ORDER ==> e - a < Pow2(m + 1)) && Managed(f)
      requires free == f + Range((x + 1) * Pow2(m), e)
      modifies this, lists, maps
      ensures Valid() && free == f + Range(x * Pow2(m), e)
      ensures Contents() == PushBlock(old(Contents()), m, x)
    {
      hide Wired, PushAt, Inv, Index, Size, Address, Pow2, Whole, Ptr, Bits;
      CentralBlock(Contents(), f, a, e, m, x);
      AddressBlock(m, x);
      PtrOf(m, x);
      PushAtHolds(Memory(), blocks, m, x);
      LinkFirst(m, page + OFFSET);
      blocks := blocks[m := [x] + blocks[m]];
      SetMapBit(page, m);
      free := f + Range(x * Pow2(m), e);
    }

    /** The central loop of Page_MapMemoryChunk. */
    method PushCentral(centralBase: nat, m: nat, count: nat, ghost f: iset<nat>, ghost a: nat, ghost e: nat,
                       ghost lo: nat, ghost c: nat, ghost p: nat)
      requires Valid() && m <= MAX_ORDER && centralBase == Address(m, lo)
      requires LOWMEM_PAGES <= a <= c && a <= e && p <= e <= MANAGED_PAGES && CutsAt(e - a, m, lo, lo + count, c, p)
      requires Separate(f, Range(a, e)) && Managed(f)
      requires free == f + Range(p, e)
      modifies this, lists, maps
      ensures Valid() && free == f + Range(c, e)
      ensures Contents() == PushBlocks(old(Contents()), m, lo, lo + count)
    {
      hide Pow2, Size, Address, Index, Whole, Separate, ListsExact, BitsMatch, NoDup, Wired, Distinct, AllBits;
      ghost var s := Contents();
      var i := 0;
      while i < count
        invariant 0 <= i <= count && Valid()
        invariant free == f + Range((lo + count - i) * Pow2(m), e)
        invariant PushBlocks(Contents(), m, lo, lo + count - i) == PushBlocks(s, m, lo, lo + count)
      {
        ghost var x := lo + count - 1 - i;
        CentralAddress(m, lo, x);
        CentralBounds(m, lo, x, lo + count);
        PushOne(m, centralBase + (count - 1 - i) * Size(m), f, a, e, x);
        i := i + 1;
      }
    }

    /** Page_MapMemoryChunk */
    method MapMemoryChunk(chunkBase: nat, chunkSize: nat)
      requires Valid()
      requires InManagedRange(chunkBase, chunkSize) ==> Mappable(free, chunkBase, chunkSize)
      modifies this, lists, maps
      ensures Valid()
      ensures !InManagedRange(chunkBase, chunkSize) ==> Contents() == old(Contents()) && free == old(free)
      ensures InManagedRange(chunkBase, chunkSize) ==>
        var b, n := chunkBase / PAGE_SIZE, chunkSize / PAGE_SIZE;
        Contents() == MapChunk(old(Contents()), b, n) && free == old(free) + Range(b, b + n)
      decreases chunkSize, 1
    {
      if chunkSize == 0 || chunkBase < 0x10_0000 || chunkBase >= 0x7000_0000 {
        return;
      }
      var base := chunkBase;
      var size := if chunkBase + chunkSize > 0x1_0000_0000 then 0x1_0000_0000 - chunkBase else chunkSize;
      MapAligned(base, size, base / PAGE_SIZE, size / PAGE_SIZE);
    }

    /** Page_MapMemoryChunk beyond its guards: the top part, the central blocks, the low part. */
    method MapAligned(base: nat, size: nat, ghost b: nat, ghost n: nat)
      requires Valid() && InManagedRange(base, size) && Mappable(free, base, size)
      requires base == PAGE_SIZE * b && size == PAGE_SIZE * n
      modifies this, lists, maps
      ensures Valid()
      ensures Contents() == MapChunk(old(Contents()), b, n) && free == old(free) + Range(b, b + n)
      decreases size, 0
    {
      hide Pow2, Size, Address, Index, Whole, Separate, PushBlocks, ListsExact, BitsMatch, NoDup, Wired, AllBits, MapChunk, PartReady, Range, CutsAt;
      ghost var s, f, e := Contents(), free, b + n;
      var m, topBase, topSize, centralBase, count, lowSize, lo, c, p := LayOut(base, size, b, n, f, s);
      MapPart(topBase, topSize, p, e);
      PushCentral(centralBase, m, count, f, b, e, lo, c, p);
      MapPart(base, lowSize, b, c);
      RangeJoin(f, b, c, e);
    }

    /** The recursive call on one part of a chunk. */
    method MapPart(base: nat, size: nat, ghost p: nat, ghost q: nat)
      requires Valid() && PartReady(free, base, size, p, q) && p <= q
      requires p < q ==> base == PAGE_SIZE * p && size == PAGE_SIZE * (q - p)
      modifies this, lists, maps
      ensures Valid()
      ensures Contents() == MapChunk(old(Contents()), p, q - p) && free == old(free) + Range(p, q)
      decreases size, 2
    {
      hide Pow2, Index, Whole, Separate, ListsExact, BitsMatch, Wired, Maximal, Distinct, AllBits, NoDup, Mappable;
      ghost var s := Contents();
      MapMemoryChunk(base, size);
      if p < q {
        assert base / PAGE_SIZE == p && size / PAGE_SIZE == q - p;
      } else {
        MapChunkEmpty(s, p);
      }
    }
  }
}
