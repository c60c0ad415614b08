/** Byte addresses of blocks, the address macros of the allocator, and alignment along a release. */
module BuddyMacro {
  import opened Blocks
  import opened Options
  import opened Buddy
  import opened Arith

  const PAGE_SIZE: nat := 0x1000

  /** PAGE_SIZE_AT_ORDER */
  function Size(k: nat): (r: nat)
    ensures r >= 1
  {
    PAGE_SIZE * Pow2(k)
  }

  function Address(k: nat, i: nat): nat {
    i * Size(k)
  }

  /** PAGE_BUDDY, on an address that need not be aligned to the order. */
  function PageBuddy(addr: int, k: nat): int {
    if addr % Size(k + 1) == 0 then addr + Size(k) else addr - Size(k)
  }

  /** The index of the order-k block that holds an address. */
  function BlockAt(addr: nat, k: nat): nat {
    Index(addr / PAGE_SIZE, k)
  }

  predicate Aligned(addr: nat, k: nat) {
    addr % Size(k) == 0
  }

  /** Shifting an address right by 12 + k bits gives the index of its order-k block; the bitmap
      position at order k, one bit further, is the pair that block belongs to. */
  lemma {:induction false} AddressIndex(addr: nat, k: nat)
    ensures addr / Size(k) == BlockAt(addr, k)
    ensures addr / Size(k + 1) == BlockAt(addr, k) / 2
  {
    if k > 0 {
      AddressIndex(addr, k - 1);
    }
    DivHalves(addr, Size(k));
  }

  lemma AddressBlock(k: nat, i: nat)
    ensures BlockAt(Address(k, i), k) == i && Aligned(Address(k, i), k)
  {
    MultipleDiv(i, Size(k));
    AddressIndex(Address(k, i), k);
  }

  lemma AddressInjective(k: nat, i: nat, j: nat)
    ensures Address(k, i) == Address(k, j) <==> i == j
  {
    AddressBlock(k, i);
    AddressBlock(k, j);
  }

  lemma AlignedStep(addr: nat, k: nat)
    ensures Aligned(addr, k + 1) <==> Aligned(addr, k) && BlockAt(addr, k) % 2 == 0
  {
    AddressIndex(addr, k);
    DivHalves(addr, Size(k));
  }

  lemma {:induction false} AlignedBelow(addr: nat, k: nat, l: nat)
    requires k <= l && Aligned(addr, l)
    ensures Aligned(addr, k)
    decreases l
  {
    if k < l {
      AlignedStep(addr, l - 1);
      AlignedBelow(addr, k, l - 1);
    }
  }

  /** The macro gives the buddy of the order-k block holding the address exactly when the address is
      the start of that block. */
  lemma BuddyIffAligned(addr: nat, k: nat)
    ensures PageBuddy(addr, k) == Address(k, Sibling(BlockAt(addr, k))) <==> Aligned(addr, k)
  {
    var d := Size(k);
    var i: int, r := BlockAt(addr, k), addr % d;
    AddressIndex(addr, k);
    AlignedStep(addr, k);
    assert addr == i * d + r;
    NextMultiple(i, d);
    if r != 0 {
      assert PageBuddy(addr, k) == (i - 1) * d + r;
      DivUnique(PageBuddy(addr, k), d, i - 1, r);
      MultipleDiv(Sibling(i), d);
    }
  }

  // ---------------------------------------------------------------- release as written

  /** What the release does depends on alignment at the last order it merges at. */
  predicate RawSafe(s: State, addr: nat, k: nat)
    requires Shape(s) && k <= MAX_ORDER
  {
    var m := MergeLevel(s, k, BlockAt(addr, k));
    m == k || Aligned(addr, m - 1)
  }

  lemma MergeLevelUp(s: State, k: nat, i: nat, list: seq<nat>)
    requires Shape(s) && k < MAX_ORDER && i / 2 !in Toggle(s.bits[k], i / 2)
    ensures var t := State(s.lists[k := list], s.bits[k := Toggle(s.bits[k], i / 2)]);
      MergeLevel(s, k, i) == MergeLevel(t, k + 1, i / 2)
  {
    var t := State(s.lists[k := list], s.bits[k := Toggle(s.bits[k], i / 2)]);
    MergeLevelFrame(s, t, k + 1, i / 2);
  }

  lemma {:induction false} MergeLevelFrame(s: State, t: State, k: nat, i: nat)
    requires Shape(s) && Shape(t) && k <= MAX_ORDER
    requires forall j :: k <= j <= MAX_ORDER ==> s.bits[j] == t.bits[j]
    ensures MergeLevel(s, k, i) == MergeLevel(t, k, i)
    decreases MAX_ORDER - k
  {
    if k < MAX_ORDER {
      MergeLevelFrame(s, t, k + 1, i / 2);
    }
  }

  function Merged(s: State, k: nat, i: nat): (t: State)
    requires Shape(s) && k < MAX_ORDER
    ensures Shape(t)
  {
    State(s.lists[k := Without(s.lists[k], Sibling(i))], s.bits[k := Toggle(s.bits[k], i / 2)])
  }

  /** What one merging level leaves free: everything but the buddy, which the merged block absorbs. */
  lemma MergeStep(s: State, free: iset<nat>, k: nat, i: nat)
    requires Inv(s, free) && k < MAX_ORDER && free !! Pages(k, i) && MergeLevel(s, k, i) > k
    ensures var f := free - Pages(k, Sibling(i));
      && Inv(Merged(s, k, i), f)
      && f !! Pages(k + 1, i / 2)
      && f + Pages(k + 1, i / 2) == free + Pages(k, i)
  {
    BitTellsBuddy(s, free, k, i);
    SiblingFacts(i);
    RemoveBlock(s, free, k, Sibling(i));
    PagesHalves(k, i);
  }

  /** The block returned by an acquisition is aligned to the order it was split from ... */
  lemma {:induction false} AcquiredAligned(s: State, free: iset<nat>, k: nat)
    requires Inv(s, free) && k <= MAX_ORDER && Acquire(s, k).0.Some?
    ensures AlignedToMerge(Acquire(s, k), k)
    decreases MAX_ORDER - k
  {
    hide Inv, Acquire, AlignedToMerge;
    InvShape(s, free);
    if s.lists[k] != [] {
      HeadMergeLevel(s, free, k);
    } else {
      AcquireBelow(s, k);
      AcquiredAligned(s, free, k + 1);
      NoBitsOfEmptyList(s, free, k);
      SplitAligned(s, k);
    }
  }

  /** The block just acquired starts at a multiple of the size a release of it would merge up to. */
  predicate AlignedToMerge(r: (Option<nat>, State), k: nat)
    requires Shape(r.1) && k <= MAX_ORDER
  {
    r.0.Some? && Aligned(Address(k, r.0.value), MergeLevel(r.1, k, r.0.value))
  }

  lemma AcquireBelow(s: State, k: nat)
    requires Shape(s) && k <= MAX_ORDER && s.lists[k] == [] && Acquire(s, k).0.Some?
    ensures k < MAX_ORDER && Acquire(s, k + 1).0.Some?
  {
  }

  lemma SplitAligned(s: State, k: nat)
    requires Shape(s) && k < MAX_ORDER && s.lists[k] == [] && s.bits[k] == {} && AlignedToMerge(Acquire(s, k + 1), k + 1)
    ensures AlignedToMerge(Acquire(s, k), k)
  {
    hide Pow2, Size, Address, Aligned, MergeLevel;
    var (c, u) := Acquire(s, k + 1);
    SplitMergeLevel(u, k, c.value);
  }

  lemma NoBitsOfEmptyList(s: State, free: iset<nat>, k: nat)
    requires Inv(s, free) && k < MAX_ORDER && s.lists[k] == []
    ensures s.bits[k] == {}
  {
    assert BitsMatch(s.bits[k], s.lists[k]);
  }

  lemma HeadMergeLevel(s: State, free: iset<nat>, k: nat)
    requires Inv(s, free) && k <= MAX_ORDER && s.lists[k] != []
    ensures AlignedToMerge(Acquire(s, k), k)
  {
    var h := s.lists[k][0];
    AddressBlock(k, h);
    RemoveBlock(s, free, k, h);
    assert Toggle(Toggle(s.bits[k], h / 2), h / 2) == s.bits[k];
  }

  lemma SplitMergeLevel(u: State, k: nat, c: nat)
    requires Shape(u) && k < MAX_ORDER && u.bits[k] == {}
    ensures MergeLevel(State(u.lists[k := [2 * c + 1]], u.bits[k := Toggle(u.bits[k], c)]), k, 2 * c) == MergeLevel(u, k + 1, c)
    ensures Address(k, 2 * c) == Address(k + 1, c)
  {
    var t := State(u.lists[k := [2 * c + 1]], u.bits[k := Toggle(u.bits[k], c)]);
    assert 2 * c / 2 == c && t.bits[k] == {c};
    MergeLevelUp(t, k, 2 * c, u.lists[k]);
    MergeLevelFrame(t, u, k + 1, c);
  }
}
