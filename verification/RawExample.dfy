/** A run of the allocator after which a release as written puts a block on two lists. */
module RawExample {
  import opened Blocks
  import opened Options
  import opened Buddy
  import opened BuddyMacro
  import opened FreeList
  import opened Chunk
  import opened AllocatorRuns
  import opened RawRelease

  /** Pages 0x100..0x107 are mapped; 0x100..0x103 and 0x105 end up in use. */
  const OPS: seq<Op> := [Map(0x100, 8), Get(2), Get(0), Get(0), Put(0, 0x104)]

  function Low(l0: seq<nat>, l1: seq<nat>, l2: seq<nat>, l3: seq<nat>, b0: set<nat>, b1: set<nat>, b2: set<nat>, b3: set<nat>): (s: State)
    ensures Shape(s)
  {
    State([l0, l1, l2, l3, [], [], [], [], [], [], []], [b0, b1, b2, b3, {}, {}, {}, {}, {}, {}, {}])
  }

  const MAPPED: State := Low([], [], [], [0x20], {}, {}, {}, {0x10})
  const GOT_FOUR: State := Low([], [], [0x41], [], {}, {}, {0x20}, {})
  const GOT_FIVE: State := Low([0x105], [0x83], [], [], {0x82}, {0x41}, {}, {})
  const GOT_SIX: State := Low([], [0x83], [], [], {}, {0x41}, {}, {})
  const BEFORE: State := Low([0x104], [0x83], [], [], {0x82}, {0x41}, {}, {})

  lemma Powers()
    ensures Pow2(0) == 1 && Pow2(1) == 2 && Pow2(2) == 4 && Pow2(3) == 8 && Pow2(4) == 16
  {
  }

  lemma Tops()
    ensures Pow2(5) == 32 && Pow2(6) == 64 && Pow2(7) == 128 && Pow2(8) == 256 && Pow2(9) == 512 && Pow2(10) == 1024
  {
    Powers();
  }

  lemma MapEight()
    ensures MapChunk(EMPTY, 0x100, 8) == MAPPED
  {
    Powers();
    Tops();
    assert OrderUpTo(8, 4) == 3 && OrderUpTo(8, 6) == 3 && OrderUpTo(8, 8) == 3 && MaxOrder(8) == 3;
    MapChunkEmpty(EMPTY, 0x108);
    assert FirstBlock(0x100, 3) == 0x20 && LastBlock(0x108, 3) == 0x21;
    MapChunkStep(EMPTY, 0x100, 8, 0x20, 0x21, 0x100, 0x108);
    assert EMPTY == Low([], [], [], [], {}, {}, {}, {});
    assert [0x20] + EMPTY.lists[3] == [0x20] && EMPTY.bits[3] + {0x10} == {0x10};
    assert EMPTY.lists[3 := [0x20]] == MAPPED.lists && EMPTY.bits[3 := {0x10}] == MAPPED.bits;
    assert PushBlocks(EMPTY, 3, 0x20, 0x21) == PushBlocks(MAPPED, 3, 0x20, 0x20) == MAPPED;
  }

  lemma GetFour()
    ensures Acquire(MAPPED, 2) == (Some(0x40), GOT_FOUR)
  {
    var t := Low([], [], [], [], {}, {}, {}, {});
    assert Toggle({0x10}, 0x10) == {} && Toggle({}, 0x20) == {0x20};
    assert MAPPED.lists[3][1..] == [] && MAPPED.lists[3 := []] == t.lists && MAPPED.bits[3 := {}] == t.bits;
    assert Acquire(MAPPED, 3) == (Some(0x20), t);
    assert t.lists[2 := [0x41]] == GOT_FOUR.lists && t.bits[2 := {0x20}] == GOT_FOUR.bits;
  }

  lemma GetFive()
    ensures Acquire(GOT_FOUR, 0) == (Some(0x104), GOT_FIVE)
  {
    var t2 := Low([], [], [], [], {}, {}, {}, {});
    var t1 := Low([], [0x83], [], [], {}, {0x41}, {}, {});
    assert Toggle({0x20}, 0x20) == {} && Toggle({}, 0x41) == {0x41} && Toggle({}, 0x82) == {0x82};
    assert GOT_FOUR.lists[2][1..] == [] && GOT_FOUR.lists[2 := []] == t2.lists && GOT_FOUR.bits[2 := {}] == t2.bits;
    assert Acquire(GOT_FOUR, 2) == (Some(0x41), t2);
    assert t2.lists[1 := [0x83]] == t1.lists && t2.bits[1 := {0x41}] == t1.bits;
    assert Acquire(GOT_FOUR, 1) == (Some(0x82), t1);
    assert t1.lists[0 := [0x105]] == GOT_FIVE.lists && t1.bits[0 := {0x82}] == GOT_FIVE.bits;
  }

  lemma GetSix()
    ensures Acquire(GOT_FIVE, 0) == (Some(0x105), GOT_SIX)
  {
    assert Toggle({0x82}, 0x82) == {} && GOT_FIVE.lists[0][1..] == [];
    assert GOT_FIVE.lists[0 := []] == GOT_SIX.lists && GOT_FIVE.bits[0 := {}] == GOT_SIX.bits;
  }

  lemma PutBack()
    ensures Release(GOT_SIX, 0, 0x104) == BEFORE
  {
    assert Toggle({}, 0x82) == {0x82} && [0x104] + GOT_SIX.lists[0] == [0x104];
    assert GOT_SIX.lists[0 := [0x104]] == BEFORE.lists && GOT_SIX.bits[0 := {0x82}] == BEFORE.bits;
  }

  /** One more operation in front of a run. */
  lemma RunCons(w: World, op: Op, rest: seq<Op>, t: World)
    requires WorldInv(w) && Legal(w, op) && Apply(w, op) == t
    ensures WorldInv(t)
    ensures LegalRun(t, rest) ==> LegalRun(w, [op] + rest) && Run(w, [op] + rest) == Run(t, rest)
  {
    hide WorldInv, Legal, Apply;
    StepKeeps(w, op);
    assert ([op] + rest)[1..] == rest;
  }

  /** The state is reached from the empty allocator. */
  lemma BeforeIsReached()
    ensures WorldInv(START) && LegalRun(START, OPS)
    ensures Run(START, OPS) == World(BEFORE, {(2, 0x40), (0, 0x105)}, Range(0x100, 0x108))
  {
    hide WorldInv, LegalRun, Run, MapChunk, Acquire, Release, MAPPED, GOT_FOUR, GOT_FIVE, GOT_SIX, BEFORE;
    var r := Range(0x100, 0x108);
    var w1 := World(MAPPED, {}, r);
    var w2 := World(GOT_FOUR, {(2, 0x40)}, r);
    var w3 := World(GOT_FIVE, {(2, 0x40), (0, 0x104)}, r);
    var w4 := World(GOT_SIX, {(2, 0x40), (0, 0x104), (0, 0x105)}, r);
    var w5 := World(BEFORE, {(2, 0x40), (0, 0x105)}, r);
    MapEight();
    GetFour();
    GetFive();
    GetSix();
    PutBack();
    StartIsExact();
    assert iset{} + r == r;
    RunCons(START, Map(0x100, 8), OPS[1..], w1);
    RunCons(w1, Get(2), OPS[2..], w2);
    RunCons(w2, Get(0), OPS[3..], w3);
    RunCons(w3, Get(0), OPS[4..], w4);
    RunCons(w4, Put(0, 0x104), OPS[5..], w5);
    RunNothing(w5);
    assert OPS[5..] == [];
    assert OPS[4..] == [Put(0, 0x104)] + OPS[5..];
    assert OPS[3..] == [Get(0)] + OPS[4..];
    assert OPS[2..] == [Get(0)] + OPS[3..];
    assert OPS[1..] == [Get(2)] + OPS[2..];
    assert OPS == [Map(0x100, 8)] + OPS[1..];
  }

  lemma RunNothing(w: World)
    requires WorldInv(w)
    ensures LegalRun(w, []) && Run(w, []) == w
  {
  }

  // ---------------------------------------------------------------- the release

  /** Page 0x103, in use: what its owner left in its first two words decides the release. */
  const STRAY: int := 0x8010_3000
  const AFTER: State := Low([], [0x83], [0x41], [], {}, {}, {0x20}, {})

  lemma BeforeIsExact() returns (free: iset<nat>)
    ensures Inv(BEFORE, free) && Managed(free) && free !! Pages(0, 0x105)
    ensures BlockAt(0x10_5000, 0) == 0x105 && Managed(Pages(0, 0x105))
  {
    hide Inv, LegalRun, Run, BEFORE;
    BeforeIsReached();
    RunKeeps(START, OPS);
    var w := Run(START, OPS);
    free := FreePages(w);
    assert (0, 0x105) in w.out;
    forall p: nat | p in Pages(0, 0x105)
      ensures p == 0x105 && HandedOut(w.out, p)
    {
      assert (0, 0x105) in w.out && p in Pages((0, 0x105).0, (0, 0x105).1);
    }
  }

  lemma MergesTwice()
    ensures MergeLevel(BEFORE, 0, 0x105) == 2 && Release(BEFORE, 0, 0x105).bits == AFTER.bits
    ensures !RawSafe(BEFORE, 0x10_5000, 0)
  {
    hide Release, MergeLevel, Toggle;
    MergeZero();
    MergeOne();
    MergeStops();
    Unsafe();
  }

  lemma Unsafe()
    requires MergeLevel(BEFORE, 0, 0x105) == 2
    ensures !RawSafe(BEFORE, 0x10_5000, 0)
  {
    hide Release, MergeLevel, BEFORE;
    Powers();
    assert BlockAt(0x10_5000, 0) == 0x105;
  }

  lemma MergeZero()
    ensures var t := FIRST;
      MergeLevel(BEFORE, 0, 0x105) == MergeLevel(t, 1, 0x82) && Release(BEFORE, 0, 0x105) == Release(t, 1, 0x82)
  {
    hide Low;
    assert BEFORE.lists[0] == [0x104] && BEFORE.bits[0] == {0x82} by {
      LowParts([0x104], [0x83], [], [], {0x82}, {0x41}, {}, {});
    }
    assert Toggle({0x82}, 0x82) == {} && Without([0x104], 0x104) == [];
    assert Sibling(0x105) == 0x104;
    MergeLevelUp(BEFORE, 0, 0x105, []);
    FirstIs();
  }

  lemma FirstIs()
    ensures State(BEFORE.lists[0 := []], BEFORE.bits[0 := {}]) == FIRST
  {
    assert BEFORE.lists[0 := []] == FIRST.lists && BEFORE.bits[0 := {}] == FIRST.bits;
  }

  lemma LowParts(l0: seq<nat>, l1: seq<nat>, l2: seq<nat>, l3: seq<nat>, b0: set<nat>, b1: set<nat>, b2: set<nat>, b3: set<nat>)
    ensures var s := Low(l0, l1, l2, l3, b0, b1, b2, b3);
      s.lists[0] == l0 && s.lists[1] == l1 && s.lists[2] == l2 && s.bits[0] == b0 && s.bits[1] == b1 && s.bits[2] == b2
  {
  }

  const FIRST: State := Low([], [0x83], [], [], {}, {0x41}, {}, {})
  const SECOND: State := Low([], [], [], [], {}, {}, {}, {})

  lemma MergeOne()
    ensures MergeLevel(FIRST, 1, 0x82) == MergeLevel(SECOND, 2, 0x41) && Release(FIRST, 1, 0x82) == Release(SECOND, 2, 0x41)
  {
    hide Low;
    LowParts([], [0x83], [], [], {}, {0x41}, {}, {});
    assert Toggle({0x41}, 0x41) == {} && Without([0x83], 0x83) == [];
    assert Sibling(0x82) == 0x83;
    MergeLevelUp(FIRST, 1, 0x82, []);
    SecondIs();
  }

  lemma SecondIs()
    ensures State(FIRST.lists[1 := []], FIRST.bits[1 := {}]) == SECOND
  {
    assert FIRST.lists[1 := []] == SECOND.lists && FIRST.bits[1 := {}] == SECOND.bits;
  }

  lemma MergeStops()
    ensures MergeLevel(SECOND, 2, 0x41) == 2 && Release(SECOND, 2, 0x41).bits == AFTER.bits
  {
    assert Toggle({}, 0x20) == {0x20};
    assert SECOND.bits[2 := {0x20}] == AFTER.bits;
  }

  function FewLists(l0: seq<nat>, l1: seq<nat>, l2: seq<nat>): seq<seq<nat>> {
    Low(l0, l1, l2, [], {}, {}, {}, {}).lists
  }

  /** Pointers of the few blocks listed. */
  lemma FewPtr(l0: seq<nat>, l1: seq<nat>, l2: seq<nat>, k: nat, i: nat)
    requires (l0 == [] || l0 == [0x104]) && (l1 == [] || l1 == [0x83]) && (l2 == [] || (l2 == [0x41] && l0 == []))
    requires k <= MAX_ORDER && i in FewLists(l0, l1, l2)[k]
    ensures k == (if Ptr(k, i) == 0x8010_6000 then 1 else if l0 == [] then 2 else 0)
    ensures Ptr(k, i) == 0x8010_6000 || Ptr(k, i) == 0x8010_4000
    ensures |FewLists(l0, l1, l2)[k]| == 1 && FewLists(l0, l1, l2)[k][0] == i
  {
    Powers();
    assert k <= 2;
  }

  lemma FewDistinct(l0: seq<nat>, l1: seq<nat>, l2: seq<nat>)
    requires (l0 == [] || l0 == [0x104]) && (l1 == [] || l1 == [0x83]) && (l2 == [] || (l2 == [0x41] && l0 == []))
    ensures Distinct(FewLists(l0, l1, l2))
  {
    hide Ptr, FewLists;
    var lists := FewLists(l0, l1, l2);
    FewSize(l0, l1, l2);
    forall k: nat, i: nat | k <= MAX_ORDER && i in lists[k]
      ensures Ptr(k, i) < NULL
    {
      FewPtr(l0, l1, l2, k, i);
    }
    forall k: nat, i: nat, l: nat, j: nat | k <= MAX_ORDER && l <= MAX_ORDER && i in lists[k] && j in lists[l] && (k, i) != (l, j)
      ensures Ptr(k, i) != Ptr(l, j)
    {
      FewPtr(l0, l1, l2, k, i);
      FewPtr(l0, l1, l2, l, j);
    }
  }

  lemma FewSize(l0: seq<nat>, l1: seq<nat>, l2: seq<nat>)
    requires (l0 == [] || l0 == [0x104]) && (l1 == [] || l1 == [0x83]) && (l2 == [] || (l2 == [0x41] && l0 == []))
    ensures |FewLists(l0, l1, l2)| == MAX_ORDER + 1
    ensures forall k: nat :: k <= MAX_ORDER ==> NoDup(FewLists(l0, l1, l2)[k])
  {
    forall k: nat | k <= MAX_ORDER
      ensures |FewLists(l0, l1, l2)[k]| <= 1
    {
    }
  }

  /** A round at a page that points to itself changes no list. */
  lemma SelfRound(w: Words, lists: seq<seq<nat>>, j: nat, b: int)
    requires Holds(w, lists) && j <= MAX_ORDER && !IsListed(lists, b) && b != NULL
    requires Read(w.next, b) == b && Read(w.prev, b) == b
    ensures |w.heads| == MAX_ORDER + 1 && Holds(UnlinkAt(w, j, b), lists)
  {
    hide Ptr;
    HoldsSize(w, lists);
    var r := UnlinkAt(w, j, b);
    forall k: nat | k <= MAX_ORDER
      ensures Linked(r.heads[k], r.next, r.prev, k, lists[k])
    {
      assert Linked(w.heads[k], w.next, w.prev, k, lists[k]);
      forall n: nat | n < |lists[k]|
        ensures PtrAt(k, lists[k], n) != b
      {
        assert ListedAt(lists, PtrAt(k, lists[k], n), k, n);
      }
      LinkedFrame(w.heads[k], w.next, w.prev, r.next, r.prev, k, lists[k], {b});
    }
  }

  /** If page 0x103 points to itself, releasing page 0x105 as written lists the block 0x104..0x107 and
      leaves 0x106..0x107 listed as well, so that two acquisitions hand out the same two pages. */
  lemma RawHandsOutPagesTwice(w: Words)
    requires Holds(w, BEFORE.lists) && Read(w.next, STRAY) == STRAY && Read(w.prev, STRAY) == STRAY
    ensures |w.heads| == MAX_ORDER + 1
    ensures Holds(Released(w, 0x10_5000, 0, MergeLevel(BEFORE, 0, 0x105), false), AFTER.lists)
    ensures Release(BEFORE, 0, 0x105).bits == AFTER.bits
    ensures var (a, t) := Acquire(AFTER, 2);
      var (b, u) := Acquire(t, 1);
      a == Some(0x41) && b == Some(0x83) && Pages(1, 0x83) < Pages(2, 0x41)
  {
    hide Holds, UnlinkAt, PushAt, Released, Distinct;
    HoldsSize(w, BEFORE.lists);
    MergesTwice();
    RoundsOf(w);
    RoundZero(w);
    var l1 := Low([], [0x83], [], [], {}, {}, {}, {}).lists;
    var w1 := UnlinkAt(w, 0, Ptr(0, 0x104));
    NotListedThere();
    SelfRound(w1, l1, 1, STRAY);
    FewDistinct([], [0x83], []);
    FewDistinct([], [0x83], [0x41]);
    assert [0x41] + l1[2] == [0x41] && l1[2 := [0x41]] == AFTER.lists;
    PushAtHolds(UnlinkAt(w1, 1, STRAY), l1, 2, 0x41);
    AcquiresOverlap();
  }

  lemma NotListedThere()
    ensures !IsListed(Low([], [0x83], [], [], {}, {}, {}, {}).lists, STRAY)
  {
    Powers();
  }

  lemma RoundZero(w: Words)
    requires Holds(w, BEFORE.lists) && Read(w.next, STRAY) == STRAY && Read(w.prev, STRAY) == STRAY
    ensures |w.heads| == MAX_ORDER + 1
    ensures var w1 := UnlinkAt(w, 0, Ptr(0, 0x104));
      && Holds(w1, Low([], [0x83], [], [], {}, {}, {}, {}).lists)
      && Read(w1.next, STRAY) == STRAY && Read(w1.prev, STRAY) == STRAY
  {
    hide UnlinkAt, Distinct;
    HoldsSize(w, BEFORE.lists);
    Powers();
    FewDistinct([0x104], [0x83], []);
    UnlinkAtHolds(w, BEFORE.lists, 0, 0x104);
    assert Without([0x104], 0x104) == [] && BEFORE.lists[0 := []] == Low([], [0x83], [], [], {}, {}, {}, {}).lists;
    ListedWords(w, BEFORE.lists, 0, 0);
    UnlinkAtWords(w, 0, Ptr(0, 0x104), STRAY);
  }

  /** The rounds and the final push of this release. */
  lemma RoundsOf(w: Words)
    requires |w.heads| == MAX_ORDER + 1
    ensures Released(w, 0x10_5000, 0, 2, false) == PushAt(UnlinkAt(UnlinkAt(w, 0, Ptr(0, 0x104)), 1, STRAY), 2, Ptr(2, 0x41))
  {
    hide UnlinkAt, PushAt;
    Powers();
    assert BuddyUsed(0x10_5000, 0, false) + OFFSET == Ptr(0, 0x104);
    assert BuddyUsed(0x10_5000, 1, false) + OFFSET == STRAY;
    assert 0x10_5000 / Size(2) * Size(2) + OFFSET == Ptr(2, 0x41);
    var w1 := UnlinkAt(w, 0, Ptr(0, 0x104));
    assert UnlinkUp(w1, 0x10_5000, 1, 2, false) == UnlinkAt(w1, 1, STRAY);
  }

  lemma AcquiresOverlap()
    ensures var (a, t) := Acquire(AFTER, 2);
      var (b, u) := Acquire(t, 1);
      a == Some(0x41) && b == Some(0x83) && Pages(1, 0x83) < Pages(2, 0x41)
  {
    assert forall p: nat :: Index(p, 2) == Index(p, 1) / 2;
    assert Index(0x104, 1) == 0x82 && Index(0x104, 2) == 0x41;
    assert 0x104 in Pages(2, 0x41) && 0x104 !in Pages(1, 0x83);
  }

  /** Such words exist: memory in which every page on no list points to itself. */
  lemma StrayWordsExist()
    ensures var w := SelfWords(BEFORE.lists); Holds(w, BEFORE.lists) && Read(w.next, STRAY) == STRAY && Read(w.prev, STRAY) == STRAY
  {
    hide Distinct, Managed, Inv, Ptr, Address;
    var free := BeforeIsExact();
    InvDistinct(BEFORE, free);
    ListedInRange(BEFORE, free);
    SelfWordsHold(BEFORE.lists);
    StrayIsSelf();
  }

  lemma StrayIsSelf()
    ensures var w := SelfWords(BEFORE.lists); Read(w.next, STRAY) == STRAY && Read(w.prev, STRAY) == STRAY
  {
    Powers();
    assert !IsListed(BEFORE.lists, STRAY);
  }
}
