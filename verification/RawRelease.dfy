/** Page_Release on the words of memory themselves: list heads, and two link words at every page, of
    which those of pages on no list may hold anything. */
module RawRelease {
  import opened Blocks
  import opened Options
  import opened Buddy
  import opened BuddyMacro
  import opened FreeList
  import opened Chunk
  import opened Arith

  ghost predicate Managed(free: iset<nat>) {
    forall p :: p in free ==> LOWMEM_PAGES <= p < MANAGED_PAGES
  }

  lemma PageOfAddress(k: nat, i: nat)
    ensures Address(k, i) == PAGE_SIZE * (i * Pow2(k))
  {
    Regroup(i, PAGE_SIZE, Pow2(k));
  }

  lemma MulLess(p: nat, n: nat)
    requires p < n
    ensures PAGE_SIZE * p < PAGE_SIZE * n
  {
  }

  /** Blocks that hold no common page start at different, non-null addresses. */
  lemma PtrsDiffer(free: iset<nat>, k: nat, i: nat, l: nat, j: nat)
    requires Managed(free) && k <= MAX_ORDER && l <= MAX_ORDER
    requires Maximal(free, k, i) && Maximal(free, l, j) && (k, i) != (l, j)
    ensures Ptr(k, i) != Ptr(l, j)
  {
    FirstPage(k, i);
    FirstPage(l, j);
    PageOfAddress(k, i);
    PageOfAddress(l, j);
    if Ptr(k, i) == Ptr(l, j) {
      MaximalDisjoint(free, k, l, i * Pow2(k));
    }
  }

  lemma PtrInRange(free: iset<nat>, k: nat, i: nat)
    requires Managed(free) && Whole(free, k, i)
    ensures Address(k, i) < 0x7000_0000 && Ptr(k, i) < NULL
  {
    FirstPage(k, i);
    PageOfAddress(k, i);
    MulLess(i * Pow2(k), MANAGED_PAGES);
  }

  lemma InvDistinct(s: State, free: iset<nat>)
    requires Inv(s, free) && Managed(free)
    ensures Distinct(s.lists)
  {
    forall k: nat, i: nat | k <= MAX_ORDER && i in s.lists[k]
      ensures Ptr(k, i) < NULL
    {
      PtrInRange(free, k, i);
    }
    forall k: nat, i: nat, l: nat, j: nat | k <= MAX_ORDER && l <= MAX_ORDER && i in s.lists[k] && j in s.lists[l] && (k, i) != (l, j)
      ensures Ptr(k, i) != Ptr(l, j)
    {
      PtrsDiffer(free, k, i, l, j);
    }
  }

  /** A pointer to a block of managed pages none of which is free. */
  ghost predicate Releasable(free: iset<nat>, pointer: int, k: nat) {
    && OFFSET <= pointer
    && free !! Pages(k, BlockAt(pointer - OFFSET, k))
    && Managed(Pages(k, BlockAt(pointer - OFFSET, k)))
  }

  /** The buddy address a release unlinks at order j: of the raw address, or of the merged block. */
  function BuddyUsed(addr: nat, j: nat, rounded: bool): int {
    PageBuddy(if rounded then addr / Size(j) * Size(j) else addr, j)
  }

  /** At every level merged, the address used leads to the buddy of the merged block. */
  lemma BuddyOfMerged(s: State, addr: nat, k: nat, j: nat, rounded: bool)
    requires Shape(s) && k <= MAX_ORDER && k <= j < MergeLevel(s, k, BlockAt(addr, k))
    requires !rounded ==> RawSafe(s, addr, k)
    ensures BuddyUsed(addr, j, rounded) == Address(j, Sibling(BlockAt(addr, j)))
  {
    if rounded {
      AddressIndex(addr, j);
      AddressBlock(j, BlockAt(addr, j));
      BuddyIffAligned(Address(j, BlockAt(addr, j)), j);
    } else {
      AlignedBelow(addr, j, MergeLevel(s, k, BlockAt(addr, k)) - 1);
      BuddyIffAligned(addr, j);
    }
  }

  lemma BuddyListed(u: State, f: iset<nat>, j: nat, b: nat)
    requires Inv(u, f) && Managed(f) && j <= MAX_ORDER && f !! Pages(j, b) && MergeLevel(u, j, b) > j
    ensures Sibling(b) in u.lists[j] && Distinct(u.lists)
  {
    BitTellsBuddy(u, f, j, b);
    InvDistinct(u, f);
  }

  lemma BlockUp(addr: nat, k: nat)
    ensures BlockAt(addr, k + 1) == BlockAt(addr, k) / 2
  {
  }

  lemma ReleaseAtMerge(u: State, k: nat, i: nat)
    requires Shape(u) && k <= MAX_ORDER && MergeLevel(u, k, i) == k
    ensures Buddy.Release(u, k, i).lists == u.lists[k := [i] + u.lists[k]]
  {
  }

  /** The allocator on values after one level of merging. */
  lemma MergeOnce(u: State, f: iset<nat>, j: nat, b: nat) returns (u': State, f': iset<nat>)
    requires Inv(u, f) && Managed(f) && j <= MAX_ORDER && f !! Pages(j, b) && MergeLevel(u, j, b) > j
    ensures Shape(u') && Inv(u', f') && Managed(f') && f' !! Pages(j + 1, b / 2)
    ensures u'.lists == u.lists[j := Without(u.lists[j], Sibling(b))]
    ensures Buddy.Release(u', j + 1, b / 2) == Buddy.Release(u, j, b)
    ensures MergeLevel(u', j + 1, b / 2) == MergeLevel(u, j, b)
    ensures f' + Pages(j + 1, b / 2) == f + Pages(j, b)
  {
    u', f' := Merged(u, j, b), f - Pages(j, Sibling(b));
    MergeStep(u, f, j, b);
    MergeLevelUp(u, j, b, Without(u.lists[j], Sibling(b)));
  }


  // ---------------------------------------------------------------- words

  datatype Words = Words(heads: seq<int>, next: map<int, int>, prev: map<int, int>)

  function Read(m: map<int, int>, p: int): int {
    if p in m then m[p] else 0
  }

  /** One round of the second loop of Page_Release, at whatever pointer it is given. */
  function UnlinkAt(w: Words, j: nat, buddy: int): (r: Words)
    requires j < |w.heads|
    ensures |r.heads| == |w.heads|
  {
    var before, after := Read(w.prev, buddy), Read(w.next, buddy);
    var next := if before != NULL then w.next[before := after] else w.next;
    var prev := if after != NULL then w.prev[after := before] else w.prev;
    Words(if before == NULL then w.heads[j := after] else w.heads, next[buddy := 0], prev[buddy := 0])
  }

  /** The second loop of Page_Release, from order j up to order m. */
  function UnlinkUp(w: Words, addr: nat, j: nat, m: nat, rounded: bool): (r: Words)
    requires m <= |w.heads|
    ensures |r.heads| == |w.heads|
    decreases m - j
  {
    if j >= m then w else UnlinkUp(UnlinkAt(w, j, BuddyUsed(addr, j, rounded) + OFFSET), addr, j + 1, m, rounded)
  }

  /** The end of Page_Release. */
  function PushAt(w: Words, m: nat, block: int): (r: Words)
    requires m < |w.heads|
    ensures |r.heads| == |w.heads|
  {
    var head := w.heads[m];
    var prev := w.prev[block := NULL];
    Words(w.heads[m := block], w.next[block := head], if head != NULL then prev[head := block] else prev)
  }

  /** What a release that merges up to order m leaves in memory. */
  function Released(w: Words, addr: nat, k: nat, m: nat, rounded: bool): (r: Words)
    requires m < |w.heads|
    ensures |r.heads| == |w.heads|
  {
    PushAt(UnlinkUp(w, addr, k, m, rounded), m, addr / Size(m) * Size(m) + OFFSET)
  }

  /** Every word after one round. */
  lemma UnlinkAtWords(w: Words, j: nat, b: int, p: int)
    requires j < |w.heads|
    ensures var r, before, after := UnlinkAt(w, j, b), Read(w.prev, b), Read(w.next, b);
      && Read(r.next, p) == (if p == b then 0 else if p == before && before != NULL then after else Read(w.next, p))
      && Read(r.prev, p) == (if p == b then 0 else if p == after && after != NULL then before else Read(w.prev, p))
  {
  }

  ghost predicate Holds(w: Words, lists: seq<seq<nat>>) {
    Wired(w.heads, w.next, w.prev, lists)
  }

  /** Memory whose words spell out some lists that, with the given bits, are exact for the free pages. */
  ghost predicate Right(w: Words, bits: seq<set<nat>>, free: iset<nat>) {
    exists lists: seq<seq<nat>> :: Holds(w, lists) && Inv(State(lists, bits), free)
  }

  // ---------------------------------------------------------------- safe releases

  lemma ListedWords(w: Words, lists: seq<seq<nat>>, j: nat, n: nat)
    requires Holds(w, lists) && j <= MAX_ORDER && n < |lists[j]|
    ensures var p := PtrAt(j, lists[j], n);
      && p == Ptr(j, lists[j][n]) && p in w.next && p in w.prev
      && Read(w.next, p) == PtrAt(j, lists[j], n + 1) && Read(w.prev, p) == PtrAt(j, lists[j], n - 1)
  {
    assert Linked(w.heads[j], w.next, w.prev, j, lists[j]);
  }

  lemma HoldsSize(w: Words, lists: seq<seq<nat>>)
    requires Holds(w, lists)
    ensures |w.heads| == |lists| == MAX_ORDER + 1
  {
  }

  lemma HeadHolds(w: Words, lists: seq<seq<nat>>, j: nat)
    requires Holds(w, lists) && j <= MAX_ORDER
    ensures j < |w.heads| && w.heads[j] == PtrAt(j, lists[j], 0)
  {
    assert Linked(w.heads[j], w.next, w.prev, j, lists[j]);
  }

  /** Unlinking a listed block. */
  lemma UnlinkAtHolds(w: Words, lists: seq<seq<nat>>, j: nat, x: nat)
    requires Holds(w, lists) && Distinct(lists) && j <= MAX_ORDER && x in lists[j]
    ensures Holds(UnlinkAt(w, j, Ptr(j, x)), lists[j := Without(lists[j], x)])
  {
    hide Ptr, Distinct, Without;
    var list := lists[j];
    var n: nat :| n < |list| && list[n] == x;
    var r := UnlinkAt(w, j, Ptr(j, x));
    ListedWords(w, lists, j, n);
    EntriesDistinct(lists, j);
    assert n > 0 ==> PtrAt(j, list, n - 1) != NULL && PtrAt(j, list, n - 1) != PtrAt(j, list, n);
    assert n + 1 < |list| ==> PtrAt(j, list, n + 1) != NULL && PtrAt(j, list, n + 1) != PtrAt(j, list, n);
    assert Linked(w.heads[j], w.next, w.prev, j, list);
    UnlinkKeepsWired(w.heads, w.next, w.prev, r.heads, r.next, r.prev, lists, j, n);
  }

  /** Putting a block in front of its list. */
  lemma PushAtHolds(w: Words, lists: seq<seq<nat>>, m: nat, i: nat)
    requires Holds(w, lists) && m <= MAX_ORDER && Distinct(lists) && Distinct(lists[m := [i] + lists[m]])
    ensures Holds(PushAt(w, m, Ptr(m, i)), lists[m := [i] + lists[m]])
  {
    hide Ptr, Distinct;
    var more := lists[m := [i] + lists[m]];
    var r := PushAt(w, m, Ptr(m, i));
    EntriesDistinct(more, m);
    assert Linked(w.heads[m], w.next, w.prev, m, lists[m]);
    assert PtrAt(m, more[m], 0) == Ptr(m, i) && PtrAt(m, more[m], 1) == PtrAt(m, lists[m], 0);
    PushKeepsWired(w.heads, w.next, w.prev, r.next, r.prev, lists, m, i);
  }

  /** On safe addresses every round unlinks the buddy of the merged block. */
  lemma {:induction false} UnlinkUpHolds(w: Words, s: State, f: iset<nat>, addr: nat, k: nat, rounded: bool) returns (u: State, g: iset<nat>)
    requires Holds(w, s.lists) && Inv(s, f) && Managed(f) && k <= MAX_ORDER && f !! Pages(k, BlockAt(addr, k))
    requires rounded || RawSafe(s, addr, k)
    ensures var m := MergeLevel(s, k, BlockAt(addr, k));
      && Shape(u) && Inv(u, g) && Managed(g) && Holds(UnlinkUp(w, addr, k, m, rounded), u.lists)
      && Release(s, k, BlockAt(addr, k)).lists == u.lists[m := [BlockAt(addr, m)] + u.lists[m]]
    decreases MAX_ORDER - k
  {
    hide Pow2, Size, Address, PageBuddy, BlockAt, Whole, Inv, Wired, BuddyUsed, UnlinkAt, Release, MergeLevel, Ptr;
    InvShape(s, f);
    HoldsSize(w, s.lists);
    var i, m := BlockAt(addr, k), MergeLevel(s, k, BlockAt(addr, k));
    if m == k {
      u, g := s, f;
      ReleaseAtMerge(s, k, i);
    } else {
      BuddyOfMerged(s, addr, k, k, rounded);
      BuddyListed(s, f, k, i);
      SafeAbove(s, addr, k);
      PtrOf(k, Sibling(i));
      UnlinkAtHolds(w, s.lists, k, Sibling(i));
      var t, h := MergeOnce(s, f, k, i);
      BlockUp(addr, k);
      SafeUp(s, t, addr, k);
      u, g := UnlinkUpHolds(UnlinkAt(w, k, BuddyUsed(addr, k, rounded) + OFFSET), t, h, addr, k + 1, rounded);
    }
  }

  lemma PtrOf(k: nat, i: nat)
    ensures Ptr(k, i) == Address(k, i) + OFFSET
  {
  }

  lemma SafeAbove(s: State, addr: nat, k: nat)
    requires Shape(s) && k <= MAX_ORDER && MergeLevel(s, k, BlockAt(addr, k)) > k
    ensures k < MAX_ORDER
  {
  }

  lemma SafeUp(s: State, t: State, addr: nat, k: nat)
    requires Shape(s) && Shape(t) && k < MAX_ORDER && MergeLevel(t, k + 1, BlockAt(addr, k) / 2) == MergeLevel(s, k, BlockAt(addr, k)) > k
    ensures RawSafe(s, addr, k) ==> RawSafe(t, addr, k + 1)
  {
  }

  /** The pointer a release finally lists. */
  lemma RoundedPtr(addr: nat, m: nat)
    ensures addr / Size(m) * Size(m) + OFFSET == Ptr(m, BlockAt(addr, m))
  {
    AddressIndex(addr, m);
  }

  /** A release whose buddies are those of the merged blocks leaves memory that spells out exactly the
      lists of the specified release. */
  lemma SafeReleaseHolds(w: Words, s: State, free: iset<nat>, addr: nat, k: nat, rounded: bool)
    requires Holds(w, s.lists) && Inv(s, free) && Managed(free) && k <= MAX_ORDER
    requires free !! Pages(k, BlockAt(addr, k)) && Managed(Pages(k, BlockAt(addr, k)))
    requires rounded || RawSafe(s, addr, k)
    ensures Holds(Released(w, addr, k, MergeLevel(s, k, BlockAt(addr, k)), rounded), Release(s, k, BlockAt(addr, k)).lists)
  {
    hide Pow2, Size, BlockAt, Whole, Inv, Wired, UnlinkUp, Release, MergeLevel, Ptr;
    InvShape(s, free);
    HoldsSize(w, s.lists);
    var i, m := BlockAt(addr, k), MergeLevel(s, k, BlockAt(addr, k));
    var u, g := UnlinkUpHolds(w, s, free, addr, k, rounded);
    InvDistinct(u, g);
    ReleaseCoalesces(s, free, k, i);
    InvDistinct(Release(s, k, i), free + Pages(k, i));
    RoundedPtr(addr, m);
    PushAtHolds(UnlinkUp(w, addr, k, m, rounded), u.lists, m, BlockAt(addr, m));
  }

  // ---------------------------------------------------------------- unsafe releases

  ghost predicate ListedAt(lists: seq<seq<nat>>, p: int, k: nat, n: nat) {
    k < |lists| && n < |lists[k]| && Ptr(k, lists[k][n]) == p
  }

  ghost predicate IsListed(lists: seq<seq<nat>>, p: int) {
    exists k: nat, n: nat :: ListedAt(lists, p, k, n)
  }

  /** p starts a block on the order-j list. */
  ghost predicate OnList(lists: seq<seq<nat>>, j: nat, p: int) {
    exists n: nat :: ListedAt(lists, p, j, n)
  }

  /** Every page on no list holds words that point to the page itself, or were cleared. */
  ghost predicate SelfOrClear(w: Words, lists: seq<seq<nat>>) {
    forall p: int :: !IsListed(lists, p) ==>
      (Read(w.next, p) == p || Read(w.next, p) == 0) && (Read(w.prev, p) == p || Read(w.prev, p) == 0)
  }

  ghost function NextWord(lists: seq<seq<nat>>, p: int): int {
    if IsListed(lists, p) then var k: nat, n: nat :| ListedAt(lists, p, k, n); PtrAt(k, lists[k], n + 1) else p
  }

  ghost function PrevWord(lists: seq<seq<nat>>, p: int): int {
    if IsListed(lists, p) then var k: nat, n: nat :| ListedAt(lists, p, k, n); PtrAt(k, lists[k], n - 1) else p
  }

  /** Memory that spells out the lists and in which every other pointer points to itself. */
  ghost function SelfWords(lists: seq<seq<nat>>): (w: Words)
    requires |lists| == MAX_ORDER + 1
    ensures |w.heads| == MAX_ORDER + 1
  {
    Words(seq(MAX_ORDER + 1, k requires 0 <= k < MAX_ORDER + 1 => PtrAt(k, lists[k], 0)),
          map p: int | OFFSET <= p < OFFSET + 0x7000_0000 :: NextWord(lists, p),
          map p: int | OFFSET <= p < OFFSET + 0x7000_0000 :: PrevWord(lists, p))
  }

  lemma ListedOnce(lists: seq<seq<nat>>, p: int, k: nat, n: nat, l: nat, m: nat)
    requires |lists| == MAX_ORDER + 1 && Distinct(lists) && ListedAt(lists, p, k, n) && ListedAt(lists, p, l, m)
    ensures k == l && n == m
  {
    assert lists[k][n] in lists[k] && lists[l][m] in lists[l];
    if k == l {
      AddressInjective(k, lists[k][n], lists[l][m]);
    }
  }

  lemma SelfWordsHold(lists: seq<seq<nat>>)
    requires |lists| == MAX_ORDER + 1 && Distinct(lists)
    requires forall k: nat, i: nat :: k <= MAX_ORDER && i in lists[k] ==> Address(k, i) < 0x7000_0000
    ensures Holds(SelfWords(lists), lists) && SelfOrClear(SelfWords(lists), lists)
  {
    hide Ptr, NextWord, PrevWord;
    var w := SelfWords(lists);
    forall k: nat | k <= MAX_ORDER
      ensures Linked(w.heads[k], w.next, w.prev, k, lists[k])
    {
      SelfWordsLinked(lists, k);
    }
    SelfWordsSelf(lists);
  }

  lemma SelfWordsLinked(lists: seq<seq<nat>>, k: nat)
    requires |lists| == MAX_ORDER + 1 && Distinct(lists) && k <= MAX_ORDER
    requires forall i: nat :: i in lists[k] ==> Address(k, i) < 0x7000_0000
    ensures var w := SelfWords(lists); Linked(w.heads[k], w.next, w.prev, k, lists[k])
  {
    hide NextWord, PrevWord, Distinct, Ptr, PtrAt;
    var w := SelfWords(lists);
    forall n: nat | n < |lists[k]|
      ensures PtrAt(k, lists[k], n) in w.next && w.next[PtrAt(k, lists[k], n)] == PtrAt(k, lists[k], n + 1)
      ensures PtrAt(k, lists[k], n) in w.prev && w.prev[PtrAt(k, lists[k], n)] == PtrAt(k, lists[k], n - 1)
    {
      PtrOf(k, lists[k][n]);
      PtrAtOf(k, lists[k], n);
      assert lists[k][n] in lists[k];
      ListedSelfWord(lists, k, n);
    }
    assert w.heads[k] == PtrAt(k, lists[k], 0);
  }

  lemma PtrAtOf(k: nat, list: seq<nat>, n: nat)
    requires n < |list|
    ensures PtrAt(k, list, n) == Ptr(k, list[n])
  {
  }

  lemma ListedSelfWord(lists: seq<seq<nat>>, k: nat, n: nat)
    requires |lists| == MAX_ORDER + 1 && Distinct(lists) && k <= MAX_ORDER && n < |lists[k]|
    ensures var p := PtrAt(k, lists[k], n);
      NextWord(lists, p) == PtrAt(k, lists[k], n + 1) && PrevWord(lists, p) == PtrAt(k, lists[k], n - 1)
  {
    hide Distinct, Ptr;
    var p := PtrAt(k, lists[k], n);
    assert ListedAt(lists, p, k, n);
    forall l: nat, m: nat | ListedAt(lists, p, l, m)
      ensures l == k && m == n
    {
      ListedOnce(lists, p, k, n, l, m);
    }
  }

  lemma SelfWordsSelf(lists: seq<seq<nat>>)
    requires |lists| == MAX_ORDER + 1
    ensures SelfOrClear(SelfWords(lists), lists)
  {
  }

  /** Unlinking a listed block clears its words and keeps the others. */
  lemma UnlinkAtSelf(w: Words, lists: seq<seq<nat>>, j: nat, x: nat)
    requires Holds(w, lists) && Distinct(lists) && j <= MAX_ORDER && x in lists[j] && SelfOrClear(w, lists)
    ensures SelfOrClear(UnlinkAt(w, j, Ptr(j, x)), lists[j := Without(lists[j], x)])
  {
    hide Ptr, Wired, UnlinkAt, Distinct;
    HoldsSize(w, lists);
    var less := lists[j := Without(lists[j], x)];
    var n: nat :| n < |lists[j]| && lists[j][n] == x;
    ListedWords(w, lists, j, n);
    DistinctNoDup(lists, j);
    var b := Ptr(j, x);
    forall p: int | !IsListed(less, p)
      ensures var r := UnlinkAt(w, j, b);
        (Read(r.next, p) == p || Read(r.next, p) == 0) && (Read(r.prev, p) == p || Read(r.prev, p) == 0)
    {
      UnlinkAtWords(w, j, b, p);
      if p != b {
        if k: nat, m: nat :| ListedAt(lists, p, k, m) {
          StillListed(lists, j, x, p, k, m);
        }
        assert n > 0 ==> ListedAt(lists, PtrAt(j, lists[j], n - 1), j, n - 1);
        assert n + 1 < |lists[j]| ==> ListedAt(lists, PtrAt(j, lists[j], n + 1), j, n + 1);
      }
    }
  }

  lemma DistinctNoDup(lists: seq<seq<nat>>, j: nat)
    requires |lists| == MAX_ORDER + 1 && Distinct(lists) && j <= MAX_ORDER
    ensures NoDup(lists[j])
  {
  }

  lemma StillListed(lists: seq<seq<nat>>, j: nat, x: nat, p: int, k: nat, m: nat)
    requires |lists| == MAX_ORDER + 1 && j <= MAX_ORDER && NoDup(lists[j]) && ListedAt(lists, p, k, m) && p != Ptr(j, x)
    ensures IsListed(lists[j := Without(lists[j], x)], p)
  {
    var less := lists[j := Without(lists[j], x)];
    WithoutFacts(lists[j], x);
    if k == j {
      var y := lists[k][m];
      assert y in less[j];
      var i: nat :| i < |less[j]| && less[j][i] == y;
      assert ListedAt(less, p, j, i);
    } else {
      assert ListedAt(less, p, k, m);
    }
  }

  // ---------------------------------------------------------------- the strays

  /** From order j on, where the address is not aligned, every round unlinks a stray pointer. */
  function Stray(addr: nat, i: nat): int {
    addr - Size(i) + OFFSET
  }

  lemma StrayFacts(addr: nat, j: nat, i: nat)
    requires j <= i && !Aligned(addr, j)
    ensures BuddyUsed(addr, i, false) + OFFSET == Stray(addr, i)
    ensures forall l: nat, x: nat :: l >= j ==> Ptr(l, x) != Stray(addr, i)
    ensures j < i ==> Stray(addr, i) != Stray(addr, j)
  {
    if Aligned(addr, i + 1) {
      AlignedBelow(addr, j, i + 1);
    }
    forall l: nat, x: nat | l >= j
      ensures Ptr(l, x) != Stray(addr, i)
    {
      MultipleAbove(j, l, x);
      MultipleAbove(j, i, 1);
      SumOfMultiples(Address(l, x), Size(i), Size(j));
    }
    if j < i {
      Pow2Monotone(j + 1, i);
    }
  }

  lemma MultipleAbove(j: nat, l: nat, x: nat)
    requires j <= l
    ensures Address(l, x) % Size(j) == 0
  {
    AddressBlock(l, x);
    AlignedBelow(Address(l, x), j, l);
  }

  lemma SumOfMultiples(a: nat, b: nat, d: nat)
    requires d >= 1 && a % d == 0 && b % d == 0
    ensures (a + b) % d == 0
  {
    assert a == a / d * d && b == b / d * d;
    assert (a / d + b / d) * d == a / d * d + b / d * d;
    DivUnique(a + b, d, a / d + b / d, 0);
  }

  /** List j as it was, from its head or from wherever its head now points, and no word elsewhere
      leads into it. */
  ghost predicate Untouched(w: Words, lists: seq<seq<nat>>, j: nat)
    requires j < |lists|
  {
    && (forall n: nat :: n < |lists[j]| ==> Read(w.next, PtrAt(j, lists[j], n)) == PtrAt(j, lists[j], n + 1))
    && (forall p: int :: !OnList(lists, j, p) ==> !OnList(lists, j, Read(w.next, p)) && !OnList(lists, j, Read(w.prev, p)))
  }

  lemma StartsUntouched(w: Words, lists: seq<seq<nat>>, j: nat)
    requires Holds(w, lists) && Distinct(lists) && j <= MAX_ORDER && SelfOrClear(w, lists)
    ensures Untouched(w, lists, j)
  {
    hide Ptr, Wired, Distinct;
    HoldsSize(w, lists);
    forall n: nat | n < |lists[j]|
      ensures Read(w.next, PtrAt(j, lists[j], n)) == PtrAt(j, lists[j], n + 1)
    {
      ListedWords(w, lists, j, n);
    }
    forall p: int | !OnList(lists, j, p)
      ensures !OnList(lists, j, Read(w.next, p)) && !OnList(lists, j, Read(w.prev, p))
    {
      OutsideLeadsOutside(w, lists, j, p);
    }
  }

  lemma NeverOnList(lists: seq<seq<nat>>, j: nat)
    requires |lists| == MAX_ORDER + 1 && Distinct(lists) && j <= MAX_ORDER
    ensures !OnList(lists, j, NULL) && !OnList(lists, j, 0)
  {
    forall n: nat | n < |lists[j]|
      ensures Ptr(j, lists[j][n]) != NULL && Ptr(j, lists[j][n]) != 0
    {
      assert lists[j][n] in lists[j];
    }
  }

  lemma OutsideLeadsOutside(w: Words, lists: seq<seq<nat>>, j: nat, p: int)
    requires Holds(w, lists) && Distinct(lists) && j <= MAX_ORDER && SelfOrClear(w, lists) && !OnList(lists, j, p)
    ensures j < |lists| && !OnList(lists, j, Read(w.next, p)) && !OnList(lists, j, Read(w.prev, p))
  {
    hide Ptr, Wired, Distinct;
    HoldsSize(w, lists);
    NeverOnList(lists, j);
    if l: nat, m: nat :| ListedAt(lists, p, l, m) {
      ListedWords(w, lists, l, m);
      OtherList(lists, j, l, m - 1);
      OtherList(lists, j, l, m + 1);
    }
  }

  lemma OtherList(lists: seq<seq<nat>>, j: nat, l: nat, m: int)
    requires |lists| == MAX_ORDER + 1 && Distinct(lists) && j <= MAX_ORDER && l <= MAX_ORDER && j != l
    ensures !OnList(lists, j, PtrAt(l, lists[l], m))
  {
    NeverOnList(lists, j);
    forall n: nat | n < |lists[j]| && 0 <= m < |lists[l]|
      ensures Ptr(j, lists[j][n]) != Ptr(l, lists[l][m])
    {
      assert lists[j][n] in lists[j] && lists[l][m] in lists[l];
    }
  }

  /** A round at a pointer that is not on list j. */
  lemma StrayRound(w: Words, lists: seq<seq<nat>>, j: nat, i: nat, b: int)
    requires |lists| == MAX_ORDER + 1 && Distinct(lists) && j <= MAX_ORDER && i < |w.heads| && Untouched(w, lists, j) && !OnList(lists, j, b)
    ensures Untouched(UnlinkAt(w, i, b), lists, j)
  {
    hide Ptr, Distinct, UnlinkAt;
    var r := UnlinkAt(w, i, b);
    NeverOnList(lists, j);
    forall n: nat | n < |lists[j]|
      ensures Read(r.next, PtrAt(j, lists[j], n)) == PtrAt(j, lists[j], n + 1)
    {
      assert ListedAt(lists, PtrAt(j, lists[j], n), j, n);
      UnlinkAtWords(w, i, b, PtrAt(j, lists[j], n));
    }
    forall p: int | !OnList(lists, j, p)
      ensures !OnList(lists, j, Read(r.next, p)) && !OnList(lists, j, Read(r.prev, p))
    {
      UnlinkAtWords(w, i, b, p);
    }
  }

  /** The head of list l is a page whose words were cleared, and nothing links back to it. */
  ghost predicate Dangling(w: Words, l: nat, b: int) {
    l < |w.heads| && w.heads[l] == b && b != 0 && b != NULL && Read(w.next, b) == 0 && forall p: int :: Read(w.prev, p) != b
  }

  lemma DanglingRound(w: Words, l: nat, b: int, i: nat, c: int)
    requires Dangling(w, l, b) && i < |w.heads| && i != l && c != b
    ensures Dangling(UnlinkAt(w, i, c), l, b)
  {
    hide UnlinkAt;
    UnlinkAtHeads(w, i, c);
    forall p: int
      ensures Read(UnlinkAt(w, i, c).prev, p) != b
    {
      UnlinkAtWords(w, i, c, p);
    }
    UnlinkAtWords(w, i, c, b);
  }

  lemma UnlinkAtHeads(w: Words, i: nat, b: int)
    requires i < |w.heads|
    ensures UnlinkAt(w, i, b).heads == if Read(w.prev, b) == NULL then w.heads[i := Read(w.next, b)] else w.heads
  {
  }

  /** The first stray round either leaves the head of list j alone, or clears the head of another list. */
  lemma FirstStray(w: Words, lists: seq<seq<nat>>, j: nat, b: int)
    requires Holds(w, lists) && Distinct(lists) && j <= MAX_ORDER && SelfOrClear(w, lists) && b != NULL && b != 0
    requires forall l: nat, x: nat :: l >= j ==> Ptr(l, x) != b
    ensures |w.heads| == MAX_ORDER + 1
    ensures var r := UnlinkAt(w, j, b); r.heads[j] == w.heads[j] || exists l: nat :: l < j && Dangling(r, l, b)
  {
    hide Wired, Distinct, UnlinkAt;
    HoldsSize(w, lists);
    UnlinkAtHeads(w, j, b);
    if Read(w.prev, b) == NULL {
      assert IsListed(lists, b);
      var l: nat, n: nat :| ListedAt(lists, b, l, n);
      ListedWords(w, lists, l, n);
      EntriesDistinct(lists, l);
      assert n == 0;
      HeadHolds(w, lists, l);
      NothingLinksToHead(w, lists, l, b);
      forall p: int
        ensures Read(UnlinkAt(w, j, b).prev, p) != b
      {
        UnlinkAtWords(w, j, b, p);
      }
      UnlinkAtWords(w, j, b, b);
      assert Dangling(UnlinkAt(w, j, b), l, b);
    }
  }

  /** Only the second entry of a list links back to its head. */
  lemma NothingLinksToHead(w: Words, lists: seq<seq<nat>>, l: nat, b: int)
    requires Holds(w, lists) && Distinct(lists) && SelfOrClear(w, lists) && ListedAt(lists, b, l, 0) && b != 0
    ensures forall p: int :: p != b && Read(w.prev, p) == b ==> p == Read(w.next, b) && p != NULL
  {
    hide Wired, Distinct, Ptr;
    HoldsSize(w, lists);
    ListedWords(w, lists, l, 0);
    forall p: int | p != b && Read(w.prev, p) == b
      ensures p == Read(w.next, b) && p != NULL
    {
      assert IsListed(lists, p);
      var k: nat, n: nat :| ListedAt(lists, p, k, n);
      ListedWords(w, lists, k, n);
      EntriesDistinct(lists, k);
      EntriesDistinct(lists, l);
      assert n > 0;
      assert ListedAt(lists, b, k, n - 1);
      ListedOnce(lists, b, k, n - 1, l, 0);
    }
  }

  lemma NotOnList(lists: seq<seq<nat>>, j: nat, b: int)
    requires forall l: nat, x: nat :: l >= j ==> Ptr(l, x) != b
    ensures !OnList(lists, j, b)
  {
  }

  /** The rounds after the first stray one leave list j alone. */
  lemma {:induction false} StraysUntouched(w: Words, lists: seq<seq<nat>>, addr: nat, j: nat, i: nat, m: nat)
    requires |lists| == MAX_ORDER + 1 && Distinct(lists) && j < MAX_ORDER && !Aligned(addr, j) && Untouched(w, lists, j)
    requires j < i && m <= MAX_ORDER && |w.heads| == MAX_ORDER + 1
    ensures var r := UnlinkUp(w, addr, i, m, false); Untouched(r, lists, j) && r.heads[j] == w.heads[j]
    decreases m - i
  {
    hide Size, Distinct, Untouched, UnlinkAt, BuddyUsed, Stray, Ptr, Aligned;
    if i < m {
      var b := Stray(addr, i);
      StrayFacts(addr, j, i);
      NotOnList(lists, j, b);
      StrayRound(w, lists, j, i, b);
      UnlinkAtHeads(w, i, b);
      StraysUntouched(UnlinkAt(w, i, b), lists, addr, j, i + 1, m);
    }
  }

  /** Nor do they repair a dangling head. */
  lemma {:induction false} StraysDangling(w: Words, l: nat, addr: nat, j: nat, i: nat, m: nat)
    requires Dangling(w, l, Stray(addr, j)) && !Aligned(addr, j) && l < j < i && m <= |w.heads|
    ensures Dangling(UnlinkUp(w, addr, i, m, false), l, Stray(addr, j))
    decreases m - i
  {
    hide Size, Dangling, UnlinkAt, BuddyUsed, Stray, Ptr, Aligned;
    if i < m {
      StrayFacts(addr, j, i);
      DanglingRound(w, l, Stray(addr, j), i, Stray(addr, i));
      StraysDangling(UnlinkAt(w, i, Stray(addr, i)), l, addr, j, i + 1, m);
    }
  }

  lemma DanglingIsWrong(w: Words, l: nat, b: int, m: nat, block: int, lists: seq<seq<nat>>)
    requires Dangling(w, l, b) && l < m < |w.heads| && block != b
    ensures !Holds(PushAt(w, m, block), lists)
  {
    HeadNotCleared(PushAt(w, m, block), lists, l);
  }

  /** The first page of a list never has a cleared link. */
  lemma HeadNotCleared(w: Words, lists: seq<seq<nat>>, l: nat)
    requires l < |w.heads|
    ensures Holds(w, lists) ==> w.heads[l] == NULL || Read(w.next, w.heads[l]) != 0
  {
    if Holds(w, lists) {
      HeadHolds(w, lists, l);
      if w.heads[l] != NULL {
        ListedWords(w, lists, l, 0);
        assert PtrAt(l, lists[l], 1) != 0;
      }
    }
  }

  /** Lists whose heads and first links agree have the same entries there. */
  lemma {:induction false} SamePrefix(w: Words, lists: seq<seq<nat>>, list: seq<nat>, j: nat, n: nat)
    requires Holds(w, lists) && j <= MAX_ORDER && n < |list| && w.heads[j] == PtrAt(j, list, 0)
    requires forall i: nat :: i < n ==> Read(w.next, PtrAt(j, list, i)) == PtrAt(j, list, i + 1)
    requires forall i: nat :: i <= n ==> Ptr(j, list[i]) != NULL
    ensures n < |lists[j]| && lists[j][n] == list[n]
    decreases n
  {
    hide Ptr, Wired;
    HoldsSize(w, lists);
    if n == 0 {
      HeadHolds(w, lists, j);
    } else {
      SamePrefix(w, lists, list, j, n - 1);
      ListedWords(w, lists, j, n - 1);
      assert Read(w.next, PtrAt(j, list, n - 1)) == PtrAt(j, list, n);
    }
    assert PtrAt(j, lists[j], n) == Ptr(j, list[n]);
    PtrOf(j, list[n]);
    if n < |lists[j]| {
      PtrOf(j, lists[j][n]);
      AddressInjective(j, list[n], lists[j][n]);
    }
  }

  /** The first entry of list j up to n whose own words the final push overwrites, or entry n. */
  function FirstHit(list: seq<nat>, j: nat, n: nat, block: int): (h: nat)
    requires n < |list|
    ensures h <= n && (h == n || Ptr(j, list[h]) == block) && forall i: nat :: i < h ==> Ptr(j, list[i]) != block
    decreases n
  {
    if n == 0 then 0
    else
      var h := FirstHit(list, j, n - 1, block);
      if h < n - 1 || Ptr(j, list[h]) == block then h else n
  }

  lemma {:induction false} MergedWhole(s: State, free: iset<nat>, addr: nat, k: nat)
    requires Inv(s, free) && k <= MAX_ORDER && free !! Pages(k, BlockAt(addr, k))
    ensures var m := MergeLevel(s, k, BlockAt(addr, k)); Whole(free + Pages(k, BlockAt(addr, k)), m, BlockAt(addr, m))
    decreases MAX_ORDER - k
  {
    var i := BlockAt(addr, k);
    if MergeLevel(s, k, i) > k {
      MergeStep(s, free, k, i);
      MergeLevelUp(s, k, i, Without(s.lists[k], Sibling(i)));
      MergedWhole(Merged(s, k, i), free - Pages(k, Sibling(i)), addr, k + 1);
    }
  }

  /** A block that starts at the merged block, or is the buddy merged at order j, cannot be listed. */
  lemma InsideMerged(free: iset<nat>, addr: nat, j: nat, m: nat, x: nat)
    requires j < m <= MAX_ORDER && Whole(free, m, BlockAt(addr, m))
    requires x == Sibling(BlockAt(addr, j)) || Address(j, x) == Address(m, BlockAt(addr, m))
    ensures !Maximal(free, j, x)
  {
    var p := Address(j, x) / PAGE_SIZE;
    AddressBlock(j, x);
    if Address(j, x) == Address(m, BlockAt(addr, m)) {
      AddressBlock(m, BlockAt(addr, m));
    } else {
      SiblingFacts(BlockAt(addr, j));
      Nested(j + 1, m, p, addr / PAGE_SIZE);
    }
    MaximalOutermost(free, j, m, p);
  }

  /** With list j left alone up to the final push, its merged buddy is still listed afterwards. */
  lemma UntouchedIsWrong(w: Words, lists: seq<seq<nat>>, free: iset<nat>, addr: nat, j: nat, m: nat, after: seq<seq<nat>>, bits: seq<set<nat>>)
    requires |lists| == MAX_ORDER + 1 && Distinct(lists) && j < m <= MAX_ORDER && |w.heads| == MAX_ORDER + 1
    requires Untouched(w, lists, j) && w.heads[j] == PtrAt(j, lists[j], 0) && Sibling(BlockAt(addr, j)) in lists[j]
    requires Whole(free, m, BlockAt(addr, m))
    ensures !(Holds(PushAt(w, m, Ptr(m, BlockAt(addr, m))), after) && Inv(State(after, bits), free))
  {
    hide Wired, Distinct, BlockAt, Address, Size, Whole, Maximal, Inv;
    var q, block := Sibling(BlockAt(addr, j)), Ptr(m, BlockAt(addr, m));
    var r := PushAt(w, m, block);
    var n: nat :| n < |lists[j]| && lists[j][n] == q;
    var h := FirstHit(lists[j], j, n, block);
    EntriesDistinct(lists, j);
    forall i: nat | i <= h
      ensures Ptr(j, lists[j][i]) == PtrAt(j, lists[j], i) != NULL
    {
    }
    if Holds(r, after) && Inv(State(after, bits), free) {
      HoldsSize(r, after);
      SamePrefix(r, after, lists[j], j, h);
      PtrOf(j, lists[j][h]);
      PtrOf(m, BlockAt(addr, m));
      InsideMerged(free, addr, j, m, lists[j][h]);
      ListedIsMaximal(State(after, bits), free, j, lists[j][h]);
    }
  }

  lemma ListedIsMaximal(s: State, free: iset<nat>, j: nat, x: nat)
    requires Inv(s, free) && j <= MAX_ORDER && x in s.lists[j]
    ensures Maximal(free, j, x)
  {
  }

  /** From the first order its address is not aligned to on, a release as written spoils memory in
      which every page on no list points to itself. */
  lemma StraysAreWrong(w: Words, s: State, f: iset<nat>, addr: nat, k: nat, bits: seq<set<nat>>)
    requires Holds(w, s.lists) && SelfOrClear(w, s.lists) && Inv(s, f) && Managed(f) && k <= MAX_ORDER
    requires f !! Pages(k, BlockAt(addr, k)) && addr < 0x7000_0000
    requires MergeLevel(s, k, BlockAt(addr, k)) > k && !Aligned(addr, k)
    ensures |w.heads| == MAX_ORDER + 1
    ensures !Right(Released(w, addr, k, MergeLevel(s, k, BlockAt(addr, k)), false), bits, f + Pages(k, BlockAt(addr, k)))
  {
    hide Pow2, Size, Address, PageBuddy, BlockAt, Whole, Inv, Wired, BuddyUsed, UnlinkAt, UnlinkUp, PushAt, Release, MergeLevel, Ptr, Distinct, Untouched, Dangling, SelfOrClear, Aligned;
    InvShape(s, f);
    HoldsSize(w, s.lists);
    var i, m, b := BlockAt(addr, k), MergeLevel(s, k, BlockAt(addr, k)), Stray(addr, k);
    var g := f + Pages(k, i);
    BuddyListed(s, f, k, i);
    MergedWhole(s, f, addr, k);
    StrayFacts(addr, k, k);
    StrayProper(addr, k);
    NotOnList(s.lists, k, b);
    StartsUntouched(w, s.lists, k);
    StrayRound(w, s.lists, k, k, b);
    FirstStray(w, s.lists, k, b);
    HeadHolds(w, s.lists, k);
    UnlinkUpStep(w, addr, k, m);
    RoundedPtr(addr, m);
    var w1 := UnlinkAt(w, k, b);
    forall lists: seq<seq<nat>>
      ensures !(Holds(Released(w, addr, k, m, false), lists) && Inv(State(lists, bits), g))
    {
      if w1.heads[k] == w.heads[k] {
        StraysUntouched(w1, s.lists, addr, k, k + 1, m);
        UntouchedIsWrong(UnlinkUp(w1, addr, k + 1, m, false), s.lists, g, addr, k, m, lists, bits);
      } else {
        var l: nat :| l < k && Dangling(w1, l, b);
        StraysDangling(w1, l, addr, k, k + 1, m);
        DanglingIsWrong(UnlinkUp(w1, addr, k + 1, m, false), l, b, m, Ptr(m, BlockAt(addr, m)), lists);
      }
    }
  }

  lemma StrayProper(addr: nat, k: nat)
    requires addr < 0x7000_0000 && k <= MAX_ORDER
    ensures Stray(addr, k) != 0 && Stray(addr, k) != NULL
  {
    Pow2Monotone(k, MAX_ORDER);
    PowOfTen();
  }

  lemma PowOfTen()
    ensures Pow2(MAX_ORDER) == 1024
  {
    assert Pow2(5) == 32;
  }

  lemma UnlinkUpStep(w: Words, addr: nat, k: nat, m: nat)
    requires k < m <= |w.heads|
    ensures UnlinkUp(w, addr, k, m, false) == UnlinkUp(UnlinkAt(w, k, BuddyUsed(addr, k, false) + OFFSET), addr, k + 1, m, false)
  {
  }

  /** A round at an order the address is aligned to unlinks the buddy of the merged block. */
  lemma AlignedRound(w: Words, s: State, f: iset<nat>, addr: nat, k: nat) returns (t: State, g: iset<nat>)
    requires Holds(w, s.lists) && SelfOrClear(w, s.lists) && Inv(s, f) && Managed(f) && k <= MAX_ORDER
    requires f !! Pages(k, BlockAt(addr, k)) && MergeLevel(s, k, BlockAt(addr, k)) > k && Aligned(addr, k)
    ensures k < MAX_ORDER && |w.heads| == MAX_ORDER + 1
    ensures var w1 := UnlinkAt(w, k, BuddyUsed(addr, k, false) + OFFSET);
      && Inv(t, g) && Managed(g) && g !! Pages(k + 1, BlockAt(addr, k + 1)) && Holds(w1, t.lists) && SelfOrClear(w1, t.lists)
      && g + Pages(k + 1, BlockAt(addr, k + 1)) == f + Pages(k, BlockAt(addr, k))
      && MergeLevel(t, k + 1, BlockAt(addr, k + 1)) == MergeLevel(s, k, BlockAt(addr, k))
  {
    hide Pow2, Size, Address, PageBuddy, Whole, Inv, Wired, UnlinkAt, Release, MergeLevel, Ptr, Distinct, SelfOrClear, Index;
    InvShape(s, f);
    HoldsSize(w, s.lists);
    SafeAbove(s, addr, k);
    var i := BlockAt(addr, k);
    BlockUp(addr, k);
    BuddyIffAligned(addr, k);
    PtrOf(k, Sibling(i));
    BuddyListed(s, f, k, i);
    UnlinkAtHolds(w, s.lists, k, Sibling(i));
    UnlinkAtSelf(w, s.lists, k, Sibling(i));
    t, g := MergeOnce(s, f, k, i);
  }

  lemma {:induction false} UnsafeIsWrong(w: Words, s: State, f: iset<nat>, addr: nat, k: nat, bits: seq<set<nat>>)
    requires Holds(w, s.lists) && SelfOrClear(w, s.lists) && Inv(s, f) && Managed(f) && k <= MAX_ORDER
    requires f !! Pages(k, BlockAt(addr, k)) && addr < 0x7000_0000
    requires MergeLevel(s, k, BlockAt(addr, k)) > k && !Aligned(addr, MergeLevel(s, k, BlockAt(addr, k)) - 1)
    ensures |w.heads| == MAX_ORDER + 1
    ensures !Right(Released(w, addr, k, MergeLevel(s, k, BlockAt(addr, k)), false), bits, f + Pages(k, BlockAt(addr, k)))
    decreases MAX_ORDER - k
  {
    hide Pow2, Size, Address, PageBuddy, BlockAt, Whole, Inv, Wired, BuddyUsed, UnlinkAt, Release, MergeLevel, Ptr, Distinct, SelfOrClear, Right, Aligned, PushAt;
    InvShape(s, f);
    HoldsSize(w, s.lists);
    if Aligned(addr, k) {
      var t, g := AlignedRound(w, s, f, addr, k);
      InvShape(t, g);
      UnsafeIsWrong(UnlinkAt(w, k, BuddyUsed(addr, k, false) + OFFSET), t, g, addr, k + 1, bits);
    } else {
      StraysAreWrong(w, s, f, addr, k, bits);
    }
  }

  /** Release as written is right whatever the words of pages on no list hold, if and only if it
      merges nothing or its address is aligned to the last order it merges at.  Otherwise it is wrong
      when those words point to their own page. */
  lemma RawRightIffAligned(s: State, free: iset<nat>, addr: nat, k: nat)
    requires Inv(s, free) && Managed(free) && k <= MAX_ORDER
    requires free !! Pages(k, BlockAt(addr, k)) && Managed(Pages(k, BlockAt(addr, k)))
    ensures var i := BlockAt(addr, k);
      var m, after, g := MergeLevel(s, k, i), Release(s, k, i), free + Pages(k, i);
      && ((forall w: Words :: Holds(w, s.lists) ==> Right(Released(w, addr, k, m, false), after.bits, g)) <==> RawSafe(s, addr, k))
      && (!RawSafe(s, addr, k) ==> Holds(SelfWords(s.lists), s.lists) && !Right(Released(SelfWords(s.lists), addr, k, m, false), after.bits, g))
  {
    hide Pow2, Size, Address, PageBuddy, BlockAt, Whole, Inv, Holds, SelfWords, Release, MergeLevel, Ptr, SelfOrClear, Released, Distinct;
    InvShape(s, free);
    var i := BlockAt(addr, k);
    if RawSafe(s, addr, k) {
      forall w: Words | Holds(w, s.lists)
        ensures |w.heads| == MAX_ORDER + 1
        ensures Right(Released(w, addr, k, MergeLevel(s, k, i), false), Release(s, k, i).bits, free + Pages(k, i))
      {
        HoldsSize(w, s.lists);
        SafeReleaseHolds(w, s, free, addr, k, false);
        ReleaseCoalesces(s, free, k, i);
      }
    } else {
      InvDistinct(s, free);
      ListedInRange(s, free);
      SelfWordsHold(s.lists);
      ManagedAddress(addr, k);
      UnsafeIsWrong(SelfWords(s.lists), s, free, addr, k, Release(s, k, i).bits);
    }
  }

  lemma ListedInRange(s: State, free: iset<nat>)
    requires Inv(s, free) && Managed(free)
    ensures forall k: nat, i: nat :: k <= MAX_ORDER && i in s.lists[k] ==> Address(k, i) < 0x7000_0000
  {
    forall k: nat, i: nat | k <= MAX_ORDER && i in s.lists[k]
      ensures Address(k, i) < 0x7000_0000
    {
      PtrInRange(free, k, i);
    }
  }

  lemma ManagedAddress(addr: nat, k: nat)
    requires Managed(Pages(k, BlockAt(addr, k)))
    ensures addr < 0x7000_0000
  {
    assert addr / PAGE_SIZE in Pages(k, BlockAt(addr, k));
  }

  /** Giving a block straight back is safe as written, and undoes the acquisition exactly: memory spells
      out all lists as they were, in order, and the bits are as they were. */
  lemma AcquireThenReleaseRaw(w: Words, s: State, free: iset<nat>, k: nat)
    requires Inv(s, free) && Managed(free) && k <= MAX_ORDER && Acquire(s, k).0.Some? && Holds(w, Acquire(s, k).1.lists)
    ensures var (b, t) := Acquire(s, k);
      var addr := Address(k, b.value);
      && RawSafe(t, addr, k)
      && Holds(Released(w, addr, k, MergeLevel(t, k, b.value), false), s.lists) && Release(t, k, b.value).bits == s.bits
  {
    hide Pow2, Size, Address, Index, BlockAt, Inv, Wired, Acquire, Release, MergeLevel, Released;
    InvShape(s, free);
    var (b, t) := Acquire(s, k);
    var addr := Address(k, b.value);
    AddressBlock(k, b.value);
    AcquireExact(s, free, k);
    AcquiredAligned(s, free, k);
    SafeWhenAligned(t, addr, k);
    AcquireThenRelease(s, free, k);
    SafeReleaseHolds(w, t, free - Pages(k, b.value), addr, k, false);
  }

  lemma SafeWhenAligned(s: State, addr: nat, k: nat)
    requires Shape(s) && k <= MAX_ORDER && Aligned(addr, MergeLevel(s, k, BlockAt(addr, k)))
    ensures RawSafe(s, addr, k)
  {
    var m := MergeLevel(s, k, BlockAt(addr, k));
    if m > k {
      AlignedBelow(addr, m - 1, m);
    }
  }
}
