/** The buddy allocator on values: per order a list of free blocks and the buddy pairs whose bit is
    on.  The lists hold the maximal whole blocks of the free pages. */
module Buddy {
  import opened Blocks
  import opened Options

  datatype State = State(lists: seq<seq<nat>>, bits: seq<set<nat>>)

  predicate Shape(s: State) {
    |s.lists| == MAX_ORDER + 1 && |s.bits| == MAX_ORDER + 1
  }

  const EMPTY := State(seq(MAX_ORDER + 1, _ => []), seq(MAX_ORDER + 1, _ => {}))

  function Toggle(b: set<nat>, n: nat): set<nat> {
    if n in b then b - {n} else b + {n}
  }

  /** The sequence with the first occurrence of x unlinked. */
  function Without(xs: seq<nat>, x: nat): seq<nat> {
    if xs == [] then [] else if xs[0] == x then xs[1..] else [xs[0]] + Without(xs[1..], x)
  }

  ghost predicate NoDup(xs: seq<nat>) {
    forall m, n :: 0 <= m < n < |xs| ==> xs[m] != xs[n]
  }

  /** Release of block (k, i): toggle the pair bit; if the bit is now off the buddy is listed, so
      unlink it and release the merged block one order up, otherwise list the block. */
  function Release(s: State, k: nat, i: nat): (r: State)
    requires Shape(s) && k <= MAX_ORDER
    ensures Shape(r)
    decreases MAX_ORDER - k
  {
    var bits := s.bits[k := Toggle(s.bits[k], i / 2)];
    if k == MAX_ORDER || i / 2 in bits[k] then
      State(s.lists[k := [i] + s.lists[k]], bits)
    else
      Release(State(s.lists[k := Without(s.lists[k], Sibling(i))], bits), k + 1, i / 2)
  }

  /** The order at which a release of (k, i) stops merging. */
  function MergeLevel(s: State, k: nat, i: nat): (m: nat)
    requires Shape(s) && k <= MAX_ORDER
    ensures k <= m <= MAX_ORDER
    decreases MAX_ORDER - k
  {
    if k == MAX_ORDER || i / 2 in Toggle(s.bits[k], i / 2) then k else MergeLevel(s, k + 1, i / 2)
  }

  /** Acquisition of a block of order k: the head of the first non-empty list at order k or above,
      split down to order k with every right half left as the only entry of its list. */
  function Acquire(s: State, k: nat): (r: (Option<nat>, State))
    requires Shape(s) && k <= MAX_ORDER
    ensures Shape(r.1)
    ensures forall j :: 0 <= j < k ==> r.1.lists[j] == s.lists[j] && r.1.bits[j] == s.bits[j]
    decreases MAX_ORDER - k
  {
    if s.lists[k] != [] then
      var h := s.lists[k][0];
      (Some(h), State(s.lists[k := s.lists[k][1..]], s.bits[k := Toggle(s.bits[k], h / 2)]))
    else if k == MAX_ORDER then
      (None, s)
    else
      var (b, t) := Acquire(s, k + 1);
      if b.None? then (None, s)
      else (Some(2 * b.value), State(t.lists[k := [2 * b.value + 1]], t.bits[k := Toggle(t.bits[k], b.value)]))
  }

  ghost predicate ListsExact(lists: seq<seq<nat>>, free: iset<nat>)
    requires |lists| == MAX_ORDER + 1
  {
    forall k: nat, i: nat :: k <= MAX_ORDER ==> (i in lists[k] <==> Maximal(free, k, i))
  }

  /** Bit n is on exactly when one of the buddies 2n and 2n+1 is listed. */
  ghost predicate BitsMatch(bits: set<nat>, list: seq<nat>) {
    forall n: nat :: n in bits <==> (2 * n in list) != (2 * n + 1 in list)
  }

  /** The free lists hold exactly the maximal whole blocks of free, without repetition, and below
      the top order a pair's bit is on exactly when one of the two buddies is listed. */
  ghost predicate Inv(s: State, free: iset<nat>) {
    && Shape(s)
    && ListsExact(s.lists, free)
    && (forall k: nat :: k <= MAX_ORDER ==> NoDup(s.lists[k]))
    && (forall k: nat :: k < MAX_ORDER ==> BitsMatch(s.bits[k], s.lists[k]))
  }

  lemma InvShape(s: State, free: iset<nat>)
    requires Inv(s, free)
    ensures Shape(s)
  {
  }

  /** No whole block of the union straddles the two parts. */
  ghost predicate Separate(f: iset<nat>, g: iset<nat>) {
    && f !! g
    && forall k: nat, i: nat :: k <= MAX_ORDER && Whole(f + g, k, i) ==> Whole(f, k, i) || Whole(g, k, i)
  }

  // ---------------------------------------------------------------- maximal blocks of unions

  lemma SeparateMaximal(f: iset<nat>, g: iset<nat>, k: nat, i: nat)
    requires Separate(f, g) && k <= MAX_ORDER
    ensures Maximal(f + g, k, i) <==> Maximal(f, k, i) || Maximal(g, k, i)
    ensures !(Whole(f, k, i) && Whole(g, k, i))
  {
    FirstPage(k, i);
    if k < MAX_ORDER {
      FirstPage(k + 1, i / 2);
      WholeHalves(f, k, i);
      WholeHalves(g, k, i);
    }
  }

  lemma WholeOfBlock(m: nat, j: nat, k: nat, i: nat)
    ensures Whole(Pages(m, j), k, i) <==> k <= m && Index(i, m - k) == j
  {
    FirstPage(k, i);
    var p := i * Pow2(k);
    if k <= m {
      forall q: nat | Index(q, k) == i
        ensures Index(q, m) == Index(i, m - k)
      {
        IndexOfIndex(q, k, m - k);
      }
    } else {
      var a := Index(p, m);
      var q := Sibling(a) * Pow2(m);
      FirstPage(m, Sibling(a));
      SiblingFacts(a);
      Nested(m + 1, k, p, q);
    }
  }

  lemma MaximalOfBlock(m: nat, j: nat, k: nat, i: nat)
    requires m <= MAX_ORDER && k <= MAX_ORDER
    ensures Maximal(Pages(m, j), k, i) <==> k == m && i == j
  {
    WholeOfBlock(m, j, k, i);
    WholeOfBlock(m, j, k + 1, i / 2);
    if k < m {
      IndexOfIndex(i, 1, m - k - 1);
      assert Index(i, 0) == i;
      assert Index(i, 1) == i / 2;
    }
  }

  lemma {:induction false} WithoutFacts(xs: seq<nat>, x: nat)
    requires NoDup(xs)
    ensures NoDup(Without(xs, x))
    ensures forall y: nat :: y in Without(xs, x) <==> y in xs && y != x
  {
    if xs != [] {
      var t := xs[1..];
      assert forall y :: y in xs <==> y == xs[0] || y in t;
      assert xs[0] !in t;
      WithoutFacts(t, x);
      if xs[0] != x {
        var w := Without(t, x);
        assert Without(xs, x) == [xs[0]] + w;
        assert xs[0] !in w;
      }
    }
  }

  /** Changing the membership of one block changes the bit of its pair. */
  lemma BitFollowsList(bits: set<nat>, list: seq<nat>, list': seq<nat>, x: nat)
    requires BitsMatch(bits, list)
    requires x in list <==> x !in list'
    requires forall y: nat :: y != x ==> (y in list' <==> y in list)
    ensures BitsMatch(Toggle(bits, x / 2), list')
  {
    forall n: nat
      ensures n in Toggle(bits, x / 2) <==> (2 * n in list') != (2 * n + 1 in list')
    {
      assert n in bits <==> (2 * n in list) != (2 * n + 1 in list);
      if n != x / 2 {
        assert 2 * n != x && 2 * n + 1 != x;
      } else {
        assert x == 2 * n || x == 2 * n + 1;
      }
    }
  }

  // ---------------------------------------------------------------- adding and removing one block

  /** Listing a block that is separate from the free pages keeps the invariant. */
  lemma InsertBlock(s: State, free: iset<nat>, k: nat, i: nat, b: set<nat>)
    requires Inv(s, free) && k <= MAX_ORDER && Separate(free, Pages(k, i))
    requires k < MAX_ORDER ==> b == s.bits[k] + {i / 2}
    ensures Inv(State(s.lists[k := [i] + s.lists[k]], s.bits[k := b]), free + Pages(k, i))
    ensures k < MAX_ORDER ==> i / 2 !in s.bits[k]
  {
    var g := Pages(k, i);
    var list := [i] + s.lists[k];
    InsertLists(s.lists, free, k, i);
    assert i !in s.lists[k];
    assert NoDup(list);
    if k < MAX_ORDER {
      InsertNoBuddy(s, free, k, i);
      assert b == Toggle(s.bits[k], i / 2);
      BitFollowsList(s.bits[k], s.lists[k], list, i);
    }
  }

  lemma InsertLists(lists: seq<seq<nat>>, free: iset<nat>, k: nat, i: nat)
    requires |lists| == MAX_ORDER + 1 && ListsExact(lists, free)
    requires k <= MAX_ORDER && Separate(free, Pages(k, i))
    ensures ListsExact(lists[k := [i] + lists[k]], free + Pages(k, i))
    ensures i !in lists[k]
  {
    var g := Pages(k, i);
    var lists' := lists[k := [i] + lists[k]];
    forall l: nat, j: nat | l <= MAX_ORDER
      ensures j in lists'[l] <==> Maximal(free + g, l, j)
    {
      SeparateMaximal(free, g, l, j);
      MaximalOfBlock(k, i, l, j);
    }
    SeparateMaximal(free, g, k, i);
    assert Whole(g, k, i);
  }

  lemma InsertNoBuddy(s: State, free: iset<nat>, k: nat, i: nat)
    requires Inv(s, free) && k < MAX_ORDER && Separate(free, Pages(k, i))
    ensures i !in s.lists[k] && Sibling(i) !in s.lists[k] && i / 2 !in s.bits[k]
  {
    var g := Pages(k, i);
    var q := Sibling(i);
    SiblingFacts(i);
    assert Whole(g, k, i);
    SeparateMaximal(free, g, k, i);
    assert i !in s.lists[k];
    if Whole(free, k, q) {
      WholeHalves(free + g, k, i);
      assert Whole(free, k + 1, i / 2) || Whole(g, k + 1, i / 2);
      WholeHalves(free, k, i);
      WholeHalves(g, k, i);
      SeparateMaximal(free, g, k, q);
    }
    assert q !in s.lists[k];
    assert {i, q} == {2 * (i / 2), 2 * (i / 2) + 1};
  }

  /** Unlinking a listed block takes its pages out of the free set. */
  lemma RemoveBlock(s: State, free: iset<nat>, k: nat, x: nat)
    requires Inv(s, free) && k <= MAX_ORDER && x in s.lists[k]
    ensures Inv(State(s.lists[k := Without(s.lists[k], x)], s.bits[k := Toggle(s.bits[k], x / 2)]), free - Pages(k, x))
    ensures k < MAX_ORDER ==> Sibling(x) !in s.lists[k] && x / 2 in s.bits[k]
  {
    WithoutFacts(s.lists[k], x);
    RemoveLists(s.lists, free, k, x);
    if k < MAX_ORDER {
      BitFollowsList(s.bits[k], s.lists[k], Without(s.lists[k], x), x);
      WholeHalves(free, k, x);
      SiblingFacts(x);
      assert Maximal(free, k, x);
      assert Sibling(x) !in s.lists[k];
      assert {x, Sibling(x)} == {2 * (x / 2), 2 * (x / 2) + 1};
    }
  }

  lemma RemoveLists(lists: seq<seq<nat>>, free: iset<nat>, k: nat, x: nat)
    requires |lists| == MAX_ORDER + 1 && ListsExact(lists, free)
    requires k <= MAX_ORDER && x in lists[k] && NoDup(lists[k])
    ensures ListsExact(lists[k := Without(lists[k], x)], free - Pages(k, x))
  {
    var g := Pages(k, x);
    var f := free - g;
    var lists' := lists[k := Without(lists[k], x)];
    RemoveSeparate(free, k, x);
    assert f + g == free;
    WithoutFacts(lists[k], x);
    forall l: nat, j: nat | l <= MAX_ORDER
      ensures j in lists'[l] <==> Maximal(f, l, j)
    {
      SeparateMaximal(f, g, l, j);
      MaximalOfBlock(k, x, l, j);
    }
  }

  lemma RemoveSeparate(free: iset<nat>, k: nat, x: nat)
    requires k <= MAX_ORDER && Maximal(free, k, x)
    ensures Separate(free - Pages(k, x), Pages(k, x))
  {
    var g := Pages(k, x);
    var f := free - g;
    assert f + g == free;
    forall l: nat, j: nat | l <= MAX_ORDER && Whole(free, l, j) && !Whole(f, l, j)
      ensures Whole(g, l, j)
    {
      var p: nat :| Index(p, l) == j && p !in f;
      assert Index(p, k) == x;
      if l <= k {
        forall q: nat | Index(q, l) == j
          ensures q in g
        {
          Nested(l, k, p, q);
        }
      } else {
        MaximalOutermost(free, k, l, p);
      }
    }
  }

  lemma BuddyOutside(free: iset<nat>, k: nat, i: nat)
    requires Whole(free + Pages(k, i), k, Sibling(i))
    ensures Whole(free, k, Sibling(i))
  {
    SiblingFacts(i);
    assert forall q: nat :: Index(q, k) == Sibling(i) ==> q in free + Pages(k, i) && q !in Pages(k, i);
  }

  /** A block whose buddy is not entirely free is separate from the free pages. */
  lemma LoneBlockSeparate(free: iset<nat>, k: nat, i: nat)
    requires k <= MAX_ORDER && free !! Pages(k, i)
    requires k == MAX_ORDER || !Whole(free, k, Sibling(i))
    ensures Separate(free, Pages(k, i))
  {
    var g := Pages(k, i);
    forall l: nat, j: nat | l <= MAX_ORDER && Whole(free + g, l, j) && !Whole(free, l, j)
      ensures Whole(g, l, j)
    {
      var p: nat :| Index(p, l) == j && p !in free;
      assert Index(p, k) == i;
      if l <= k {
        forall q: nat | Index(q, l) == j
          ensures q in g
        {
          Nested(l, k, p, q);
        }
      } else {
        WholeBelow(free + g, k + 1, l, p);
        WholeHalves(free + g, k, i);
        BuddyOutside(free, k, i);
      }
    }
  }

  // ---------------------------------------------------------------- main results

  lemma EmptyInv()
    ensures Inv(EMPTY, iset{})
  {
    forall k: nat, i: nat
      ensures !Whole(iset{}, k, i)
    {
      FirstPage(k, i);
    }
  }

  /** A block outside the free pages is unlisted, so its pair bit tells whether its buddy is listed. */
  lemma BitTellsBuddy(s: State, free: iset<nat>, k: nat, i: nat)
    requires Inv(s, free) && k < MAX_ORDER && free !! Pages(k, i)
    ensures i / 2 in s.bits[k] <==> Sibling(i) in s.lists[k]
    ensures Sibling(i) in s.lists[k] <==> Whole(free, k, Sibling(i))
  {
    FirstPage(k, i);
    assert i * Pow2(k) in Pages(k, i);
    SiblingFacts(i);
    assert !Whole(free, k, i);
    WholeHalves(free, k, i);
  }

  /** Releasing a block that is not free adds exactly its pages and leaves them fully coalesced. */
  lemma {:induction false} ReleaseCoalesces(s: State, free: iset<nat>, k: nat, i: nat)
    requires Inv(s, free) && k <= MAX_ORDER && free !! Pages(k, i)
    ensures Inv(Release(s, k, i), free + Pages(k, i))
    decreases MAX_ORDER - k
  {
    if k < MAX_ORDER {
      BitTellsBuddy(s, free, k, i);
    }
    if k < MAX_ORDER && i / 2 in s.bits[k] {
      var q := Sibling(i);
      RemoveBlock(s, free, k, q);
      SiblingFacts(i);
      var f := free - Pages(k, q);
      assert f + Pages(k + 1, i / 2) == free + Pages(k, i);
      ReleaseCoalesces(State(s.lists[k := Without(s.lists[k], q)], s.bits[k := Toggle(s.bits[k], i / 2)]), f, k + 1, i / 2);
    } else {
      LoneBlockSeparate(free, k, i);
      InsertBlock(s, free, k, i, Toggle(s.bits[k], i / 2));
    }
  }

  /** No aligned run of 2^k pages is entirely free. */
  ghost predicate NoneWhole(free: iset<nat>, k: nat) {
    forall i: nat :: !Whole(free, k, i)
  }

  /** Acquisition fails only when no aligned run of 2^k pages is entirely free; otherwise it returns
      such a run and takes exactly its pages. */
  lemma {:induction false} AcquireExact(s: State, free: iset<nat>, k: nat)
    requires Inv(s, free) && k <= MAX_ORDER
    ensures Acquire(s, k).0.None? <==> NoneWhole(free, k)
    ensures Acquire(s, k).0.None? ==> Acquire(s, k).1 == s
    ensures Acquire(s, k).0.Some? ==> var i := Acquire(s, k).0.value;
      Whole(free, k, i) && Inv(Acquire(s, k).1, free - Pages(k, i))
    decreases MAX_ORDER - k
  {
    if s.lists[k] != [] {
      AcquireHead(s, free, k);
    } else if k == MAX_ORDER {
      NothingWhole(s, free, k);
    } else {
      AcquireExact(s, free, k + 1);
      if Acquire(s, k + 1).0.None? {
        NothingWhole(s, free, k);
      } else {
        AcquireRight(s, free, k);
      }
    }
  }

  lemma AcquireHead(s: State, free: iset<nat>, k: nat)
    requires Inv(s, free) && k <= MAX_ORDER && s.lists[k] != []
    ensures var (b, t) := Acquire(s, k);
      b.Some? && Whole(free, k, b.value) && Inv(t, free - Pages(k, b.value))
  {
    var h := s.lists[k][0];
    RemoveBlock(s, free, k, h);
    assert Maximal(free, k, h);
    assert Without(s.lists[k], h) == s.lists[k][1..];
  }

  /** An empty list with nothing whole above it leaves nothing whole. */
  lemma NothingWhole(s: State, free: iset<nat>, k: nat)
    requires Inv(s, free) && k <= MAX_ORDER && s.lists[k] == []
    requires k < MAX_ORDER ==> NoneWhole(free, k + 1)
    ensures NoneWhole(free, k)
  {
    forall i: nat
      ensures !Whole(free, k, i)
    {
      assert i !in s.lists[k];
      assert !Maximal(free, k, i);
    }
  }

  lemma AcquireRight(s: State, free: iset<nat>, k: nat)
    requires Shape(s) && k < MAX_ORDER && s.lists[k] == [] && Acquire(s, k + 1).0.Some?
    requires var (b, t) := Acquire(s, k + 1); Whole(free, k + 1, b.value) && Inv(t, free - Pages(k + 1, b.value))
    ensures var (b, t) := Acquire(s, k);
      b.Some? && Whole(free, k, b.value) && Inv(t, free - Pages(k, b.value))
  {
    hide Inv, Whole, Index;
    var (b, t) := Acquire(s, k + 1);
    var l, r := 2 * b.value, 2 * b.value + 1;
    AcquireBelowKeeps(s, k);
    SplitBlock(t, free - Pages(k + 1, b.value), k, b.value);
    WholeHalves(free, k, l);
    PagesHalves(k, l);
    assert l / 2 == b.value && Sibling(l) == r;
    WholePages(free, k, r);
    assert free - Pages(k + 1, b.value) + Pages(k, r) == free - Pages(k, l);
  }

  lemma AcquireBelowKeeps(s: State, k: nat)
    requires Shape(s) && k < MAX_ORDER && s.lists[k] == []
    ensures Acquire(s, k + 1).1.lists[k] == []
  {
  }

  lemma WholePages(free: iset<nat>, k: nat, i: nat)
    requires Whole(free, k, i)
    ensures Pages(k, i) <= free
  {
  }

  /** Listing the right half of a block taken one order up. */
  lemma SplitBlock(t: State, free: iset<nat>, k: nat, b: nat)
    requires Inv(t, free) && k < MAX_ORDER && free !! Pages(k + 1, b) && t.lists[k] == []
    ensures Inv(State(t.lists[k := [2 * b + 1]], t.bits[k := Toggle(t.bits[k], b)]), free + Pages(k, 2 * b + 1))
  {
    var i := 2 * b + 1;
    FirstPage(k, 2 * b);
    assert Index(2 * b * Pow2(k), k + 1) == b;
    assert 2 * b * Pow2(k) in Pages(k + 1, b);
    LoneBlockSeparate(free, k, i);
    assert t.bits[k] == {};
    InsertBlock(t, free, k, i, Toggle(t.bits[k], b));
    assert [i] + t.lists[k] == [i];
  }

  /** Releasing the block just acquired restores every list in order and every bit. */
  lemma {:induction false} AcquireThenRelease(s: State, free: iset<nat>, k: nat)
    requires Inv(s, free) && k <= MAX_ORDER && Acquire(s, k).0.Some?
    ensures Release(Acquire(s, k).1, k, Acquire(s, k).0.value) == s
    decreases MAX_ORDER - k
  {
    if s.lists[k] != [] {
      PopThenPush(s, free, k);
    } else {
      assert BitsMatch(s.bits[k], s.lists[k]);
      assert s.bits[k] == {};
      AcquireThenRelease(s, free, k + 1);
      var (c, u) := Acquire(s, k + 1);
      SplitThenMerge(u, k, c.value);
    }
  }

  lemma PopThenPush(s: State, free: iset<nat>, k: nat)
    requires Inv(s, free) && k <= MAX_ORDER && s.lists[k] != []
    ensures Release(Acquire(s, k).1, k, s.lists[k][0]) == s
  {
    var h := s.lists[k][0];
    var t := Acquire(s, k).1;
    RemoveBlock(s, free, k, h);
    assert Toggle(t.bits[k], h / 2) == s.bits[k];
    assert [h] + t.lists[k] == s.lists[k];
    assert t.lists[k := s.lists[k]] == s.lists;
    assert t.bits[k := s.bits[k]] == s.bits;
  }

  lemma SplitThenMerge(u: State, k: nat, c: nat)
    requires Shape(u) && k < MAX_ORDER && u.lists[k] == [] && u.bits[k] == {}
    ensures Release(State(u.lists[k := [2 * c + 1]], u.bits[k := Toggle(u.bits[k], c)]), k, 2 * c) == Release(u, k + 1, c)
  {
    var t := State(u.lists[k := [2 * c + 1]], u.bits[k := Toggle(u.bits[k], c)]);
    assert Sibling(2 * c) == 2 * c + 1 && 2 * c / 2 == c;
    assert Toggle(t.bits[k], c) == u.bits[k];
    assert Without(t.lists[k], 2 * c + 1) == [];
    assert t.lists[k := []] == u.lists;
    assert t.bits[k := u.bits[k]] == u.bits;
  }

  /** Two allocators with the same free pages list the same blocks and agree on every bit below the
      top order, whatever operations led to them. */
  lemma HistoryIndependence(s: State, t: State, free: iset<nat>, k: nat)
    requires Inv(s, free) && Inv(t, free) && k <= MAX_ORDER
    ensures multiset(s.lists[k]) == multiset(t.lists[k])
    ensures k < MAX_ORDER ==> s.bits[k] == t.bits[k]
  {
    forall x: nat
      ensures multiset(s.lists[k])[x] == multiset(t.lists[k])[x]
    {
      NoDupCount(s.lists[k], x);
      NoDupCount(t.lists[k], x);
      assert x in s.lists[k] <==> x in t.lists[k];
    }
    if k < MAX_ORDER {
      forall n: nat
        ensures n in s.bits[k] <==> n in t.bits[k]
      {
        assert 2 * n in s.lists[k] <==> 2 * n in t.lists[k];
        assert 2 * n + 1 in s.lists[k] <==> 2 * n + 1 in t.lists[k];
      }
    }
  }

  lemma {:induction false} NoDupCount(xs: seq<nat>, x: nat)
    requires NoDup(xs)
    ensures multiset(xs)[x] == if x in xs then 1 else 0
  {
    if xs != [] {
      assert xs == [xs[0]] + xs[1..];
      NoDupCount(xs[1..], x);
    }
  }

  /** Listed blocks never overlap, and no two buddies below the top order are both listed. */
  lemma ListedBlocksDisjoint(s: State, free: iset<nat>, k: nat, i: nat, l: nat, j: nat)
    requires Inv(s, free) && k <= MAX_ORDER && l <= MAX_ORDER
    requires i in s.lists[k] && j in s.lists[l] && (k, i) != (l, j)
    ensures Pages(k, i) !! Pages(l, j)
    ensures k == l < MAX_ORDER ==> j != Sibling(i)
  {
    forall p: nat | Index(p, k) == i && Index(p, l) == j
      ensures false
    {
      MaximalDisjoint(free, k, l, p);
    }
    if k < MAX_ORDER {
      WholeHalves(free, k, i);
    }
  }

  // ---------------------------------------------------------------- which block is acquired

  /** The lowest block of order k in the head of the first list that is not empty is taken; its upper
      halves are left, one at each order in between, and no other list changes. */
  lemma {:induction false} AcquireSmallest(s: State, k: nat, j: nat)
    requires Shape(s) && k <= j <= MAX_ORDER && s.lists[j] != [] && forall l :: k <= l < j ==> s.lists[l] == []
    ensures var (b, t) := Acquire(s, k);
      && b == Some(s.lists[j][0] * Pow2(j - k)) && t.lists[j] == s.lists[j][1..]
      && (forall l: nat :: k <= l < j ==> t.lists[l] == [s.lists[j][0] * Pow2(j - l - 1) * 2 + 1])
      && forall l: nat :: l < k || j < l <= MAX_ORDER ==> t.lists[l] == s.lists[l]
    decreases j - k
  {
    if k < j {
      AcquireSmallest(s, k + 1, j);
      var h := s.lists[j][0];
      HalfOf(h, j - k - 1);
    }
  }

  lemma HalfOf(h: nat, n: nat)
    ensures h * Pow2(n + 1) == 2 * (h * Pow2(n))
  {
  }

  /** A released block that merges with nothing is the next of its order to be acquired, which undoes
      the release. */
  lemma ReleaseThenAcquire(s: State, k: nat, i: nat)
    requires Shape(s) && k <= MAX_ORDER && MergeLevel(s, k, i) == k
    ensures Acquire(Release(s, k, i), k) == (Some(i), s)
  {
    var t := Release(s, k, i);
    assert t.lists[k][1..] == s.lists[k];
    assert t.lists[k := s.lists[k]] == s.lists && t.bits[k := s.bits[k]] == s.bits;
    assert Toggle(Toggle(s.bits[k], i / 2), i / 2) == s.bits[k];
  }
}
