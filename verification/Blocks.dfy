/** Naturally aligned power-of-two runs of pages.  The order-k block with index i holds the 2^k pages
    from i * 2^k on; halving an index moves to the enclosing block of the next order. */
module Blocks {

  const MAX_ORDER: nat := 10

  function Pow2(k: nat): (r: nat)
    ensures r >= 1
  {
    if k == 0 then 1 else 2 * Pow2(k - 1)
  }

  /** The index of the order-k block that holds page p. */
  function Index(p: nat, k: nat): nat {
    if k == 0 then p else Index(p, k - 1) / 2
  }

  /** The other child of the same parent block. */
  function Sibling(i: nat): nat {
    if i % 2 == 0 then i + 1 else i - 1
  }

  ghost function Pages(k: nat, i: nat): iset<nat> {
    iset p: nat | Index(p, k) == i
  }

  predicate Within(p: nat, a: nat, b: nat) {
    a <= p < b
  }

  ghost function Range(a: nat, b: nat): iset<nat> {
    iset p: nat | Within(p, a, b)
  }

  /** Every page of the block belongs to free. */
  ghost predicate Whole(free: iset<nat>, k: nat, i: nat) {
    forall p: nat :: Index(p, k) == i ==> p in free
  }

  /** A whole block that no larger whole block contains. */
  ghost predicate Maximal(free: iset<nat>, k: nat, i: nat) {
    Whole(free, k, i) && (k == MAX_ORDER || !Whole(free, k + 1, i / 2))
  }

  lemma {:induction false} IndexOfIndex(p: nat, k: nat, l: nat)
    ensures Index(Index(p, k), l) == Index(p, k + l)
  {
    if l > 0 {
      IndexOfIndex(p, k, l - 1);
    }
  }

  /** Blocks are cut at multiples of their size. */
  lemma {:induction false} IndexBelow(p: nat, k: nat, c: nat)
    ensures p < c * Pow2(k) <==> Index(p, k) < c
  {
    if k > 0 {
      IndexBelow(p, k - 1, 2 * c);
      assert 2 * c * Pow2(k - 1) == c * Pow2(k);
    }
  }

  lemma FirstPage(k: nat, i: nat)
    ensures Index(i * Pow2(k), k) == i
  {
    IndexBelow(i * Pow2(k), k, i);
    IndexBelow(i * Pow2(k), k, i + 1);
    assert (i + 1) * Pow2(k) == i * Pow2(k) + Pow2(k);
  }

  lemma LastPage(k: nat, i: nat)
    ensures Index((i + 1) * Pow2(k) - 1, k) == i
  {
    assert (i + 1) * Pow2(k) == i * Pow2(k) + Pow2(k);
    IndexBelow((i + 1) * Pow2(k) - 1, k, i);
    IndexBelow((i + 1) * Pow2(k) - 1, k, i + 1);
  }

  /** Two blocks that share a page are nested. */
  lemma Nested(k: nat, l: nat, p: nat, q: nat)
    requires k <= l && Index(p, k) == Index(q, k)
    ensures Index(p, l) == Index(q, l)
  {
    IndexOfIndex(p, k, l - k);
    IndexOfIndex(q, k, l - k);
  }

  lemma SiblingFacts(i: nat)
    ensures Sibling(i) / 2 == i / 2 && Sibling(i) != i && Sibling(Sibling(i)) == i
    ensures forall j: nat :: j / 2 == i / 2 <==> j == i || j == Sibling(i)
    ensures {i, Sibling(i)} == {2 * (i / 2), 2 * (i / 2) + 1}
  {
  }

  lemma PagesHalves(k: nat, i: nat)
    ensures Pages(k + 1, i / 2) == Pages(k, i) + Pages(k, Sibling(i))
    ensures Pages(k, i) !! Pages(k, Sibling(i))
  {
    SiblingFacts(i);
    assert forall p: nat :: Index(p, k + 1) == Index(p, k) / 2;
  }

  /** A block is whole exactly when both its halves are. */
  lemma WholeHalves(free: iset<nat>, k: nat, i: nat)
    ensures Whole(free, k + 1, i / 2) <==> Whole(free, k, i) && Whole(free, k, Sibling(i))
  {
    SiblingFacts(i);
    if Whole(free, k, i) && Whole(free, k, Sibling(i)) {
      forall p: nat | Index(p, k + 1) == i / 2
        ensures p in free
      {
        assert Index(p, k) == i || Index(p, k) == Sibling(i);
      }
    }
    if Whole(free, k + 1, i / 2) {
      forall p: nat | Index(p, k) == i || Index(p, k) == Sibling(i)
        ensures p in free
      {
        assert Index(p, k + 1) == i / 2;
      }
    }
  }

  /** A page is in some maximal block as soon as it lies in a whole one. */
  lemma MaximalAbove(free: iset<nat>, k: nat, p: nat) returns (m: nat)
    requires k <= MAX_ORDER && Whole(free, k, Index(p, k))
    ensures k <= m <= MAX_ORDER && Maximal(free, m, Index(p, m))
    decreases MAX_ORDER - k
  {
    if k == MAX_ORDER || !Whole(free, k + 1, Index(p, k) / 2) {
      m := k;
    } else {
      assert Index(p, k + 1) == Index(p, k) / 2;
      m := MaximalAbove(free, k + 1, p);
    }
  }

  /** Below a whole block every block is whole. */
  lemma WholeBelow(free: iset<nat>, k: nat, l: nat, p: nat)
    requires k <= l && Whole(free, l, Index(p, l))
    ensures Whole(free, k, Index(p, k))
  {
    forall q: nat | Index(q, k) == Index(p, k)
      ensures q in free
    {
      Nested(k, l, p, q);
    }
  }

  /** No maximal block lies inside a larger one. */
  lemma MaximalOutermost(free: iset<nat>, k: nat, l: nat, p: nat)
    requires k < l <= MAX_ORDER && Whole(free, l, Index(p, l))
    ensures !Maximal(free, k, Index(p, k))
  {
    WholeBelow(free, k + 1, l, p);
  }

  /** Maximal blocks never overlap. */
  lemma MaximalDisjoint(free: iset<nat>, k: nat, l: nat, p: nat)
    requires k <= MAX_ORDER && l <= MAX_ORDER
    requires Maximal(free, k, Index(p, k)) && Maximal(free, l, Index(p, l))
    ensures k == l
  {
    if k < l {
      MaximalOutermost(free, k, l, p);
    } else if l < k {
      MaximalOutermost(free, l, k, p);
    }
  }
}
