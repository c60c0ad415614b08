/** Cutting a run of pages into naturally aligned blocks and listing them. */
module Chunk {
  import opened Blocks
  import opened Buddy
  import opened Arith

  const LOWMEM_PAGES: nat := 0x100
  const MANAGED_PAGES: nat := 0x70000

  /** The largest order up to k whose blocks have at most n pages. */
  function OrderUpTo(n: nat, k: nat): (m: nat)
    ensures m <= k
  {
    if k == 0 || Pow2(k) <= n then k else OrderUpTo(n, k - 1)
  }

  function MaxOrder(n: nat): (m: nat)
    ensures m <= MAX_ORDER
  {
    OrderUpTo(n, MAX_ORDER)
  }

  lemma {:induction false} OrderUpToFits(n: nat, k: nat)
    requires n >= 1
    ensures Pow2(OrderUpTo(n, k)) <= n
    ensures OrderUpTo(n, k) < k ==> n < Pow2(OrderUpTo(n, k) + 1)
  {
    if k > 0 && Pow2(k) > n {
      OrderUpToFits(n, k - 1);
    }
  }

  /** List block i of order m and set the bit of its pair. */
  function PushBlock(s: State, m: nat, i: nat): (r: State)
    requires Shape(s) && m <= MAX_ORDER
    ensures Shape(r)
  {
    State(s.lists[m := [i] + s.lists[m]], s.bits[m := s.bits[m] + {i / 2}])
  }

  /** List blocks lo..hi of order m, the highest first. */
  function PushBlocks(s: State, m: nat, lo: nat, hi: nat): (r: State)
    requires Shape(s) && m <= MAX_ORDER
    ensures Shape(r)
    decreases hi
  {
    if lo >= hi then s else PushBlocks(PushBlock(s, m, hi - 1), m, lo, hi - 1)
  }

  /** The index of the first order-m block that starts at or after page base. */
  function FirstBlock(base: nat, m: nat): nat {
    CeilDiv(base, Pow2(m))
  }

  /** The index of the order-m block that page end lies in: the blocks below it end by end. */
  function LastBlock(end: nat, m: nat): nat {
    FloorDiv(end, Pow2(m))
  }

  lemma FirstBlockBounds(base: nat, m: nat)
    ensures base <= FirstBlock(base, m) * Pow2(m) < base + Pow2(m)
  {
    var d := Pow2(m);
    assert base == base / d * d + base % d;
    NextMultiple(base / d, d);
  }

  lemma LastBlockBounds(end: nat, m: nat)
    ensures LastBlock(end, m) * Pow2(m) <= end < LastBlock(end, m) * Pow2(m) + Pow2(m)
  {
    assert end == end / Pow2(m) * Pow2(m) + end % Pow2(m);
  }

  /** The blocks lo..hi of order m fill the pages c..p of a chunk of n pages, too small for a larger order. */
  ghost predicate CutsAt(n: nat, m: nat, lo: nat, hi: nat, c: nat, p: nat) {
    lo <= hi && c == lo * Pow2(m) && p == hi * Pow2(m) && (m < MAX_ORDER ==> n < Pow2(m + 1))
  }

  /** The cut points of a chunk lie in order inside it. */
  lemma CutPoints(base: nat, n: nat)
    requires n >= 1
    ensures var m := MaxOrder(n);
      var lo, hi := FirstBlock(base, m) * Pow2(m), LastBlock(base + n, m) * Pow2(m);
      && base <= lo <= hi <= base + n && lo - base < n && base + n - hi < n
      && FirstBlock(base, m) <= LastBlock(base + n, m)
      && Pow2(m) <= n
      && (m < MAX_ORDER ==> n < Pow2(m + 1))
  {
    var m := MaxOrder(n);
    var d := Pow2(m);
    var a, b := FirstBlock(base, m), LastBlock(base + n, m);
    OrderUpToFits(n, MAX_ORDER);
    FirstBlockBounds(base, m);
    LastBlockBounds(base + n, m);
    if b < a {
      Monotone(b + 1, a, d);
      NextMultiple(b, d);
    }
    Monotone(a, b, d);
  }

  /** Page_MapMemoryChunk, on page numbers: list the part above the last cut point, then the central
      blocks, then the part below the first cut point. */
  function MapChunk(s: State, base: nat, n: nat): (r: State)
    requires Shape(s)
    ensures Shape(r)
    decreases n
  {
    if n == 0 || base < LOWMEM_PAGES || base >= MANAGED_PAGES then s
    else
      var m := MaxOrder(n);
      var lo, hi := FirstBlock(base, m), LastBlock(base + n, m);
      CutPoints(base, n);
      var top := MapChunk(s, hi * Pow2(m), base + n - hi * Pow2(m));
      var central := PushBlocks(top, m, lo, hi);
      MapChunk(central, base, lo * Pow2(m) - base)
  }

  lemma MapChunkEmpty(s: State, base: nat)
    requires Shape(s)
    ensures MapChunk(s, base, 0) == s
  {
  }

  /** One level of the recursion, with the cut points named. */
  lemma MapChunkStep(s: State, base: nat, n: nat, lo: nat, hi: nat, c: nat, p: nat)
    requires Shape(s) && n >= 1 && LOWMEM_PAGES <= base < MANAGED_PAGES && c - base >= 0 && p <= base + n
    requires var m := MaxOrder(n);
      lo == FirstBlock(base, m) && hi == LastBlock(base + n, m) && c == lo * Pow2(m) && p == hi * Pow2(m)
    ensures MapChunk(s, base, n) == MapChunk(PushBlocks(MapChunk(s, p, base + n - p), MaxOrder(n), lo, hi), base, c - base)
    ensures p == base + n ==> MapChunk(s, p, base + n - p) == s
    ensures c == base ==> MapChunk(PushBlocks(MapChunk(s, p, base + n - p), MaxOrder(n), lo, hi), base, c - base) ==
                          PushBlocks(MapChunk(s, p, base + n - p), MaxOrder(n), lo, hi)
  {
  }

  // ---------------------------------------------------------------- separation of intervals

  lemma SeparateSubset(f: iset<nat>, g: iset<nat>, h: iset<nat>)
    requires Separate(f, g) && h <= g
    ensures Separate(f, h)
  {
    forall k: nat, i: nat | k <= MAX_ORDER && Whole(f + h, k, i)
      ensures Whole(f, k, i) || Whole(h, k, i)
    {
      assert Whole(f + g, k, i);
    }
  }

  lemma {:induction false} IndexMonotone(p: nat, q: nat, k: nat)
    requires p <= q
    ensures Index(p, k) <= Index(q, k)
  {
    if k > 0 {
      IndexMonotone(p, q, k - 1);
    }
  }

  lemma {:induction false} Pow2Monotone(k: nat, l: nat)
    requires k <= l
    ensures Pow2(k) <= Pow2(l)
  {
    if k < l {
      Pow2Monotone(k, l - 1);
    }
  }

  /** A block inside an interval is no longer than the interval. */
  lemma BlockFits(a: nat, e: nat, k: nat, i: nat)
    requires Whole(Range(a, e), k, i)
    ensures a + Pow2(k) <= e
  {
    FirstPage(k, i);
    LastPage(k, i);
    NextMultiple(i, Pow2(k));
    hide Pow2, Index;
    var p, q := i * Pow2(k), (i + 1) * Pow2(k) - 1;
    assert p in Range(a, e) && q in Range(a, e);
  }

  /** A block no larger than 2^m pages lies on one side of any multiple of 2^m. */
  lemma BlockOneSide(k: nat, i: nat, m: nat, c: nat) returns (below: bool)
    requires k <= m
    ensures forall p: nat :: Index(p, k) == i ==> (p < c * Pow2(m) <==> below)
  {
    FirstPage(k, i);
    var f := i * Pow2(k);
    below := f < c * Pow2(m);
    forall p: nat | Index(p, k) == i
      ensures p < c * Pow2(m) <==> below
    {
      Nested(k, m, p, f);
      IndexBelow(p, m, c);
      IndexBelow(f, m, c);
    }
  }

  /** An interval cut at a multiple of its largest block size falls into separate parts. */
  lemma SeparateCut(f: iset<nat>, a: nat, m: nat, c: nat, e: nat)
    requires Separate(f, Range(a, e)) && a <= c * Pow2(m) <= e && m <= MAX_ORDER
    requires m < MAX_ORDER ==> e - a < Pow2(m + 1)
    ensures Separate(f + Range(c * Pow2(m), e), Range(a, c * Pow2(m)))
  {
    var x := c * Pow2(m);
    assert f + Range(x, e) + Range(a, x) == f + Range(a, e);
    forall k: nat, i: nat | k <= MAX_ORDER && Whole(f + Range(a, e), k, i)
      ensures Whole(f + Range(x, e), k, i) || Whole(Range(a, x), k, i)
    {
      if !Whole(f, k, i) {
        BlockFits(a, e, k, i);
        if k > m {
          Pow2Monotone(m + 1, k);
        }
        WholeOneSide(a, e, k, i, m, c);
      } else {
        assert Whole(f + Range(x, e), k, i);
      }
    }
  }

  lemma WholeOneSide(a: nat, e: nat, k: nat, i: nat, m: nat, c: nat)
    requires k <= m && Whole(Range(a, e), k, i)
    ensures Whole(Range(c * Pow2(m), e), k, i) || Whole(Range(a, c * Pow2(m)), k, i)
  {
    var below := BlockOneSide(k, i, m, c);
    var x := c * Pow2(m);
    forall p: nat | Index(p, k) == i
      ensures p in Range(a, e) && (p < x <==> below)
    {
    }
    if below {
      assert Whole(Range(a, x), k, i);
    } else {
      assert Whole(Range(x, e), k, i);
    }
  }

  lemma PagesAsRange(m: nat, x: nat)
    ensures Pages(m, x) == Range(x * Pow2(m), (x + 1) * Pow2(m))
  {
    forall p: nat
      ensures p in Pages(m, x) <==> p in Range(x * Pow2(m), (x + 1) * Pow2(m))
    {
      IndexBelow(p, m, x);
      IndexBelow(p, m, x + 1);
    }
  }

  lemma {:induction false} IndexBetween(p: nat, q: nat, r: nat, k: nat)
    requires p <= q <= r && Index(p, k) == Index(r, k)
    ensures Index(q, k) == Index(p, k)
  {
    IndexMonotone(p, q, k);
    IndexMonotone(q, r, k);
  }

  /** A run with a page outside on either side of it is separate from everything beyond. */
  lemma SeparateByGap(f: iset<nat>, a: nat, e: nat)
    requires f !! Range(a, e) && e !in f && (a > 0 ==> a - 1 !in f)
    ensures Separate(f, Range(a, e))
  {
    var g := Range(a, e);
    forall k: nat, i: nat | k <= MAX_ORDER && Whole(f + g, k, i) && !Whole(f, k, i)
      ensures Whole(g, k, i)
    {
      var p: nat :| Index(p, k) == i && p !in f;
      forall q: nat | Index(q, k) == i
        ensures a <= q < e
      {
        if q >= e {
          IndexBetween(p, e, q, k);
        } else if q < a {
          IndexBetween(q, a - 1, p, k);
        }
      }
    }
  }

  // ---------------------------------------------------------------- main results

  lemma PushBlockExact(s: State, f: iset<nat>, a: nat, e: nat, m: nat, x: nat)
    requires m <= MAX_ORDER && a <= x * Pow2(m) && (x + 1) * Pow2(m) <= e
    requires Separate(f, Range(a, e)) && (m < MAX_ORDER ==> e - a < Pow2(m + 1))
    requires Inv(s, f + Range((x + 1) * Pow2(m), e))
    ensures Inv(PushBlock(s, m, x), f + Range(x * Pow2(m), e))
    ensures f + Range((x + 1) * Pow2(m), e) + Pages(m, x) == f + Range(x * Pow2(m), e)
  {
    var d := Pow2(m);
    NextMultiple(x, d);
    assert Range(x * d, e) <= Range(a, e);
    SeparateSubset(f, Range(a, e), Range(x * d, e));
    SeparateCut(f, x * d, m, x + 1, e);
    PagesAsRange(m, x);
    InsertBlock(s, f + Range((x + 1) * d, e), m, x, s.bits[m] + {x / 2});
    assert f + Range((x + 1) * d, e) + Pages(m, x) == f + Range(x * d, e);
  }

  lemma {:induction false} PushBlocksExact(s: State, f: iset<nat>, a: nat, e: nat, m: nat, lo: nat, hi: nat)
    requires m <= MAX_ORDER && a <= lo * Pow2(m) && lo <= hi && hi * Pow2(m) <= e
    requires Separate(f, Range(a, e)) && (m < MAX_ORDER ==> e - a < Pow2(m + 1))
    requires Inv(s, f + Range(hi * Pow2(m), e))
    ensures Inv(PushBlocks(s, m, lo, hi), f + Range(lo * Pow2(m), e))
    decreases hi
  {
    if lo < hi {
      var x := hi - 1;
      Monotone(lo, x, Pow2(m));
      PushBlockExact(s, f, a, e, m, x);
      PushBlocksExact(PushBlock(s, m, x), f, a, e, m, lo, x);
    }
  }

  /** The recursive calls and the central blocks of one chunk. */
  lemma ChunkParts(s: State, f: iset<nat>, base: nat, n: nat) returns (m: nat, lo: nat, hi: nat, c: nat, p: nat)
    requires Shape(s) && n >= 1 && Separate(f, Range(base, base + n)) && LOWMEM_PAGES <= base && base + n <= MANAGED_PAGES
    ensures base <= c <= p <= base + n && c - base < n && base + n - p < n
    ensures m <= MAX_ORDER && CutsAt(n, m, lo, hi, c, p)
    ensures MapChunk(s, base, n) == MapChunk(PushBlocks(MapChunk(s, p, base + n - p), m, lo, hi), base, c - base)
    ensures Separate(f, Range(p, base + n)) && Separate(f + Range(c, base + n), Range(base, c))
  {
    hide Pow2, Index, Whole, Separate, OrderUpTo, FirstBlock, LastBlock, MapChunk, PushBlocks;
    m := MaxOrder(n);
    lo, hi := FirstBlock(base, m), LastBlock(base + n, m);
    c, p := lo * Pow2(m), hi * Pow2(m);
    CutPoints(base, n);
    MapChunkStep(s, base, n, lo, hi, c, p);
    assert Range(p, base + n) <= Range(base, base + n);
    SeparateSubset(f, Range(base, base + n), Range(p, base + n));
    SeparateCut(f, base, m, lo, base + n);
  }

  lemma RangeJoin(f: iset<nat>, a: nat, b: nat, c: nat)
    requires a <= b <= c
    ensures f + Range(b, c) + Range(a, b) == f + Range(a, c)
    ensures a == b ==> f + Range(a, b) == f
  {
  }

  lemma CentralExact(top: State, f: iset<nat>, a: nat, e: nat, m: nat, lo: nat, hi: nat, c: nat, p: nat)
    requires m <= MAX_ORDER && a <= c && a <= e && p <= e && CutsAt(e - a, m, lo, hi, c, p)
    requires Separate(f, Range(a, e))
    requires Inv(top, f + Range(p, e))
    ensures Inv(PushBlocks(top, m, lo, hi), f + Range(c, e))
  {
    PushBlocksExact(top, f, a, e, m, lo, hi);
  }

  /** Mapping a chunk that is separate from the free pages frees exactly the pages of the chunk. */
  lemma {:induction false} MapChunkExact(s: State, f: iset<nat>, base: nat, n: nat)
    requires Inv(s, f) && Separate(f, Range(base, base + n))
    requires LOWMEM_PAGES <= base && base + n <= MANAGED_PAGES
    ensures Inv(MapChunk(s, base, n), f + Range(base, base + n))
    decreases n
  {
    hide CutsAt, Separate, MapChunk, PushBlocks, Inv, Range, Shape;
    var e := base + n;
    InvShape(s, f);
    if n == 0 {
      MapChunkEmpty(s, base);
      RangeJoin(f, base, base, e);
    } else {
      var m, lo, hi, c, p := ChunkParts(s, f, base, n);
      MapChunkExact(s, f, p, e - p);
      CentralExact(MapChunk(s, p, e - p), f, base, e, m, lo, hi, c, p);
      MapChunkExact(PushBlocks(MapChunk(s, p, e - p), m, lo, hi), f + Range(c, e), base, c - base);
      RangeJoin(f, base, c, e);
    }
  }

  /** Some listed block holds page p. */
  ghost predicate Covered(s: State, p: nat)
    requires Shape(s)
  {
    exists k: nat :: k <= MAX_ORDER && Index(p, k) in s.lists[k]
  }

  /** No two listed blocks share a page, and no two buddies below the top order are both listed. */
  ghost predicate Tight(s: State)
    requires Shape(s)
  {
    forall k: nat, i: nat, l: nat, j: nat ::
      k <= MAX_ORDER && l <= MAX_ORDER && i in s.lists[k] && j in s.lists[l] && (k, i) != (l, j) ==>
        Pages(k, i) !! Pages(l, j) && (k == l < MAX_ORDER ==> j != Sibling(i))
  }

  lemma FreeIffCovered(s: State, free: iset<nat>, p: nat)
    requires Inv(s, free)
    ensures p in free <==> Covered(s, p)
  {
    if p in free {
      assert Index(p, 0) == p;
      var m := MaximalAbove(free, 0, p);
      assert Index(p, m) in s.lists[m];
    }
  }

  /** The listed blocks tile the free pages with no gap or overlap, fully coalesced. */
  lemma ListedBlocksTile(s: State, free: iset<nat>)
    requires Inv(s, free)
    ensures forall p: nat :: p in free <==> Covered(s, p)
    ensures Tight(s)
  {
    forall p: nat
      ensures p in free <==> Covered(s, p)
    {
      FreeIffCovered(s, free, p);
    }
    InvIsTight(s, free);
  }

  lemma InvIsTight(s: State, free: iset<nat>)
    requires Inv(s, free)
    ensures Tight(s)
  {
    forall k: nat, i: nat, l: nat, j: nat | k <= MAX_ORDER && l <= MAX_ORDER && i in s.lists[k] && j in s.lists[l] && (k, i) != (l, j)
      ensures Pages(k, i) !! Pages(l, j) && (k == l < MAX_ORDER ==> j != Sibling(i))
    {
      ListedBlocksDisjoint(s, free, k, i, l, j);
    }
  }

  /** Mapping one chunk into an empty allocator tiles exactly that chunk. */
  lemma ChunkTiled(base: nat, n: nat)
    requires LOWMEM_PAGES <= base && base + n <= MANAGED_PAGES
    ensures Tight(MapChunk(EMPTY, base, n))
    ensures forall p: nat :: Covered(MapChunk(EMPTY, base, n), p) <==> base <= p < base + n
  {
    var g := Range(base, base + n);
    EmptyInv();
    assert iset{} + g == g;
    MapChunkExact(EMPTY, iset{}, base, n);
    ListedBlocksTile(MapChunk(EMPTY, base, n), g);
    assert forall p: nat :: p in g <==> Within(p, base, base + n);
  }
}
