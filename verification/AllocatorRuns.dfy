/** Every run of map, acquire and release calls.  The only demands on callers are that a chunk does
    not touch pages already managed and that only an outstanding block is released. */
module AllocatorRuns {
  import opened Blocks
  import opened Options
  import opened Buddy
  import opened Chunk

  datatype Op = Map(base: nat, n: nat) | Get(k: nat) | Put(k: nat, i: nat)

  /** The allocator, the blocks handed out and not yet released, and the pages ever mapped. */
  datatype World = World(s: State, out: set<(nat, nat)>, managed: iset<nat>)

  const START := World(EMPTY, {}, iset{})

  ghost predicate HandedOut(out: set<(nat, nat)>, p: nat) {
    exists b :: b in out && p in Pages(b.0, b.1)
  }

  ghost function FreePages(w: World): iset<nat> {
    iset p: nat | p in w.managed && !HandedOut(w.out, p)
  }

  ghost predicate Legal(w: World, op: Op) {
    match op
    case Map(base, n) =>
      && LOWMEM_PAGES <= base && base + n <= MANAGED_PAGES
      && w.managed !! Range(base, base + n) && base + n !in w.managed && base - 1 !in w.managed
    case Get(k) => k <= MAX_ORDER
    case Put(k, i) => (k, i) in w.out
  }

  ghost function Apply(w: World, op: Op): (r: World)
    requires Shape(w.s) && (op.Get? || op.Put? ==> op.k <= MAX_ORDER)
    ensures Shape(r.s)
  {
    match op
    case Map(base, n) => World(MapChunk(w.s, base, n), w.out, w.managed + Range(base, base + n))
    case Get(k) =>
      var (b, t) := Acquire(w.s, k);
      if b.None? then w else World(t, w.out + {(k, b.value)}, w.managed)
    case Put(k, i) => World(Release(w.s, k, i), w.out - {(k, i)}, w.managed)
  }

  /** The allocator is exact for the managed pages that are not handed out, and the blocks handed
      out are disjoint blocks of managed pages. */
  ghost predicate WorldInv(w: World) {
    && Inv(w.s, FreePages(w))
    && (forall b :: b in w.out ==> b.0 <= MAX_ORDER && Whole(w.managed, b.0, b.1))
    && (forall b, c :: b in w.out && c in w.out && b != c ==> Pages(b.0, b.1) !! Pages(c.0, c.1))
  }

  ghost predicate LegalRun(w: World, ops: seq<Op>)
    requires WorldInv(w)
    decreases |ops|
  {
    ops == [] || (Legal(w, ops[0]) && (StepKeeps(w, ops[0]); LegalRun(Apply(w, ops[0]), ops[1..])))
  }

  ghost function Run(w: World, ops: seq<Op>): World
    requires WorldInv(w) && LegalRun(w, ops)
    decreases |ops|
  {
    if ops == [] then w else StepKeeps(w, ops[0]); Run(Apply(w, ops[0]), ops[1..])
  }

  lemma StepKeeps(w: World, op: Op)
    requires WorldInv(w) && Legal(w, op)
    ensures WorldInv(Apply(w, op))
  {
    match op
    case Map(base, n) => MapKeeps(w, base, n);
    case Get(k) => GetKeeps(w, k);
    case Put(k, i) => PutKeeps(w, k, i);
  }

  lemma HandedOutManaged(w: World, p: nat)
    requires WorldInv(w)
    ensures HandedOut(w.out, p) ==> p in w.managed
  {
    if HandedOut(w.out, p) {
      var b :| b in w.out && p in Pages(b.0, b.1);
      assert Whole(w.managed, b.0, b.1);
    }
  }

  lemma MapKeeps(w: World, base: nat, n: nat)
    requires WorldInv(w) && Legal(w, Map(base, n))
    ensures WorldInv(Apply(w, Map(base, n)))
  {
    var f, g := FreePages(w), Range(base, base + n);
    var w' := Apply(w, Map(base, n));
    SeparateByGap(f, base, base + n);
    MapChunkExact(w.s, f, base, n);
    forall p: nat
      ensures p in FreePages(w') <==> p in f + g
    {
      HandedOutManaged(w, p);
    }
    assert FreePages(w') == f + g;
  }

  lemma GetKeeps(w: World, k: nat)
    requires WorldInv(w) && k <= MAX_ORDER
    ensures WorldInv(Apply(w, Get(k)))
  {
    var f := FreePages(w);
    var (b, t) := Acquire(w.s, k);
    AcquireExact(w.s, f, k);
    if b.Some? {
      var i := b.value;
      var w' := Apply(w, Get(k));
      forall p: nat
        ensures HandedOut(w'.out, p) <==> HandedOut(w.out, p) || p in Pages(k, i)
      {
        if p in Pages(k, i) {
          assert (k, i) in w'.out;
        }
        if HandedOut(w.out, p) {
          var c :| c in w.out && p in Pages(c.0, c.1);
          assert c in w'.out;
        }
      }
      assert FreePages(w') == f - Pages(k, i);
      forall c, p: nat | c in w.out && p in Pages(c.0, c.1)
        ensures p !in Pages(k, i)
      {
        assert HandedOut(w.out, p);
        assert p !in f;
      }
    }
  }

  lemma PutKeeps(w: World, k: nat, i: nat)
    requires WorldInv(w) && (k, i) in w.out
    ensures WorldInv(Apply(w, Put(k, i)))
  {
    var f, g := FreePages(w), Pages(k, i);
    var w' := Apply(w, Put(k, i));
    forall p: nat
      ensures HandedOut(w.out, p) <==> HandedOut(w'.out, p) || p in g
      ensures p in g ==> !HandedOut(w'.out, p) && p in w.managed && p !in f
    {
      if HandedOut(w.out, p) {
        var c :| c in w.out && p in Pages(c.0, c.1);
        assert c == (k, i) || c in w'.out;
      }
      if p in g {
        assert Whole(w.managed, (k, i).0, (k, i).1);
        assert HandedOut(w.out, p);
      }
    }
    assert FreePages(w') == f + g;
    ReleaseCoalesces(w.s, f, k, i);
  }

  /** The allocator invariant holds after every legal run from an empty allocator. */
  lemma {:induction false} RunKeeps(w: World, ops: seq<Op>)
    requires WorldInv(w) && LegalRun(w, ops)
    ensures WorldInv(Run(w, ops))
    decreases |ops|
  {
    if ops != [] {
      StepKeeps(w, ops[0]);
      RunKeeps(Apply(w, ops[0]), ops[1..]);
    }
  }

  lemma StartIsExact()
    ensures WorldInv(START)
  {
    EmptyInv();
    assert FreePages(START) == iset{};
  }

  /** In every reachable allocator each managed page is in exactly one listed block or in exactly one
      block handed out, and no unmanaged page is in either. */
  lemma ManagedPagesConserved(w: World, p: nat)
    requires WorldInv(w)
    ensures p in w.managed <==> Covered(w.s, p) || HandedOut(w.out, p)
    ensures !(Covered(w.s, p) && HandedOut(w.out, p))
    ensures Tight(w.s)
  {
    ListedBlocksTile(w.s, FreePages(w));
    HandedOutManaged(w, p);
  }

  /** Some page of the block is unmanaged or handed out. */
  ghost predicate Occupied(w: World, k: nat, i: nat) {
    exists p: nat :: Index(p, k) == i && (p !in w.managed || HandedOut(w.out, p))
  }

  /** In every reachable allocator an acquisition fails exactly when every aligned run of 2^k pages
      holds an unmanaged page or a page handed out. */
  lemma CoalescingIsComplete(w: World, k: nat)
    requires WorldInv(w) && k <= MAX_ORDER
    ensures Acquire(w.s, k).0.None? <==> forall i: nat :: Occupied(w, k, i)
    ensures Acquire(w.s, k).0.Some? ==> !Occupied(w, k, Acquire(w.s, k).0.value)
  {
    AcquireExact(w.s, FreePages(w), k);
    forall i: nat
      ensures Whole(FreePages(w), k, i) <==> !Occupied(w, k, i)
    {
      if !Whole(FreePages(w), k, i) {
        var p: nat :| Index(p, k) == i && p !in FreePages(w);
        assert Occupied(w, k, i);
      }
    }
  }
}
