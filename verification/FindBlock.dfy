/** Where the boot loader looks for free memory: the nearest aligned block above or below an address.
    All address arithmetic is on 32-bit words, which wrap. */
module FindBlock {
  import Arith
  import opened MemoryMap

  const WORD: nat := 0x1_0000_0000
  const LIMIT: nat := 0xFFFF_FFFF

  datatype Query = Query(addr: nat, above: bool, size: nat, align: nat)

  predicate InWords(q: Query) {
    q.addr < 0x1_0000_0000 && q.size < 0x1_0000_0000 && q.align < 0x1_0000_0000
  }

  ghost predicate EndsInRange(mmap: seq<Region>) {
    forall i :: 0 <= i < |mmap| ==> mmap[i].End() <= ADDR_LIMIT
  }

  // ---------------------------------------------------------------- alignment

  predicate OnGrid(x: nat, align: nat) {
    align <= 1 || x % align == 0
  }

  /** Memory_AlignAddress, with the wrap of its product. */
  function AlignAddress(addr: nat, align: nat, above: bool): nat {
    if align <= 1 || addr % align == 0 then addr else align * ((if above then 1 else 0) + addr / align) % WORD
  }

  /** The nearest grid points, unwrapped. */
  function Up(x: nat, align: nat): nat {
    if OnGrid(x, align) then x else align * (1 + x / align)
  }

  function Down(x: nat, align: nat): nat {
    if OnGrid(x, align) then x else align * (x / align)
  }

  lemma UpIsLeast(x: nat, align: nat)
    ensures OnGrid(Up(x, align), align) && x <= Up(x, align) < x + align + 1
    ensures forall y: nat :: OnGrid(y, align) && x <= y ==> Up(x, align) <= y
  {
    if !OnGrid(x, align) {
      Arith.MultipleDiv(1 + x / align, align);
      Arith.NextMultiple(x / align, align);
      forall y: nat | OnGrid(y, align) && x <= y
        ensures Up(x, align) <= y
      {
        GridGap(y, x, align);
      }
    }
  }

  lemma DownIsGreatest(x: nat, align: nat)
    ensures OnGrid(Down(x, align), align) && Down(x, align) <= x
    ensures forall y: nat :: OnGrid(y, align) && y <= x ==> y <= Down(x, align)
  {
    if !OnGrid(x, align) {
      Arith.MultipleDiv(x / align, align);
      forall y: nat | OnGrid(y, align) && y <= x
        ensures y <= Down(x, align)
      {
        GridBelow(y, x, align);
      }
    }
  }

  /** A multiple past x is past the next multiple; one before x is not past the last. */
  lemma GridGap(y: nat, x: nat, d: nat)
    requires d > 1 && y % d == 0 && x % d != 0 && x <= y
    ensures d * (1 + x / d) <= y
  {
    GridQuotient(y, x, d);
    Arith.Monotone(1 + x / d, y / d, d);
  }

  lemma GridQuotient(y: nat, x: nat, d: nat)
    requires d > 1 && y % d == 0 && x % d != 0 && x <= y
    ensures x / d < y / d && y == y / d * d
  {
    Arith.Monotone(y / d, x / d, d);
  }

  lemma GridBelow(y: nat, x: nat, d: nat)
    requires d > 1 && y % d == 0 && y <= x
    ensures y <= d * (x / d)
  {
    Arith.Monotone(x / d + 1, y / d, d);
    Arith.NextMultiple(x / d, d);
    Arith.Monotone(y / d, x / d, d);
  }

  /** The code's alignment is the grid point, unless that lies past the last word. */
  lemma AlignIsGrid(x: nat, align: nat)
    requires x < WORD && align < WORD
    ensures AlignAddress(x, align, false) == Down(x, align)
    ensures AlignAddress(x, align, true) == if Up(x, align) < WORD then Up(x, align) else Up(x, align) - WORD
    ensures Up(x, align) >= WORD ==> Up(x, align) - WORD < x
  {
    UpIsLeast(x, align);
    DownIsGreatest(x, align);
  }

  // ---------------------------------------------------------------- the search

  /** The part of an entry the loader addresses ends here. */
  function Top(e: Region): nat {
    if e.End() > LIMIT then LIMIT else e.End()
  }

  datatype Verdict = Found(at: nat) | Best(mem: nat)

  /** What one entry does to the best start so far. */
  function Consider(q: Query, start: nat, e: Region, mem: nat): Verdict {
    if e.address >= LIMIT || Top(e) - e.address < q.size then Best(mem)
    else
      var shifted := if q.above then e.address else if Top(e) - q.size >= start then start else Top(e) - q.size;
      var base := AlignAddress(shifted, q.align, q.above);
      if base < e.address || base >= Top(e) then Best(mem)
      else if e.address <= start && Top(e) > (start + q.size) % WORD then Found(start)
      else if q.above && Top(e) - base >= q.size && base >= q.addr && base < mem then Best(base)
      else if !q.above && Top(e) - base >= q.size && base < q.addr && base > mem then Best(base)
      else Best(mem)
  }

  function Scan(q: Query, start: nat, mmap: seq<Region>, mem: nat): nat {
    if mmap == [] then if q.above || mem != 0 then mem else LIMIT
    else
      match Consider(q, start, mmap[0], mem)
      case Found(at) => at
      case Best(m) => Scan(q, start, mmap[1..], m)
  }

  predicate Refused(q: Query) {
    q.size == 0 || if q.above then q.addr == LIMIT || q.addr + q.size >= WORD else q.addr == 0 || q.addr < q.size
  }

  function Start(q: Query): nat
    requires !Refused(q)
  {
    AlignAddress(if q.above then q.addr else q.addr - q.size, q.align, q.above)
  }

  function Find(q: Query, mmap: seq<Region>): nat {
    if Refused(q) then LIMIT
    else if mmap == [] then if q.above then LIMIT else 0
    else Scan(q, Start(q), mmap, if q.above then LIMIT else 0)
  }

  lemma ScanNext(q: Query, start: nat, mmap: seq<Region>, i: nat, mem: nat)
    requires i < |mmap|
    ensures Scan(q, start, mmap[i..], mem) ==
      match Consider(q, start, mmap[i], mem) case Found(at) => at case Best(m) => Scan(q, start, mmap[i + 1..], m)
  {
    assert mmap[i..][0] == mmap[i] && mmap[i..][1..] == mmap[i + 1..];
  }

  lemma ScanEnds(q: Query, start: nat, mem: nat)
    ensures Scan(q, start, [], mem) == if q.above || mem != 0 then mem else LIMIT
  {
  }

  /** Memory_FindBlockAddress. */
  method FindBlockAddress(addr: nat, above: bool, size: nat, align: nat, mmap: seq<Region>) returns (r: nat)
    requires InWords(Query(addr, above, size, align)) && EndsInRange(mmap)
    ensures r == Find(Query(addr, above, size, align), mmap)
  {
    hide AlignAddress, Scan;
    ghost var q := Query(addr, above, size, align);
    if size == 0 {
      return LIMIT;
    }
    if above && (addr == LIMIT || (addr + size) % WORD < addr) {
      return LIMIT;
    }
    if !above && (addr == 0 || addr < size) {
      return LIMIT;
    }
    var mem: nat := if above then LIMIT else 0;
    var start := AlignAddress(if above then addr else addr - size, align, above);
    if |mmap| == 0 {
      return mem;
    }
    var i := 0;
    assert mmap[0..] == mmap;
    while i < |mmap|
      invariant i <= |mmap| && Find(q, mmap) == Scan(q, start, mmap[i..], mem)
    {
      var e := mmap[i];
      ScanNext(q, start, mmap, i, mem);
      i := i + 1;
      if e.address >= LIMIT {
        continue;
      }
      var entrySize := if e.address + e.size > LIMIT then LIMIT - e.address else e.size;
      if entrySize < size {
        continue;
      }
      var top := e.address + entrySize;
      var shifted: nat := e.address;
      if !above {
        if top - size >= start {
          shifted := start;
        } else {
          shifted := top - size;
        }
      }
      var base := AlignAddress(shifted, align, above);
      if base < e.address || base >= top {
        continue;
      }
      if e.address <= start && top > (start + size) % WORD {
        return start;
      }
      if above && top - base >= size && base >= addr && base < mem {
        mem := base;
      }
      if !above && top - base >= size && base < addr && base > mem {
        mem := base;
      }
    }
    assert mmap[i..] == [];
    ScanEnds(q, start, mem);
    if above || mem != 0 {
      return mem;
    }
    return LIMIT;
  }

  // ---------------------------------------------------------------- what it finds

  predicate Inside(e: Region, x: nat, size: nat) {
    e.address <= x && x + size <= Top(e)
  }

  /** A start the search accepts in an entry.  A start that leaves no byte to spare at the end of the
      entry counts above the address only where the entry's own first grid point does, and the start
      zero counts below it only with a byte to spare and nothing else to choose. */
  predicate Candidate(q: Query, e: Region, x: nat)
    requires !Refused(q)
  {
    && Inside(e, x, q.size) && OnGrid(x, q.align)
    && if q.above then q.addr <= x && (x + q.size < Top(e) || Up(e.address, q.align) >= q.addr)
       else x + q.size <= q.addr && (x > 0 || (x + q.size < Top(e) && Down(q.addr - q.size, q.align) == 0))
  }

  predicate Beats(q: Query, x: nat, y: nat) {
    if q.above then x <= y else x >= y
  }

  ghost predicate NoCandidate(q: Query, mmap: seq<Region>)
    requires !Refused(q)
  {
    forall i: nat, x: nat :: i < |mmap| ==> !Candidate(q, mmap[i], x)
  }

  /** r is a candidate somewhere, and no other is nearer to the address. */
  ghost predicate Nearest(q: Query, mmap: seq<Region>, r: nat)
    requires !Refused(q)
  {
    && (exists i: nat :: i < |mmap| && Candidate(q, mmap[i], r))
    && (forall i: nat, x: nat :: i < |mmap| && Candidate(q, mmap[i], x) ==> Beats(q, r, x))
  }

  ghost predicate Right(q: Query, mmap: seq<Region>, r: nat)
    requires !Refused(q)
  {
    Nearest(q, mmap, r) || (r == LIMIT && NoCandidate(q, mmap))
  }

  /** Above an address, the first grid point and a block there must end within the words. */
  predicate NoOverflow(q: Query) {
    q.above ==> Up(q.addr, q.align) + q.size < 0x1_0000_0000
  }

  /** Or that first grid point is the sentinel. */
  predicate Addressable(q: Query) {
    NoOverflow(q) || Up(q.addr, q.align) == 0xFFFF_FFFF
  }

  /** The best start so far, or its initial value. */
  ghost predicate SoFar(q: Query, mmap: seq<Region>, mem: nat)
    requires !Refused(q)
  {
    if mem == (if q.above then LIMIT else 0) then NoCandidate(q, mmap) else Nearest(q, mmap, mem)
  }

  /** The effect of one entry: a start found at once beats every candidate anywhere; otherwise the
      best start takes the entry's candidates into account. */
  ghost predicate Judged(q: Query, e: Region, mem: nat, v: Verdict)
    requires !Refused(q)
  {
    match v
    case Found(at) => Candidate(q, e, at) && forall f: Region, x: nat :: Candidate(q, f, x) ==> Beats(q, at, x)
    case Best(m) =>
      && (m == mem || (Candidate(q, e, m) && Beats(q, m, mem) && m != if q.above then LIMIT else 0))
      && forall x: nat :: Candidate(q, e, x) ==> Beats(q, m, x) && m != if q.above then LIMIT else 0
  }

  lemma ConsiderAbove(q: Query, e: Region, mem: nat)
    requires InWords(q) && q.above && !Refused(q) && NoOverflow(q) && mem <= LIMIT
    ensures Judged(q, e, mem, Consider(q, Start(q), e, mem))
  {
    hide AlignAddress, Up, OnGrid, Consider, Candidate;
    StartAbove(q);
    UpIsLeast(q.addr, q.align);
    if e.address < LIMIT {
      UpIsLeast(e.address, q.align);
      AlignIsGrid(e.address, q.align);
      ConsiderBase(q, e, mem);
    } else {
      ConsiderBeyond(q, e, mem);
    }
  }

  lemma StartAbove(q: Query)
    requires InWords(q) && q.above && !Refused(q) && NoOverflow(q)
    ensures Start(q) == Up(q.addr, q.align)
  {
    hide AlignAddress, Up, OnGrid;
    AlignIsGrid(q.addr, q.align);
  }

  lemma ConsiderBeyond(q: Query, e: Region, mem: nat)
    requires q.above && !Refused(q) && e.address >= LIMIT
    ensures Judged(q, e, mem, Consider(q, Start(q), e, mem))
  {
    hide AlignAddress, Up, OnGrid, Start;
  }

  lemma ConsiderBase(q: Query, e: Region, mem: nat)
    requires InWords(q) && q.above && !Refused(q) && NoOverflow(q) && mem <= LIMIT && e.address < LIMIT
    requires Start(q) == Up(q.addr, q.align) && OnGrid(Start(q), q.align) && q.addr <= Start(q)
    requires forall y: nat :: OnGrid(y, q.align) && q.addr <= y ==> Start(q) <= y
    requires var up := Up(e.address, q.align);
      && OnGrid(up, q.align) && e.address <= up && (forall y: nat :: OnGrid(y, q.align) && e.address <= y ==> up <= y)
      && AlignAddress(e.address, q.align, true) == (if up < WORD then up else up - WORD) && (up >= WORD ==> up - WORD < e.address)
    ensures Judged(q, e, mem, Consider(q, Start(q), e, mem))
  {
    hide AlignAddress, Up, OnGrid, Start;
    assert (Start(q) + q.size) % WORD == Start(q) + q.size;
  }

  lemma ConsiderBelow(q: Query, e: Region, mem: nat)
    requires InWords(q) && !q.above && !Refused(q)
    ensures Judged(q, e, mem, Consider(q, Start(q), e, mem))
  {
    hide AlignAddress, Up, Down, OnGrid;
    var start := q.addr - q.size;
    AlignIsGrid(start, q.align);
    DownIsGreatest(start, q.align);
    if e.address < LIMIT && Top(e) - e.address >= q.size {
      var shifted := if Top(e) - q.size >= Start(q) then Start(q) else Top(e) - q.size;
      AlignIsGrid(shifted, q.align);
      DownIsGreatest(shifted, q.align);
      ConsiderShifted(q, e, mem, Down(shifted, q.align));
    }
  }

  /** base is the last grid point from which a block fits both below the address and in the entry. */
  lemma ConsiderShifted(q: Query, e: Region, mem: nat, base: nat)
    requires InWords(q) && !q.above && !Refused(q) && e.address < LIMIT && Top(e) - e.address >= q.size
    requires var shifted := if Top(e) - q.size >= Start(q) then Start(q) else Top(e) - q.size;
      base == AlignAddress(shifted, q.align, false) && base <= shifted && OnGrid(base, q.align)
      && (OnGrid(Start(q), q.align) && forall y: nat :: OnGrid(y, q.align) && y <= shifted ==> y <= base)
    requires Start(q) == Down(q.addr - q.size, q.align) <= q.addr - q.size
    requires forall y: nat :: OnGrid(y, q.align) && y <= q.addr - q.size ==> y <= Start(q)
    ensures Judged(q, e, mem, Consider(q, Start(q), e, mem))
  {
    hide AlignAddress, Up, Down, OnGrid, Start;
    assert (Start(q) + q.size) % WORD == Start(q) + q.size;
  }

  lemma {:induction false} ScanIsRight(q: Query, done: seq<Region>, rest: seq<Region>, mem: nat)
    requires InWords(q) && !Refused(q) && NoOverflow(q) && SoFar(q, done, mem) && mem <= LIMIT
    ensures Right(q, done + rest, Scan(q, Start(q), rest, mem))
    decreases |rest|
  {
    hide Candidate, Consider, Start;
    if rest == [] {
      assert done + rest == done;
    } else {
      var e := rest[0];
      if q.above {
        ConsiderAbove(q, e, mem);
      } else {
        ConsiderBelow(q, e, mem);
      }
      assert (done + rest)[|done|] == e;
      match Consider(q, Start(q), e, mem)
      case Found(at) =>
      case Best(m) =>
        OneMore(q, done, e, mem, m);
        assert done + rest == (done + [e]) + rest[1..];
        BestBounded(q, done + [e], m);
        ScanIsRight(q, done + [e], rest[1..], m);
    }
  }

  lemma OneMore(q: Query, done: seq<Region>, e: Region, mem: nat, m: nat)
    requires !Refused(q) && SoFar(q, done, mem) && Judged(q, e, mem, Best(m)) && mem <= LIMIT
    ensures SoFar(q, done + [e], m)
  {
    hide Candidate;
    var more := done + [e];
    assert more[|done|] == e;
    var unset := if q.above then LIMIT else 0;
    forall i: nat, x: nat | i < |more| && Candidate(q, more[i], x)
      ensures Beats(q, m, x) && m != unset
    {
      if i < |done| {
        assert Candidate(q, done[i], x);
        assert mem != unset && Beats(q, mem, x);
        assert m == mem || Beats(q, m, mem);
      } else {
        assert Candidate(q, e, x);
      }
    }
    if m == mem != unset {
      var i: nat :| i < |done| && Candidate(q, done[i], m);
      assert Candidate(q, more[i], m);
    }
  }

  lemma BestBounded(q: Query, mmap: seq<Region>, m: nat)
    requires !Refused(q) && SoFar(q, mmap, m)
    ensures m <= LIMIT
  {
  }

  /** Given an entry to look at and no overflow, the search returns the nearest start it accepts, or
      the sentinel exactly when there is none. */
  lemma FindIsRight(q: Query, mmap: seq<Region>)
    requires InWords(q) && !Refused(q) && Addressable(q) && mmap != []
    ensures Right(q, mmap, Find(q, mmap))
  {
    hide Candidate, Up, Start;
    if NoOverflow(q) {
      assert [] + mmap == mmap;
      ScanIsRight(q, [], mmap, if q.above then LIMIT else 0);
    } else {
      NoGridPoint(q, mmap);
      ScanFindsNothing(q, mmap);
    }
  }

  /** From an address whose first grid point is the sentinel itself nothing can be found, and nothing is. */
  lemma NoGridPoint(q: Query, mmap: seq<Region>)
    requires InWords(q) && !Refused(q) && q.above && Up(q.addr, q.align) == LIMIT
    ensures NoCandidate(q, mmap) && Start(q) == LIMIT
  {
    UpIsLeast(q.addr, q.align);
    AlignIsGrid(q.addr, q.align);
  }

  lemma {:induction false} ScanFindsNothing(q: Query, mmap: seq<Region>)
    requires InWords(q) && !Refused(q) && q.above && Up(q.addr, q.align) == LIMIT && Start(q) == LIMIT
    ensures Scan(q, Start(q), mmap, LIMIT) == LIMIT
    decreases |mmap|
  {
    hide Up, AlignAddress, OnGrid, Start;
    if mmap != [] {
      var e := mmap[0];
      UpIsLeast(q.addr, q.align);
      if e.address < LIMIT {
        UpIsLeast(e.address, q.align);
        AlignIsGrid(e.address, q.align);
      }
      ScanFindsNothing(q, mmap[1..]);
    }
  }

  /** Every aligned start that fits with a byte to spare, and below also every nonzero one that fits,
      is accepted; so none of these is nearer than what the search returns. */
  lemma NoneNearer(q: Query, mmap: seq<Region>, i: nat, x: nat)
    requires InWords(q) && !Refused(q) && NoOverflow(q) && i < |mmap| && Inside(mmap[i], x, q.size) && OnGrid(x, q.align)
    requires if q.above then q.addr <= x && x + q.size < Top(mmap[i]) else x > 0 && x + q.size <= q.addr
    ensures var r := Find(q, mmap);
      r != LIMIT && Beats(q, r, x) && OnGrid(r, q.align)
      && (if q.above then q.addr <= r else r + q.size <= q.addr)
      && exists j: nat :: j < |mmap| && Inside(mmap[j], r, q.size)
  {
    hide OnGrid, Up, Down;
    FindIsRight(q, mmap);
    assert Candidate(q, mmap[i], x);
  }

  /** The search is right on every map if and only if a block at the first grid point above the address ends within the
      words, or that grid point is the sentinel. */
  lemma RightIffNoOverflow(q: Query)
    requires InWords(q) && !Refused(q)
    ensures (forall mmap: seq<Region> :: mmap != [] && EndsInRange(mmap) ==> Right(q, mmap, Find(q, mmap))) <==> Addressable(q)
  {
    if Addressable(q) {
      forall mmap: seq<Region> | mmap != [] && EndsInRange(mmap)
        ensures Right(q, mmap, Find(q, mmap))
      {
        FindIsRight(q, mmap);
      }
    } else {
      OverflowFails(q);
    }
  }

  /** Otherwise a map of one entry over all of the loader's memory makes the search return a block that
      starts below the address or ends past the last word. */
  lemma OverflowFails(q: Query)
    requires InWords(q) && !Refused(q) && !Addressable(q)
    ensures var mmap := [Region(0, LIMIT)]; EndsInRange(mmap) && !Right(q, mmap, Find(q, mmap))
  {
    hide Up;
    var e := Region(0, LIMIT);
    var mmap := [e];
    AlignIsGrid(q.addr, q.align);
    assert AlignAddress(0, q.align, true) == 0 by {
      ZeroOnGrid(q.align);
    }
    assert Consider(q, Start(q), e, LIMIT) == Found(Start(q));
    var r := Start(q);
    assert Find(q, mmap) == r;
    assert !Candidate(q, e, r);
  }

  lemma ZeroOnGrid(align: nat)
    ensures OnGrid(0, align)
  {
  }

  /** The loader's check that a block of the file's size is free where the kernel goes: it passes exactly
      when one entry holds the block and either has a byte to spare behind it or starts with it. */
  lemma PlaceIsFreeIff(at: nat, size: nat, mmap: seq<Region>)
    requires mmap != [] && 0 < size && at + size < WORD && at != LIMIT
    ensures Find(Query(at, true, size, 1), mmap) == at <==>
      exists i: nat :: i < |mmap| && Inside(mmap[i], at, size) && (at + size < Top(mmap[i]) || mmap[i].address == at)
  {
    var q := Query(at, true, size, 1);
    FindIsRight(q, mmap);
    if i: nat :| i < |mmap| && Inside(mmap[i], at, size) && (at + size < Top(mmap[i]) || mmap[i].address == at) {
      assert Candidate(q, mmap[i], at);
      assert !NoCandidate(q, mmap);
      var r := Find(q, mmap);
      assert Nearest(q, mmap, r) && Beats(q, r, at);
      var j: nat :| j < |mmap| && Candidate(q, mmap[j], r);
    }
  }

  // ---------------------------------------------------------------- the nearest block that fits

  /** A block from x lies in the entry below the last 32-bit address, on a multiple of the alignment
      and on the requested side of the address. */
  predicate Fits(q: Query, e: Region, x: nat) {
    && e.address <= x && x + q.size <= e.address + e.size && x + q.size <= 0xFFFF_FFFF
    && (q.align > 1 ==> x % q.align == 0)
    && if q.above then q.addr <= x else x + q.size <= q.addr
  }

  /** Above the address the entry holds the block with a byte to spare or has its own first grid point
      there; below it the block does not start at zero, or the entry has a byte to spare behind it
      and zero is the first grid point below the address. */
  predicate SeenIn(q: Query, e: Region, x: nat)
    requires !q.above ==> q.size <= q.addr
  {
    var spare := x + q.size < e.address + e.size && x + q.size < 0xFFFF_FFFF;
    if q.above then spare || Up(e.address, q.align) >= q.addr else x > 0 || (spare && Down(q.addr - q.size, q.align) == 0)
  }

  lemma FitsInside(q: Query, e: Region, x: nat)
    ensures Fits(q, e, x) <==> Inside(e, x, q.size) && OnGrid(x, q.align) && if q.above then q.addr <= x else x + q.size <= q.addr
  {
  }

  /** A candidate fits, and a start seen in an entry is a candidate. */
  lemma CandidateFits(q: Query, e: Region, x: nat)
    requires !Refused(q)
    ensures Candidate(q, e, x) ==> Fits(q, e, x)
    ensures Fits(q, e, x) && SeenIn(q, e, x) ==> Candidate(q, e, x)
  {
    FitsInside(q, e, x);
  }

  ghost predicate NearestFit(q: Query, mmap: seq<Region>, x: nat) {
    && (exists i: nat :: i < |mmap| && Fits(q, mmap[i], x))
    && (forall i: nat, y: nat :: i < |mmap| && Fits(q, mmap[i], y) ==> Beats(q, x, y))
  }

  ghost predicate NoFit(q: Query, mmap: seq<Region>) {
    forall i: nat, x: nat :: i < |mmap| ==> !Fits(q, mmap[i], x)
  }

  /** What the search is for: the start of the nearest block that fits, or the sentinel if there is none. */
  ghost predicate Ideal(q: Query, mmap: seq<Region>, r: nat) {
    NearestFit(q, mmap, r) || (r == LIMIT && NoFit(q, mmap))
  }

  ghost predicate Seen(q: Query, mmap: seq<Region>, x: nat) {
    exists i: nat :: i < |mmap| && Fits(q, mmap[i], x) && SeenIn(q, mmap[i], x)
  }

  /** For blocks that are not empty the search refuses at once only where nothing can fit, and nothing
      is nearest; an empty block it always refuses. */
  lemma RefusedHasNoFit(q: Query, mmap: seq<Region>)
    requires InWords(q) && Refused(q)
    ensures Find(q, mmap) == 0xFFFF_FFFF
    ensures q.size > 0 ==> NoFit(q, mmap) && Ideal(q, mmap, Find(q, mmap))
  {
    hide OnGrid;
  }

  /** If any block fits, one is nearest. */
  lemma {:induction false} SomeNearest(q: Query, mmap: seq<Region>, i: nat, x: nat) returns (n: nat)
    requires i < |mmap| && Fits(q, mmap[i], x)
    ensures NearestFit(q, mmap, n)
    decreases if q.above then x else LIMIT - x
  {
    hide OnGrid;
    if forall j: nat, y: nat :: j < |mmap| && Fits(q, mmap[j], y) ==> Beats(q, x, y) {
      n := x;
    } else {
      var j: nat, y: nat :| j < |mmap| && Fits(q, mmap[j], y) && !Beats(q, x, y);
      n := SomeNearest(q, mmap, j, y);
    }
  }

  /** On a map with entries the search finds what it is for, if and only if it sees the nearest block
      that fits, if one does. */
  lemma IdealIffSeen(q: Query, mmap: seq<Region>)
    requires InWords(q) && q.size > 0 && mmap != []
    requires q.above && q.addr + q.size < 0x1_0000_0000 ==> Addressable(q)
    ensures Ideal(q, mmap, Find(q, mmap)) <==> forall n: nat :: NearestFit(q, mmap, n) ==> Seen(q, mmap, n)
  {
    hide OnGrid, Up, Down, Find, Seen;
    if Refused(q) {
      RefusedHasNoFit(q, mmap);
    } else {
      IdealIffSeenHere(q, mmap);
    }
  }

  lemma IdealIffSeenHere(q: Query, mmap: seq<Region>)
    requires InWords(q) && !Refused(q) && Addressable(q) && mmap != []
    ensures Ideal(q, mmap, Find(q, mmap)) <==> forall n: nat :: NearestFit(q, mmap, n) ==> Seen(q, mmap, n)
  {
    hide OnGrid, Up, Down, Find;
    FindIsRight(q, mmap);
    var r := Find(q, mmap);
    if Ideal(q, mmap, r) {
      forall n: nat | NearestFit(q, mmap, n)
        ensures Seen(q, mmap, n)
      {
        NearestIsFound(q, mmap, r, n);
      }
    }
    if forall n: nat :: NearestFit(q, mmap, n) ==> Seen(q, mmap, n) {
      SeenIsFound(q, mmap, r);
    }
  }

  lemma NearestIsFound(q: Query, mmap: seq<Region>, r: nat, n: nat)
    requires !Refused(q) && Right(q, mmap, r) && Ideal(q, mmap, r) && NearestFit(q, mmap, n)
    ensures Seen(q, mmap, n)
  {
    hide OnGrid, Up, Down;
    var i: nat :| i < |mmap| && Fits(q, mmap[i], n);
    assert NearestFit(q, mmap, r) && Beats(q, r, n) && Beats(q, n, r) && r == n;
    assert Nearest(q, mmap, r);
    var j: nat :| j < |mmap| && Candidate(q, mmap[j], r);
    CandidateFits(q, mmap[j], r);
  }

  lemma SeenIsFound(q: Query, mmap: seq<Region>, r: nat)
    requires !Refused(q) && Right(q, mmap, r) && forall n: nat :: NearestFit(q, mmap, n) ==> Seen(q, mmap, n)
    ensures Ideal(q, mmap, r)
  {
    hide OnGrid, Up, Down;
    if i: nat, x: nat :| i < |mmap| && Fits(q, mmap[i], x) {
      var n := SomeNearest(q, mmap, i, x);
      var j: nat :| j < |mmap| && Fits(q, mmap[j], n) && SeenIn(q, mmap[j], n);
      CandidateFits(q, mmap[j], n);
      assert Candidate(q, mmap[j], n) && !NoCandidate(q, mmap);
      assert Nearest(q, mmap, r) && Beats(q, r, n);
      var k: nat :| k < |mmap| && Candidate(q, mmap[k], r);
      CandidateFits(q, mmap[k], r);
      assert Beats(q, n, r) && r == n;
    } else {
      forall i: nat, x: nat | i < |mmap|
        ensures !Candidate(q, mmap[i], x)
      {
        CandidateFits(q, mmap[i], x);
      }
    }
  }

  /** A block that ends exactly where its entry does is missed above an address inside the entry ... */
  lemma ExactFitMissedAbove()
    ensures var q := Query(0x1800, true, 0x800, 1);
      var mmap := [Region(0x1000, 0x1000)];
      NearestFit(q, mmap, 0x1800) && Find(q, mmap) == LIMIT
  {
    var e, q := Region(0x1000, 0x1000), Query(0x1800, true, 0x800, 1);
    var mmap := [e];
    assert mmap[0] == e && Fits(q, e, 0x1800);
    assert Consider(q, 0x1800, e, LIMIT) == Best(LIMIT);
    assert Scan(q, 0x1800, mmap, LIMIT) == Scan(q, 0x1800, [], LIMIT) == LIMIT;
  }

  /** ... and so is one that starts at zero below. */
  lemma ExactFitMissedBelow()
    ensures var q := Query(0x1000, false, 0x1000, 1);
      var mmap := [Region(0, 0x1000)];
      NearestFit(q, mmap, 0) && Find(q, mmap) == LIMIT
  {
    var e, q := Region(0, 0x1000), Query(0x1000, false, 0x1000, 1);
    var mmap := [e];
    assert mmap[0] == e && Fits(q, e, 0);
    assert Consider(q, 0, e, 0) == Best(0);
    assert Scan(q, 0, mmap, 0) == Scan(q, 0, [], 0) == LIMIT;
  }

  /** Without entries nothing fits, and the search says so above an address but answers 0 below. */
  lemma EmptyMapIff(q: Query)
    requires InWords(q) && !Refused(q)
    ensures NoFit(q, []) && (Ideal(q, [], Find(q, [])) <==> q.above)
    ensures !q.above ==> Find(q, []) == 0
  {
  }
}
