/** Address spaces over the page allocator.  Every frame ever taken from the allocator for paging is
    a directory, a table or the data page of one user page, and goes back when its use ends. */
module Paging {
  import opened Options
  import opened PageTables
  import Blocks
  import Buddy
  import BuddyMacro
  import Chunk
  import FreeList
  import PhysMem
  import RawRelease

  const NULL: int := FreeList.NULL
  const OFFSET: int := FreeList.OFFSET
  const USER_END: nat := 0x8000_0000

  /** KERNADDR of a frame. */
  function KernPtr(f: nat): int {
    PAGE_SIZE * f + OFFSET
  }

  lemma PtrIsKernPtr(f: nat)
    ensures FreeList.Ptr(0, f) == KernPtr(f)
    ensures Blocks.Pages(0, f) == iset{f}
  {
  }

  lemma NoFreePage(free: iset<nat>)
    ensures Buddy.NoneWhole(free, 0) <==> free == iset{}
  {
    if f :| f in free {
      assert Blocks.Index(f, 0) == f;
      assert Blocks.Whole(free, 0, f);
    }
    forall f: nat | Blocks.Whole(free, 0, f)
      ensures f in free
    {
      assert Blocks.Index(f, 0) == f;
    }
  }

  /** Acquiring one page. */
  lemma AcquireOne(s: Buddy.State, free: iset<nat>)
    requires Buddy.Inv(s, free)
    ensures var b := Buddy.Acquire(s, 0).0;
      && (b.None? <==> free == iset{})
      && (b.Some? ==> b.value in free && FreeList.Ptr(0, b.value) == KernPtr(b.value) && Blocks.Pages(0, b.value) == iset{b.value})
  {
    Buddy.AcquireExact(s, free, 0);
    NoFreePage(free);
    var b := Buddy.Acquire(s, 0).0;
    if b.Some? {
      PtrIsKernPtr(b.value);
      assert Blocks.Index(b.value, 0) == b.value;
    }
  }

  /** PAGEDIRIDX and PAGETABIDX split the page number. */
  lemma IndexSplit(va: nat)
    requires va < USER_END
    ensures va / 0x40_0000 == va / PAGE_SIZE / ENTRIES < USER_TABLES && va / PAGE_SIZE < USER_PAGES
  {
  }

  const WORD: nat := 0x1_0000_0000

  /** How many pages a range of bytes touches. */
  function PagesTouched(va: nat, size: nat): nat {
    if size == 0 then 0 else (va + size - 1) / PAGE_SIZE - va / PAGE_SIZE + 1
  }

  /** The old bindings with n pages from v0 newly bound to frames that were free. */
  ghost predicate Extended(m: map<nat, nat>, m': map<nat, nat>, v0: nat, n: nat, free: iset<nat>) {
    && (forall v: nat :: v in m' <==> v in m || v0 <= v < v0 + n)
    && (forall v: nat :: v in m ==> m'[v] == m[v] && !(v0 <= v < v0 + n))
    && (forall v: nat :: v in m' && v !in m ==> m'[v] in free)
  }

  lemma ExtendedByNone(m: map<nat, nat>, v0: nat, free: iset<nat>)
    ensures Extended(m, m, v0, 0, free)
  {
  }

  lemma ExtendedOnce(m: map<nat, nat>, m1: map<nat, nat>, m2: map<nat, nat>, v0: nat, k: nat, free: iset<nat>, free1: iset<nat>)
    requires Extended(m, m1, v0, k, free) && Extended(m1, m2, v0 + k, 1, free1) && free1 <= free
    ensures Extended(m, m2, v0, k + 1, free)
  {
  }

  lemma ExtendedOutside(m: map<nat, nat>, m1: map<nat, nat>, v0: nat, k: nat, free: iset<nat>)
    requires Extended(m, m1, v0, k, free)
    ensures v0 + k in m1 ==> v0 + k in m
  {
  }

  /** The pages of a range of bytes. */
  lemma PageRange(va: nat, size: nat)
    requires va + size <= USER_END
    ensures size == 0 ==> PagesTouched(va, size) == 0
    ensures va - va % PAGE_SIZE == PAGE_SIZE * (va / PAGE_SIZE)
    ensures size > 0 ==>
      && PagesTouched(va, size) > 0
      && va + size - 1 - (va + size - 1) % PAGE_SIZE == PAGE_SIZE * (va / PAGE_SIZE + PagesTouched(va, size) - 1) < USER_END
  {
  }

  /** So many pages, and no fewer, hold every byte of the range from the first page on. */
  lemma PagesHoldRange(va: nat, size: nat, n: nat)
    requires n <= PagesTouched(va, size)
    ensures n > 0 ==> 0x1000 * n - 0x1000 < va % 0x1000 + size
    ensures size > 0 ==> (n == PagesTouched(va, size) <==> va % 0x1000 + size <= 0x1000 * n)
  {
  }

  ghost predicate AtMostOne(s: iset<nat>) {
    forall x, y :: x in s && y in s ==> x == y
  }

  /** The first and last page of an unmapping. */
  function UnmapFrom(va: nat): nat {
    (va + PAGE_SIZE - 1) % WORD / PAGE_SIZE
  }

  function UnmapTo(va: nat, size: nat): nat {
    (va + size - 1) % WORD / PAGE_SIZE
  }

  predicate InRun(v: int, lo: int, hi: int) {
    lo <= v <= hi
  }

  /** In bytes: pages that neither start before the first byte, rounded up, nor after the last. */
  lemma UnmapBytes(va: nat, size: nat, v: nat)
    requires va < WORD && size < WORD
    ensures InRun(v, UnmapFrom(va), UnmapTo(va, size)) <==>
      (va + 0xFFF) % 0x1_0000_0000 < 0x1000 * v + 0x1000 && 0x1000 * v <= (va + size - 1) % 0x1_0000_0000
    ensures 0 < va + size <= 0x1_0000_0000 && va <= 0xFFFF_F000 ==>
      (InRun(v, UnmapFrom(va), UnmapTo(va, size)) <==> va <= 0x1000 * v < va + size)
  {
  }

  lemma UnmapAllBytes(va: nat, size: nat)
    requires va < WORD && size < WORD
    ensures var first, last := (va + 0xFFF) % 0x1_0000_0000, (va + size - 1) % 0x1_0000_0000;
      && (first >= 0x8000_0000 <==> UnmapFrom(va) >= USER_PAGES) && (last >= 0x7FFF_F000 <==> UnmapTo(va, size) >= USER_PAGES - 1)
      && forall v: nat :: InRun(v, UnmapFrom(va), UnmapTo(va, size)) <==> first < 0x1000 * v + 0x1000 && 0x1000 * v <= last
    ensures 0 < va + size <= 0x1_0000_0000 && va <= 0xFFFF_F000 ==>
      forall v: nat :: InRun(v, UnmapFrom(va), UnmapTo(va, size)) <==> va <= 0x1000 * v < va + size
  {
    forall v: nat
      ensures InRun(v, UnmapFrom(va), UnmapTo(va, size)) <==>
        (va + 0xFFF) % 0x1_0000_0000 < 0x1000 * v + 0x1000 && 0x1000 * v <= (va + size - 1) % 0x1_0000_0000
      ensures 0 < va + size <= 0x1_0000_0000 && va <= 0xFFFF_F000 ==>
        (InRun(v, UnmapFrom(va), UnmapTo(va, size)) <==> va <= 0x1000 * v < va + size)
    {
      UnmapBytes(va, size, v);
    }
  }

  lemma UnmapReaches(va: nat, size: nat)
    requires 0 < va + size <= 0x1_0000_0000 && va <= 0xFFFF_F000 && size < WORD
    ensures UnmapFrom(va) >= USER_PAGES || UnmapTo(va, size) >= USER_PAGES - 1 <==> va + size > 0x7FFF_F000
  {
  }

  lemma InvOf(mem: PhysMem.Allocator)
    requires mem.Valid()
    ensures Buddy.Inv(mem.Contents(), mem.free) && Buddy.Shape(mem.Contents()) && RawRelease.Managed(mem.free)
  {
  }

  /** The kernel's own tables, by frame, hold the words its directory entries lead to. */
  predicate KernelTables(kernelDir: seq<nat>, kernelTables: map<nat, seq<nat>>) {
    |kernelDir| == ENTRIES &&
    forall d: nat :: USER_TABLES <= d < ENTRIES && kernelDir[d] % 2 == 1 ==>
      FrameOf(kernelDir[d]) in kernelTables && |kernelTables[FrameOf(kernelDir[d])]| == ENTRIES
  }

  /** The table word of an address in the kernel half, or zero without a table. */
  function KernelWord(kernelDir: seq<nat>, kernelTables: map<nat, seq<nat>>, va: nat): nat
    requires KernelTables(kernelDir, kernelTables) && USER_END <= va < WORD
  {
    var pde := kernelDir[va / 0x40_0000];
    if pde % 2 == 0 then 0 else kernelTables[FrameOf(pde)][va / PAGE_SIZE % ENTRIES]
  }

  /** What Paging_GetHigherHalfAddress returns for the first address of the kernel half, the one its
      range check lets through. */
  function EdgeAddress(kernelDir: seq<nat>, kernelTables: map<nat, seq<nat>>): nat
    requires KernelTables(kernelDir, kernelTables)
  {
    var word := KernelWord(kernelDir, kernelTables, USER_END);
    if word / 4 % 2 == 0 then 0 else (word - word % PAGE_SIZE + OFFSET) % WORD
  }

  /** It is 0 exactly when the kernel's entry is absent, the word is zero or lacks the user flag, or the
      word's frame is the one at which the sum wraps. */
  lemma EdgeIsZeroIff(kernelDir: seq<nat>, kernelTables: map<nat, seq<nat>>)
    requires KernelTables(kernelDir, kernelTables) && KernelWord(kernelDir, kernelTables, USER_END) < WORD
    ensures var pde := kernelDir[USER_TABLES];
      EdgeAddress(kernelDir, kernelTables) == 0 <==>
        || pde % 2 == 0
        || kernelTables[FrameOf(pde)][0] == 0
        || kernelTables[FrameOf(pde)][0] / 4 % 2 == 0
        || FrameOf(kernelTables[FrameOf(pde)][0]) == USER_PAGES
  {
    assert USER_END / 0x40_0000 == USER_TABLES && USER_END / PAGE_SIZE % ENTRIES == 0;
    var word := KernelWord(kernelDir, kernelTables, USER_END);
    assert word == word / PAGE_SIZE * PAGE_SIZE + word % PAGE_SIZE;
  }

  /** A kernel that maps its first page with the user flag gets a kernel address for an address that is
      not a user's. */
  lemma EdgeFails()
    ensures var dir := seq(ENTRIES, d => if d == USER_TABLES then Entry(1) else 0);
      var tables := map[1 := seq(ENTRIES, i => if i == 0 then Entry(2) else 0)];
      KernelTables(dir, tables) && EdgeAddress(dir, tables) == KernPtr(2)
  {
    EntryFacts(1);
    EntryFacts(2);
    assert USER_END / 0x40_0000 == USER_TABLES && USER_END / PAGE_SIZE % ENTRIES == 0;
  }

  class AddressSpaces {
    const mem: PhysMem.Allocator
    const kernelDir: seq<nat>
    const kernelTables: map<nat, seq<nat>>
    var dirs: map<nat, nat>
    var words: map<nat, seq<nat>>
    ghost var role: map<nat, Slot>
    ghost var others: iset<nat>

    ghost function Tables(): Vm
      reads this
    {
      Vm(dirs, words)
    }

    ghost function Space(proc: nat): map<nat, nat>
      reads this
    {
      View(Tables(), proc)
    }

    /** All frames there are: free, in a paging role, or held by someone else. */
    ghost function Frames(): iset<nat>
      reads this, mem
    {
      mem.free + others + iset f | f in role
    }

    ghost predicate Valid()
      reads this, mem, mem.lists, mem.maps
    {
      && mem.Valid()
      && SharesKernel(Tables(), kernelDir) && KernelTables(kernelDir, kernelTables)
      && WellFormed(Tables()) && Accounted(Tables(), role)
      && mem.free !! others
      && (forall f :: f in role ==> f !in mem.free && f !in others && Chunk.LOWMEM_PAGES <= f < Chunk.MANAGED_PAGES)
      && (forall f :: f in others ==> Chunk.LOWMEM_PAGES <= f < Chunk.MANAGED_PAGES)
    }

    constructor (mem: PhysMem.Allocator, kernelDir: seq<nat>, kernelTables: map<nat, seq<nat>>)
      requires mem.Valid() && |kernelDir| == ENTRIES && KernelTables(kernelDir, kernelTables)
      ensures Valid() && this.mem == mem && this.kernelDir == kernelDir && dirs == map[] && Frames() == mem.free
    {
      this.mem := mem;
      this.kernelDir := kernelDir;
      this.kernelTables := kernelTables;
      dirs, words := map[], map[];
      role, others := map[], iset{};
    }

    /** Page_Acquire(0); the frame is the caller's until it gets a role. */
    method TakeFrame() returns (ptr: int)
      requires Valid()
      modifies this`others, mem, mem.lists, mem.maps
      ensures Valid() && Frames() == old(Frames())
      ensures ptr == NULL <==> old(mem.free) == iset{}
      ensures ptr == NULL ==> mem.free == old(mem.free) && others == old(others)
      ensures ptr != NULL ==> ptr >= OFFSET && exists f: nat ::
        && ptr == KernPtr(f) && f in old(mem.free) && mem.free == old(mem.free) - iset{f} && others == old(others) + iset{f}
    {
      hide Buddy.Inv, Buddy.Acquire, Blocks.Index, FreeList.Ptr, FreeList.Wired, Blocks.Whole, WellFormed, Accounted;
      ghost var s, free := mem.Contents(), mem.free;
      InvOf(mem);
      AcquireOne(s, free);
      ptr := mem.Acquire(0);
      if ptr != NULL {
        ghost var f := Buddy.Acquire(s, 0).0.value;
        others := others + iset{f};
      }
    }

    /** Page_Release(ptr, 0) of a frame without a role. */
    method GiveFrame(ptr: int, ghost f: nat)
      requires Valid() && f in others && ptr == KernPtr(f)
      modifies this`others, mem, mem.lists, mem.maps
      ensures Valid() && Frames() == old(Frames())
      ensures mem.free == old(mem.free) + iset{f} && others == old(others) - iset{f}
    {
      hide Buddy.Inv, FreeList.Wired, Accounted, WellFormed, Buddy.Release, Buddy.MergeLevel, BuddyMacro.RawSafe, RawRelease.Released, PhysMem.AllBits;
      PtrIsKernPtr(f);
      assert BuddyMacro.BlockAt(ptr - OFFSET, 0) == f;
      mem.Release(ptr, 0, true);
      others := others - iset{f};
    }

    /** The table of a page exists or can be created. */
    ghost predicate TableReady(proc: nat, v: nat, create: bool)
      reads this, mem
    {
      Pde(Tables(), proc, v / ENTRIES) != 0 || (create && mem.free != iset{})
    }

    /** Paging_IsPageMapped: of user addresses the bound ones, of kernel addresses those whose entry in
        the kernel's tables is not zero. */
    method IsPageMapped(proc: nat, va: nat) returns (mapped: bool)
      requires Valid() && proc in dirs && va < WORD
      ensures va < USER_END ==> (mapped <==> va / PAGE_SIZE in Space(proc))
      ensures va >= USER_END ==> (mapped <==> KernelWord(kernelDir, kernelTables, va) != 0)
    {
      var pde := words[dirs[proc]][va / 0x40_0000];
      if va < USER_END {
        IndexSplit(va);
        assert pde == Pde(Tables(), proc, va / PAGE_SIZE / ENTRIES);
      } else {
        assert pde == PageTables.Word(Tables(), dirs[proc], va / 0x40_0000) == kernelDir[va / 0x40_0000];
      }
      if pde % 2 == 0 {
        return false;
      }
      mapped := TableWord(proc, va, pde) != 0;
    }

    /** The word of the table that a directory entry leads to. */
    function TableWord(proc: nat, va: nat, pde: nat): nat
      requires va < WORD
      requires var tables := if va < USER_END then words else kernelTables; FrameOf(pde) in tables && |tables[FrameOf(pde)]| == ENTRIES
      reads this
    {
      (if va < USER_END then words else kernelTables)[FrameOf(pde)][va / PAGE_SIZE % ENTRIES]
    }

    /** Paging_MapPage, on user addresses: binds an unbound page to a frame of the caller's, taking a
        frame for the table if there is none yet. */
    method MapPage(proc: nat, va: nat, pa: nat, create: bool) returns (ok: bool)
      requires Valid() && proc in dirs && va < USER_END && pa % PAGE_SIZE == 0 && pa / PAGE_SIZE in others
      modifies this`words, this`role, this`others, mem, mem.lists, mem.maps
      ensures Valid() && Frames() == old(Frames())
      ensures ok <==> (va / PAGE_SIZE !in old(Space(proc)) && old(TableReady(proc, va / PAGE_SIZE, create)))
      ensures ok ==> Space(proc) == old(Space(proc))[va / PAGE_SIZE := pa / PAGE_SIZE] && others == old(others) - iset{pa / PAGE_SIZE}
      ensures !ok ==> Tables() == old(Tables()) && role == old(role) && others == old(others) && mem.free == old(mem.free)
      ensures forall q :: q != proc ==> Space(q) == old(Space(q))
      ensures old(mem.free) >= mem.free
    {
      hide Accounted, WellFormed, View, Pte, Pde, Buddy.Inv, FreeList.Wired;
      IndexSplit(va);
      var found, table := FindTable(proc, va, create);
      if !found {
        return false;
      }
      SetEntry(proc, va / PAGE_SIZE, table, pa);
      return true;
    }

    /** The table for a page that is not bound, created if need be. */
    method FindTable(proc: nat, va: nat, create: bool) returns (found: bool, table: nat)
      requires Valid() && proc in dirs && va < USER_END
      modifies this`words, this`role, this`others, mem, mem.lists, mem.maps
      ensures Valid() && Frames() == old(Frames())
      ensures found <==> (va / PAGE_SIZE !in old(Space(proc)) && old(TableReady(proc, va / PAGE_SIZE, create)))
      ensures found ==> Pde(Tables(), proc, va / PAGE_SIZE / ENTRIES) != 0 && table == FrameOf(Pde(Tables(), proc, va / PAGE_SIZE / ENTRIES))
      ensures found ==> Pte(Tables(), proc, va / PAGE_SIZE) == 0
      ensures !found ==> Tables() == old(Tables()) && role == old(role) && mem.free == old(mem.free)
      ensures others == old(others) && old(mem.free) >= mem.free
      ensures forall q :: Space(q) == old(Space(q))
    {
      hide Accounted, Buddy.Inv, FreeList.Wired;
      IndexSplit(va);
      var v, d := va / PAGE_SIZE, va / 0x40_0000;
      var pde := words[dirs[proc]][d];
      assert pde == Pde(Tables(), proc, d);
      table := 0;
      if pde % 2 == 0 {
        if !create {
          return false, table;
        }
        var ptr := TakeFrame();
        if ptr == NULL {
          return false, table;
        }
        table := NewTable(proc, d, ptr);
        EntryFacts(table);
        found := true;
      } else {
        table := FrameOf(pde);
        found := words[table][v % ENTRIES] == 0;
      }
    }

    /** The last assignment of Paging_MapPage. */
    method SetEntry(proc: nat, v: nat, table: nat, pa: nat)
      requires Valid() && v < USER_PAGES && Pde(Tables(), proc, v / ENTRIES) != 0 && table == FrameOf(Pde(Tables(), proc, v / ENTRIES))
      requires Pte(Tables(), proc, v) == 0 && pa % PAGE_SIZE == 0 && pa / PAGE_SIZE in others
      modifies this`words, this`role, this`others
      ensures Valid() && Frames() == old(Frames())
      ensures v !in old(Space(proc)) && Space(proc) == old(Space(proc))[v := pa / PAGE_SIZE]
      ensures others == old(others) - iset{pa / PAGE_SIZE}
      ensures forall q :: q != proc ==> Space(q) == old(Space(q))
    {
      hide PhysMem.Allocator.Valid, Accounted, Occupant, Pte, Pde, View;
      BindPage(Tables(), role, proc, v, pa / PAGE_SIZE);
      TableNoDirectory(Tables(), role, proc, v / ENTRIES);
      WriteShares(Tables(), kernelDir, table, v % ENTRIES, pa + FLAGS);
      var row: seq<nat> := words[table][v % ENTRIES := pa + FLAGS];
      words := words[table := row];
      role := role[pa / PAGE_SIZE := Page(proc, v)];
      others := others - iset{pa / PAGE_SIZE};
    }

    /** The branch of Paging_MapPage that creates a table. */
    method NewTable(proc: nat, d: nat, ptr: int) returns (table: nat)
      requires Valid() && proc in dirs && d < USER_TABLES && Pde(Tables(), proc, d) == 0
      requires ptr >= OFFSET && exists f: nat :: f in others && ptr == KernPtr(f)
      modifies this`words, this`role, this`others
      ensures Valid() && Frames() == old(Frames())
      ensures table in old(others) && ptr == KernPtr(table) && others == old(others) - iset{table}
      ensures Pde(Tables(), proc, d) == Entry(table)
      ensures forall q: nat, v: nat :: Pte(Tables(), q, v) == old(Pte(Tables(), q, v))
    {
      table := (ptr - OFFSET) / PAGE_SIZE;
      FreshFrame(Tables(), role, table, Zeros());
      RolelessNoDirectory(Tables(), role, table);
      FrameShares(Tables(), kernelDir, table, Zeros());
      words := words[table := Zeros()];
      InstallTable(Tables(), role, proc, d, table);
      WriteShares(Tables(), kernelDir, dirs[proc], d, ptr - OFFSET + FLAGS);
      var row: seq<nat> := words[dirs[proc]][d := ptr - OFFSET + FLAGS];
      words := words[dirs[proc] := row];
      role := role[table := Tab(proc, d)];
      others := others - iset{table};
    }

    /** Paging_UnmapPage, on user addresses: gives back the frame of a bound page. */
    method UnmapPage(proc: nat, va: nat) returns (ok: bool)
      requires Valid() && proc in dirs && va < USER_END
      modifies this`words, this`role, this`others, mem, mem.lists, mem.maps
      ensures Valid() && Frames() == old(Frames())
      ensures ok <==> va / PAGE_SIZE in old(Space(proc))
      ensures Space(proc) == old(Space(proc)) - {va / PAGE_SIZE} && others == old(others) && dirs == old(dirs)
      ensures ok ==> mem.free == old(mem.free) + iset{old(Space(proc))[va / PAGE_SIZE]}
      ensures !ok ==> mem.free == old(mem.free)
      ensures forall q :: q != proc ==> Space(q) == old(Space(q))
    {
      hide Accounted, Buddy.Inv, FreeList.Wired;
      IndexSplit(va);
      var v, d := va / PAGE_SIZE, va / 0x40_0000;
      var pde := words[dirs[proc]][d];
      assert pde == Pde(Tables(), proc, d);
      if pde % 2 == 0 {
        return false;
      }
      var table := FrameOf(pde);
      var pte := words[table][v % ENTRIES];
      assert pte == Pte(Tables(), proc, v);
      if pte % 2 == 0 {
        return false;
      }
      ClearEntry(proc, v, table, pte);
      return true;
    }

    /** The end of Paging_UnmapPage. */
    method ClearEntry(proc: nat, v: nat, table: nat, pte: nat)
      requires Valid() && v < USER_PAGES && Pte(Tables(), proc, v) == pte != 0 && table == FrameOf(Pde(Tables(), proc, v / ENTRIES))
      modifies this`words, this`role, this`others, mem, mem.lists, mem.maps
      ensures Valid() && Frames() == old(Frames())
      ensures v in old(Space(proc)) && Space(proc) == old(Space(proc)) - {v} && others == old(others)
      ensures mem.free == old(mem.free) + iset{old(Space(proc))[v]}
      ensures forall q :: q != proc ==> Space(q) == old(Space(q))
    {
      hide Accounted, Buddy.Inv, FreeList.Wired;
      ghost var f, f0, o0, r0 := FrameOf(pte), mem.free, others, role;
      UnbindPage(Tables(), role, proc, v);
      TableNoDirectory(Tables(), role, proc, v / ENTRIES);
      WriteShares(Tables(), kernelDir, table, v % ENTRIES, 0);
      var row: seq<nat> := words[table][v % ENTRIES := 0];
      words := words[table := row];
      role := role - {f};
      others := others + iset{f};
      assert Frames() == f0 + o0 + iset g | g in r0;
      GiveFrame(pte - pte % PAGE_SIZE + OFFSET, f);
    }

    /** Paging_Initialize: a directory with an empty user half and the kernel's upper half. */
    method Initialize(proc: nat) returns (ok: bool)
      requires Valid() && proc !in dirs
      modifies this, mem, mem.lists, mem.maps
      ensures Valid() && Frames() == old(Frames())
      ensures ok <==> old(mem.free) != iset{}
      ensures ok ==> proc in dirs && dirs == old(dirs)[proc := dirs[proc]] && Space(proc) == map[]
      ensures ok ==> forall d :: USER_TABLES <= d < ENTRIES ==> words[dirs[proc]][d] == kernelDir[d]
      ensures !ok ==> Tables() == old(Tables()) && mem.free == old(mem.free)
      ensures others == old(others)
      ensures forall q :: q != proc ==> Space(q) == old(Space(q))
    {
      hide Accounted, Buddy.Inv, FreeList.Wired;
      var ptr := TakeFrame();
      if ptr == NULL {
        return false;
      }
      var row: seq<nat> := Zeros();
      for d := USER_TABLES to ENTRIES
        invariant |row| == ENTRIES && forall e :: 0 <= e < USER_TABLES ==> row[e] == 0
        invariant forall e :: USER_TABLES <= e < d ==> row[e] == kernelDir[e]
      {
        row := row[d := kernelDir[d]];
      }
      NewDirectory(proc, ptr, row);
      return true;
    }

    /** The end of Paging_Initialize. */
    method NewDirectory(proc: nat, ptr: int, row: seq<nat>)
      requires Valid() && proc !in dirs && |row| == ENTRIES && forall e :: 0 <= e < USER_TABLES ==> row[e] == 0
      requires forall e :: USER_TABLES <= e < ENTRIES ==> row[e] == kernelDir[e]
      requires ptr >= OFFSET && exists f: nat :: f in others && ptr == KernPtr(f)
      modifies this`dirs, this`words, this`role, this`others
      ensures Valid() && Frames() == old(Frames())
      ensures var f := (ptr - OFFSET) / PAGE_SIZE;
        dirs == old(dirs)[proc := f] && f in words && words[f] == row && others == old(others) - iset{f}
      ensures Space(proc) == map[] && forall q :: q != proc ==> Space(q) == old(Space(q))
    {
      hide PhysMem.Allocator.Valid, Accounted, Occupant, Pte, Pde, View;
      var f: nat := (ptr - OFFSET) / PAGE_SIZE;
      FreshFrame(Tables(), role, f, row);
      RolelessNoDirectory(Tables(), role, f);
      FrameShares(Tables(), kernelDir, f, row);
      words := words[f := row];
      InstallDirectory(Tables(), role, proc, f);
      DirectoryShares(Tables(), kernelDir, proc, f);
      dirs := dirs[proc := f];
      role := role[f := Dir(proc)];
      others := others - iset{f};
    }

    /** Paging_GetHigherHalfAddress: the kernel address of a mapped user byte, or 0.  Its range check also
        lets the first address of the kernel half through. */
    method GetHigherHalfAddress(proc: nat, ua: nat) returns (ka: int)
      requires Valid() && proc in dirs && ua < WORD
      ensures ua < USER_END && ua / PAGE_SIZE in Space(proc) ==> ka == KernPtr(Space(proc)[ua / PAGE_SIZE]) + ua % PAGE_SIZE
      ensures ua != USER_END ==> (ka == 0 <==> !(ua < USER_END && ua / PAGE_SIZE in Space(proc)))
      ensures ua == USER_END ==> ka == EdgeAddress(kernelDir, kernelTables)
    {
      if ua > USER_END {
        return 0;
      }
      var mapped := IsPageMapped(proc, ua);
      if !mapped {
        return 0;
      }
      var pde := words[dirs[proc]][ua / 0x40_0000];
      if ua < USER_END {
        IndexSplit(ua);
        assert pde == Pde(Tables(), proc, ua / PAGE_SIZE / ENTRIES);
      } else {
        assert pde == PageTables.Word(Tables(), dirs[proc], ua / 0x40_0000) == kernelDir[ua / 0x40_0000];
      }
      var pte := TableWord(proc, ua, pde);
      assert ua < USER_END ==> pte == Pte(Tables(), proc, ua / PAGE_SIZE);
      if pte / 4 % 2 == 0 {
        return 0;
      }
      if ua < USER_END {
        FrameInRange(proc, ua / PAGE_SIZE);
      }
      ka := (pte - pte % PAGE_SIZE + OFFSET) % WORD + ua % PAGE_SIZE;
    }

    /** A bound frame is managed, so its kernel address does not wrap. */
    lemma FrameInRange(proc: nat, v: nat)
      requires Valid() && v in Space(proc)
      ensures FrameOf(Pte(Tables(), proc, v)) < Chunk.MANAGED_PAGES
    {
      assert Occupant(Tables(), Page(proc, v)) == Some(FrameOf(Pte(Tables(), proc, v)));
    }

    /** Paging_MapPages, on a range of user addresses: binds fresh frames to consecutive unbound pages,
        and stops early only at a bound page or when no second page is left. */
    method MapPages(proc: nat, va0: nat, size: nat) returns (sz: nat)
      requires Valid() && proc in dirs && va0 + size <= USER_END
      modifies this`words, this`role, this`others, mem, mem.lists, mem.maps
      ensures Valid() && Frames() == old(Frames()) && others == old(others)
      ensures sz % 0x1000 == 0 && Extended(old(Space(proc)), Space(proc), va0 / 0x1000, sz / 0x1000, old(mem.free))
      ensures sz > 0 ==> sz - 0x1000 < va0 % 0x1000 + size
      ensures 0 < size && sz < va0 % 0x1000 + size ==> va0 / 0x1000 + sz / 0x1000 in old(Space(proc)) || AtMostOne(mem.free)
      ensures forall v, u :: v in Space(proc) && u in Space(proc) && v != u ==> Space(proc)[v] != Space(proc)[u]
      ensures forall q :: q != proc ==> Space(q) == old(Space(q))
    {
      hide Accounted, WellFormed, View, PhysMem.Allocator.Valid, SharesKernel, KernelTables, Extended, PagesTouched, AtMostOne;
      sz := 0;
      ExtendedByNone(Space(proc), va0 / PAGE_SIZE, mem.free);
      PageRange(va0, size);
      if size == 0 {
        FramesDistinct(proc);
        return;
      }
      var va := va0 - va0 % PAGE_SIZE;
      var vaEnd := va0 + size - 1 - (va0 + size - 1) % PAGE_SIZE;
      ghost var m0, f0, v0, n, k := Space(proc), mem.free, va0 / PAGE_SIZE, PagesTouched(va0, size), 0;
      while true
        invariant Valid() && Frames() == old(Frames()) && others == old(others)
        invariant va == PAGE_SIZE * (v0 + k) && sz == PAGE_SIZE * k && k < n && vaEnd == PAGE_SIZE * (v0 + n - 1) < USER_END
        invariant Extended(m0, Space(proc), v0, k, f0) && mem.free <= f0
        invariant forall q :: q != proc ==> Space(q) == old(Space(q))
        decreases n - k
      {
        ghost var m, f := Space(proc), mem.free;
        var ok := MapOne(proc, va);
        if !ok {
          ExtendedOutside(m0, m, v0, k, f0);
          break;
        }
        ExtendedOnce(m0, m, Space(proc), v0, k, f0, f);
        k := k + 1;
        sz := sz + PAGE_SIZE;
        if va == vaEnd {
          break;
        }
        va := va + PAGE_SIZE;
      }
      PagesHoldRange(va0, size, k);
      FramesDistinct(proc);
    }

    /** One turn of the loop: take a frame and bind it, or give it back. */
    method MapOne(proc: nat, va: nat) returns (ok: bool)
      requires Valid() && proc in dirs && va < USER_END
      modifies this`words, this`role, this`others, mem, mem.lists, mem.maps
      ensures Valid() && Frames() == old(Frames()) && others == old(others) && mem.free <= old(mem.free)
      ensures !ok ==> mem.free == old(mem.free) && Tables() == old(Tables())
      ensures !ok ==> va / PAGE_SIZE in old(Space(proc)) || AtMostOne(mem.free)
      ensures ok ==> Extended(old(Space(proc)), Space(proc), va / PAGE_SIZE, 1, old(mem.free))
      ensures forall q :: q != proc ==> Space(q) == old(Space(q))
    {
      hide Accounted, WellFormed, View, Buddy.Inv, FreeList.Wired, Pde;
      var ptr := TakeFrame();
      if ptr == NULL {
        return false;
      }
      var pa := ptr - OFFSET;
      ok := MapPage(proc, va, pa, true);
      if !ok {
        GiveFrame(ptr, pa / PAGE_SIZE);
      }
    }

    lemma FramesDistinct(proc: nat)
      requires Valid()
      ensures forall v, u :: v in Space(proc) && u in Space(proc) && v != u ==> Space(proc)[v] != Space(proc)[u]
    {
      forall v, u | v in Space(proc) && u in Space(proc) && v != u
        ensures Space(proc)[v] != Space(proc)[u]
      {
        if Space(proc)[v] == Space(proc)[u] {
          ViewInjective(Tables(), role, proc, v, proc, u);
        }
      }
    }

    /** Paging_UnmapPages, in 32-bit arithmetic: unbinds the user pages that start in the range.  It
        reports failure when one of them was not bound, and also whenever the range runs into the last
        user page.  Where start or end wrap, the pages are those between the wrapped ones. */
    method UnmapPages(proc: nat, va0: nat, size: nat) returns (failed: bool)
      requires Valid() && proc in dirs && va0 < WORD && size < WORD
      modifies this`words, this`role, this`others, mem, mem.lists, mem.maps
      ensures Valid() && Frames() == old(Frames()) && others == old(others)
      ensures var first, last := (va0 + 0xFFF) % 0x1_0000_0000, (va0 + size - 1) % 0x1_0000_0000;
        && (forall v: nat :: v in Space(proc) <==> v in old(Space(proc)) && !(first < 0x1000 * v + 0x1000 && 0x1000 * v <= last))
        && (failed <==>
              || first >= 0x8000_0000 || last >= 0x7FFF_F000
              || exists v: nat :: first < 0x1000 * v + 0x1000 && 0x1000 * v <= last && v !in old(Space(proc)))
      ensures forall v: nat :: v in Space(proc) ==> Space(proc)[v] == old(Space(proc))[v]
      ensures 0 < va0 + size <= 0x1_0000_0000 && va0 <= 0xFFFF_F000 ==>
        && (forall v: nat :: v in Space(proc) <==> v in old(Space(proc)) && !(va0 <= 0x1000 * v < va0 + size))
        && (failed <==> va0 + size > 0x7FFF_F000 || exists v: nat :: va0 <= 0x1000 * v < va0 + size && v !in old(Space(proc)))
      ensures forall q :: q != proc ==> Space(q) == old(Space(q))
    {
      hide Accounted, WellFormed, View, PhysMem.Allocator.Valid;
      var va := (va0 + PAGE_SIZE - 1) % WORD - (va0 + PAGE_SIZE - 1) % WORD % PAGE_SIZE;
      var vaEnd := (va0 + size - 1) % WORD - (va0 + size - 1) % WORD % PAGE_SIZE;
      ghost var lo, hi, k := UnmapFrom(va0), UnmapTo(va0, size), UnmapFrom(va0);
      failed := false;
      ViewBelow(Tables(), proc);
      assert forall v: nat :: v in old(Space(proc)) ==> v < USER_PAGES;
      while true
        invariant Valid() && Frames() == old(Frames()) && others == old(others) && proc in dirs
        invariant va == PAGE_SIZE * k && vaEnd == PAGE_SIZE * hi && lo <= k && (k > lo ==> k - 1 <= hi && k <= USER_PAGES)
        invariant forall v: nat :: v in Space(proc) <==> v in old(Space(proc)) && !(lo <= v < k)
        invariant forall v: nat :: v in Space(proc) ==> Space(proc)[v] == old(Space(proc))[v]
        invariant failed <==> exists v: nat :: InRun(v, lo, k - 1) && v !in old(Space(proc))
        invariant forall q :: q != proc ==> Space(q) == old(Space(q))
        decreases WORD - va
      {
        if va >= USER_END {
          failed := true;
          break;
        }
        if va > vaEnd {
          break;
        }
        var ok := UnmapPage(proc, va);
        if !ok {
          assert InRun(k, lo, k);
          failed := true;
        }
        va := va + PAGE_SIZE;
        k := k + 1;
      }
      assert forall v: nat :: v in Space(proc) <==> v in old(Space(proc)) && !InRun(v, lo, hi);
      assert failed <==> lo >= USER_PAGES || hi >= USER_PAGES - 1 || exists v: nat :: InRun(v, lo, hi) && v !in old(Space(proc));
      UnmapAllBytes(va0, size);
      if 0 < va0 + size <= 0x1_0000_0000 && va0 <= 0xFFFF_F000 {
        UnmapReaches(va0, size);
      }
    }
  }
}
