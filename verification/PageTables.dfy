/** Two-level page tables as values: page directories and tables are frames of 1024 words, and every
    frame in use for paging fills exactly one slot. */
module PageTables {
  import opened Options

  const PAGE_SIZE: nat := 0x1000
  const ENTRIES: nat := 0x400
  /** Directory entries below this index are the user half. */
  const USER_TABLES: nat := 0x200
  const USER_PAGES: nat := 0x8_0000
  /** PRESENT | READWRITE | USER */
  const FLAGS: nat := 7

  /** The directory frame of each process, and the words of every directory and table frame. */
  datatype Vm = Vm(dirs: map<nat, nat>, words: map<nat, seq<nat>>)

  /** The places a frame can be used: a directory, the table of a directory entry, or a user page. */
  datatype Slot = Dir(proc: nat) | Tab(proc: nat, d: nat) | Page(proc: nat, v: nat)

  function Entry(frame: nat): nat {
    PAGE_SIZE * frame + FLAGS
  }

  /** PAGEADDRESS of an entry, as a frame number. */
  function FrameOf(entry: nat): nat {
    entry / PAGE_SIZE
  }

  /** A word of a paging frame; frames without recorded contents read as zero. */
  function Word(vm: Vm, frame: nat, i: nat): nat {
    if frame in vm.words && i < |vm.words[frame]| then vm.words[frame][i] else 0
  }

  /** The directory entry of a process at index d of its user half. */
  function Pde(vm: Vm, proc: nat, d: nat): nat {
    if proc in vm.dirs && d < USER_TABLES then Word(vm, vm.dirs[proc], d) else 0
  }

  /** The table entry of user page v. */
  function Pte(vm: Vm, proc: nat, v: nat): nat {
    var pde := Pde(vm, proc, v / ENTRIES);
    if pde == 0 then 0 else Word(vm, FrameOf(pde), v % ENTRIES)
  }

  function Occupant(vm: Vm, s: Slot): Option<nat> {
    match s
    case Dir(p) => if p in vm.dirs then Some(vm.dirs[p]) else None
    case Tab(p, d) => if Pde(vm, p, d) == 0 then None else Some(FrameOf(Pde(vm, p, d)))
    case Page(p, v) => if Pte(vm, p, v) == 0 then None else Some(FrameOf(Pte(vm, p, v)))
  }

  /** Directory and table frames are recorded in full, and user entries are zero or carry the flags. */
  ghost predicate WellFormed(vm: Vm) {
    && (forall p :: p in vm.dirs ==> vm.dirs[p] in vm.words)
    && (forall f :: f in vm.words ==> |vm.words[f]| == ENTRIES)
    && (forall p: nat, d: nat :: Pde(vm, p, d) != 0 ==> Pde(vm, p, d) % PAGE_SIZE == FLAGS && FrameOf(Pde(vm, p, d)) in vm.words)
    && (forall p: nat, v: nat :: Pte(vm, p, v) != 0 ==> Pte(vm, p, v) % PAGE_SIZE == FLAGS)
  }

  /** Each frame with a role occupies exactly that slot, and every occupied slot accounts for its
      frame: no frame is used twice and none is used without being accounted for. */
  ghost predicate Accounted(vm: Vm, role: map<nat, Slot>) {
    forall s: Slot, f: nat :: Occupant(vm, s) == Some(f) <==> f in role && role[f] == s
  }

  /** The user address space of a process, from page number to frame. */
  ghost function View(vm: Vm, proc: nat): map<nat, nat> {
    map v: nat | v < USER_PAGES && Pte(vm, proc, v) != 0 :: FrameOf(Pte(vm, proc, v))
  }

  lemma ViewBelow(vm: Vm, proc: nat)
    ensures forall v: nat :: v in View(vm, proc) ==> v < USER_PAGES
  {
  }

  lemma EntryFacts(f: nat)
    ensures Entry(f) != 0 && FrameOf(Entry(f)) == f && Entry(f) % PAGE_SIZE == FLAGS && Entry(f) % 2 == 1
  {
  }

  /** The processor's walk of two levels of tables: none if an entry on the way is not present, else
      whether both entries let a user program write, and the address translated to. */
  function Walk(vm: Vm, proc: nat, va: nat): Option<(bool, nat)> {
    var pde := if proc in vm.dirs then Word(vm, vm.dirs[proc], va / 0x40_0000) else 0;
    var pte := Word(vm, pde / 0x1000, va / 0x1000 % 0x400);
    if pde % 2 == 0 || pte % 2 == 0 then None
    else Some((pde / 2 % 2 == pte / 2 % 2 == 1 && pde / 4 % 2 == pte / 4 % 2 == 1, pte / 0x1000 * 0x1000 + va % 0x1000))
  }

  /** The processor translates a user address exactly when its page is bound, to the same byte of the
      bound frame, and lets a user program read and write there. */
  lemma WalkIsView(vm: Vm, proc: nat, va: nat)
    requires WellFormed(vm) && va < 0x8000_0000
    ensures Walk(vm, proc, va) ==
      if va / 0x1000 in View(vm, proc) then Some((true, 0x1000 * View(vm, proc)[va / 0x1000] + va % 0x1000)) else None
  {
    var v := va / 0x1000;
    assert v / ENTRIES == va / 0x40_0000 < USER_TABLES && v % ENTRIES == va / 0x1000 % 0x400;
    var pde, pte := Pde(vm, proc, v / ENTRIES), Pte(vm, proc, v);
    assert pde != 0 ==> pde % 0x1000 == 7;
    assert pte != 0 ==> pte % 0x1000 == 7;
    LowBits(pde);
    LowBits(pte);
  }

  /** The flags of an entry are its low bits. */
  lemma LowBits(entry: nat)
    ensures entry % 0x1000 == 7 ==> entry % 2 == 1 && entry / 2 % 2 == 1 && entry / 4 % 2 == 1
  {
  }

  function SetWord(vm: Vm, frame: nat, i: nat, w: nat): Vm
    requires frame in vm.words && i < |vm.words[frame]|
  {
    var row: seq<nat> := vm.words[frame][i := w];
    vm.(words := vm.words[frame := row])
  }

  function SetFrame(vm: Vm, frame: nat, contents: seq<nat>): Vm {
    vm.(words := vm.words[frame := contents])
  }

  function Zeros(): seq<nat> {
    seq(ENTRIES, _ => 0)
  }

  // ---------------------------------------------------------------- roles

  lemma AddRole(vm: Vm, vm': Vm, role: map<nat, Slot>, s: Slot, f: nat)
    requires Accounted(vm, role) && f !in role && Occupant(vm, s) == None && Occupant(vm', s) == Some(f)
    requires forall t: Slot :: t != s ==> Occupant(vm', t) == Occupant(vm, t)
    ensures Accounted(vm', role[f := s])
  {
    forall t: Slot, g: nat
      ensures Occupant(vm', t) == Some(g) <==> g in role[f := s] && role[f := s][g] == t
    {
      assert Occupant(vm, t) == Some(g) <==> g in role && role[g] == t;
    }
  }

  lemma DropRole(vm: Vm, vm': Vm, role: map<nat, Slot>, s: Slot, f: nat)
    requires Accounted(vm, role) && Occupant(vm, s) == Some(f) && Occupant(vm', s) == None
    requires forall t: Slot :: t != s ==> Occupant(vm', t) == Occupant(vm, t)
    ensures Accounted(vm', role - {f}) && f in role && role[f] == s
  {
    forall t: Slot, g: nat
      ensures Occupant(vm', t) == Some(g) <==> g in role - {f} && (role - {f})[g] == t
    {
      assert Occupant(vm, t) == Some(g) <==> g in role && role[g] == t;
      assert Occupant(vm, s) == Some(f) <==> f in role && role[f] == s;
    }
  }

  /** A frame has at most one slot. */
  lemma OneSlot(vm: Vm, role: map<nat, Slot>, s: Slot, t: Slot)
    requires Accounted(vm, role) && Occupant(vm, s).Some? && Occupant(vm, s) == Occupant(vm, t)
    ensures s == t
  {
  }

  // ---------------------------------------------------------------- the kernel half

  /** Every directory has the kernel's entries in its upper half. */
  ghost predicate SharesKernel(vm: Vm, kernel: seq<nat>) {
    |kernel| == ENTRIES && forall p: nat, d: nat :: p in vm.dirs && USER_TABLES <= d < ENTRIES ==> Word(vm, vm.dirs[p], d) == kernel[d]
  }

  /** Frames without a role, and tables, are no directories. */
  ghost predicate NoDirectory(vm: Vm, f: nat) {
    forall p: nat :: p in vm.dirs ==> vm.dirs[p] != f
  }

  lemma RolelessNoDirectory(vm: Vm, role: map<nat, Slot>, f: nat)
    requires Accounted(vm, role) && f !in role
    ensures NoDirectory(vm, f)
  {
    forall p: nat | p in vm.dirs
      ensures vm.dirs[p] != f
    {
      assert Occupant(vm, Dir(p)) == Some(vm.dirs[p]);
    }
  }

  lemma TableNoDirectory(vm: Vm, role: map<nat, Slot>, p: nat, d: nat)
    requires Accounted(vm, role) && Pde(vm, p, d) != 0
    ensures NoDirectory(vm, FrameOf(Pde(vm, p, d)))
  {
    forall q: nat | q in vm.dirs
      ensures vm.dirs[q] != FrameOf(Pde(vm, p, d))
    {
      assert Occupant(vm, Dir(q)) == Some(vm.dirs[q]) && Occupant(vm, Tab(p, d)) == Some(FrameOf(Pde(vm, p, d)));
    }
  }

  /** Writes to the user half of a directory or to any other frame leave the kernel half alone. */
  lemma WriteShares(vm: Vm, kernel: seq<nat>, f: nat, i: nat, w: nat)
    requires WellFormed(vm) && SharesKernel(vm, kernel) && f in vm.words && i < ENTRIES && (i < USER_TABLES || NoDirectory(vm, f))
    ensures SharesKernel(SetWord(vm, f, i, w), kernel)
  {
    hide Pde, Pte;
  }

  lemma FrameShares(vm: Vm, kernel: seq<nat>, f: nat, contents: seq<nat>)
    requires SharesKernel(vm, kernel) && NoDirectory(vm, f)
    ensures SharesKernel(SetFrame(vm, f, contents), kernel)
  {
  }

  lemma DirectoryShares(vm: Vm, kernel: seq<nat>, p: nat, f: nat)
    requires SharesKernel(vm, kernel) && forall d: nat :: USER_TABLES <= d < ENTRIES ==> Word(vm, f, d) == kernel[d]
    ensures SharesKernel(vm.(dirs := vm.dirs[p := f]), kernel)
  {
  }

  // ---------------------------------------------------------------- effects of writes

  /** Recording contents for a frame without a role changes no slot. */
  lemma FreshFrame(vm: Vm, role: map<nat, Slot>, f: nat, contents: seq<nat>)
    requires WellFormed(vm) && Accounted(vm, role) && f !in role && |contents| == ENTRIES
    ensures WellFormed(SetFrame(vm, f, contents)) && Accounted(SetFrame(vm, f, contents), role)
    ensures forall p: nat, v: nat :: Pte(SetFrame(vm, f, contents), p, v) == Pte(vm, p, v)
    ensures forall p: nat, d: nat :: Pde(SetFrame(vm, f, contents), p, d) == Pde(vm, p, d)
    ensures forall p: nat :: View(SetFrame(vm, f, contents), p) == View(vm, p)
  {
    var vm' := SetFrame(vm, f, contents);
    forall p: nat, d: nat
      ensures Pde(vm', p, d) == Pde(vm, p, d)
    {
      assert p in vm.dirs ==> Occupant(vm, Dir(p)) == Some(vm.dirs[p]);
    }
    forall p: nat, v: nat
      ensures Pte(vm', p, v) == Pte(vm, p, v)
    {
      assert Pde(vm, p, v / ENTRIES) != 0 ==> Occupant(vm, Tab(p, v / ENTRIES)) == Some(FrameOf(Pde(vm, p, v / ENTRIES)));
    }
    assert forall s: Slot :: Occupant(vm', s) == Occupant(vm, s);
  }

  /** Writing a directory entry that was zero: a zeroed frame becomes the table of that entry. */
  lemma InstallTable(vm: Vm, role: map<nat, Slot>, p: nat, d: nat, f: nat)
    requires WellFormed(vm) && Accounted(vm, role) && p in vm.dirs && d < USER_TABLES && Pde(vm, p, d) == 0
    requires f !in role && f in vm.words && vm.words[f] == Zeros()
    ensures var vm' := SetWord(vm, vm.dirs[p], d, Entry(f));
      && WellFormed(vm') && Accounted(vm', role[f := Tab(p, d)])
      && Pde(vm', p, d) == Entry(f) && (forall q: nat, v: nat :: Pte(vm', q, v) == Pte(vm, q, v))
  {
    var vm' := SetWord(vm, vm.dirs[p], d, Entry(f));
    EntryFacts(f);
    assert Occupant(vm, Dir(p)) == Some(vm.dirs[p]);
    forall q: nat, e: nat
      ensures Pde(vm', q, e) == if q == p && e == d then Entry(f) else Pde(vm, q, e)
    {
      if q in vm.dirs && q != p {
        assert Occupant(vm, Dir(q)) == Some(vm.dirs[q]);
      }
    }
    forall q: nat, v: nat
      ensures Pte(vm', q, v) == Pte(vm, q, v)
    {
      var e := v / ENTRIES;
      if Pde(vm, q, e) != 0 {
        assert Occupant(vm, Tab(q, e)) == Some(FrameOf(Pde(vm, q, e)));
      }
    }
    forall t: Slot | t != Tab(p, d)
      ensures Occupant(vm', t) == Occupant(vm, t)
    {
    }
    AddRole(vm, vm', role, Tab(p, d), f);
  }

  /** Writing an entry of a process's table changes the binding of that one page. */
  lemma WriteEntry(vm: Vm, role: map<nat, Slot>, p: nat, v: nat, w: nat)
    requires WellFormed(vm) && Accounted(vm, role) && v < USER_PAGES && Pde(vm, p, v / ENTRIES) != 0
    requires w == 0 || w % PAGE_SIZE == FLAGS
    ensures var vm' := SetWord(vm, FrameOf(Pde(vm, p, v / ENTRIES)), v % ENTRIES, w);
      && WellFormed(vm')
      && (forall q: nat, u: nat :: Pte(vm', q, u) == if q == p && u == v then w else Pte(vm, q, u))
      && (forall q: nat, d: nat :: Pde(vm', q, d) == Pde(vm, q, d))
  {
    var t := FrameOf(Pde(vm, p, v / ENTRIES));
    var vm' := SetWord(vm, t, v % ENTRIES, w);
    assert Occupant(vm, Tab(p, v / ENTRIES)) == Some(t);
    forall q: nat, d: nat
      ensures Pde(vm', q, d) == Pde(vm, q, d)
    {
      if q in vm.dirs {
        assert Occupant(vm, Dir(q)) == Some(vm.dirs[q]);
      }
    }
    forall q: nat, u: nat
      ensures Pte(vm', q, u) == if q == p && u == v then w else Pte(vm, q, u)
    {
      var e := u / ENTRIES;
      if Pde(vm, q, e) != 0 {
        assert Occupant(vm, Tab(q, e)) == Some(FrameOf(Pde(vm, q, e)));
        if FrameOf(Pde(vm, q, e)) == t {
          OneSlot(vm, role, Tab(q, e), Tab(p, v / ENTRIES));
          assert u == e * ENTRIES + u % ENTRIES && v == v / ENTRIES * ENTRIES + v % ENTRIES;
        }
      }
    }
  }

  /** Binding an unbound page to a frame without a role adds exactly that binding. */
  lemma BindPage(vm: Vm, role: map<nat, Slot>, p: nat, v: nat, f: nat)
    requires WellFormed(vm) && Accounted(vm, role) && v < USER_PAGES && Pde(vm, p, v / ENTRIES) != 0
    requires Pte(vm, p, v) == 0 && f !in role
    ensures var vm' := SetWord(vm, FrameOf(Pde(vm, p, v / ENTRIES)), v % ENTRIES, Entry(f));
      && WellFormed(vm') && Accounted(vm', role[f := Page(p, v)])
      && v !in View(vm, p) && View(vm', p) == View(vm, p)[v := f]
      && forall q :: q != p ==> View(vm', q) == View(vm, q)
  {
    var vm' := SetWord(vm, FrameOf(Pde(vm, p, v / ENTRIES)), v % ENTRIES, Entry(f));
    EntryFacts(f);
    WriteEntry(vm, role, p, v, Entry(f));
    AddRole(vm, vm', role, Page(p, v), f);
  }

  /** Clearing the entry of a bound page removes exactly that binding. */
  lemma UnbindPage(vm: Vm, role: map<nat, Slot>, p: nat, v: nat)
    requires WellFormed(vm) && Accounted(vm, role) && v < USER_PAGES && Pte(vm, p, v) != 0
    ensures var f, vm' := FrameOf(Pte(vm, p, v)), SetWord(vm, FrameOf(Pde(vm, p, v / ENTRIES)), v % ENTRIES, 0);
      && WellFormed(vm') && Accounted(vm', role - {f}) && f in role && role[f] == Page(p, v)
      && v in View(vm, p) && View(vm', p) == View(vm, p) - {v}
      && forall q :: q != p ==> View(vm', q) == View(vm, q)
  {
    var f, vm' := FrameOf(Pte(vm, p, v)), SetWord(vm, FrameOf(Pde(vm, p, v / ENTRIES)), v % ENTRIES, 0);
    WriteEntry(vm, role, p, v, 0);
    DropRole(vm, vm', role, Page(p, v), f);
  }

  /** A new process gets a directory whose user half is empty. */
  lemma InstallDirectory(vm: Vm, role: map<nat, Slot>, p: nat, f: nat)
    requires WellFormed(vm) && Accounted(vm, role) && p !in vm.dirs && f !in role && f in vm.words
    requires forall d :: 0 <= d < USER_TABLES ==> vm.words[f][d] == 0
    ensures var vm' := vm.(dirs := vm.dirs[p := f]);
      && WellFormed(vm') && Accounted(vm', role[f := Dir(p)]) && View(vm', p) == map[]
      && forall q :: q != p ==> View(vm', q) == View(vm, q)
  {
    var vm' := vm.(dirs := vm.dirs[p := f]);
    forall q: nat, d: nat
      ensures Pde(vm', q, d) == Pde(vm, q, d)
    {
    }
    forall q: nat, v: nat
      ensures Pte(vm', q, v) == Pte(vm, q, v)
    {
    }
    AddRole(vm, vm', role, Dir(p), f);
  }

  /** The frames bound in all address spaces are distinct. */
  lemma ViewInjective(vm: Vm, role: map<nat, Slot>, p: nat, v: nat, q: nat, u: nat)
    requires Accounted(vm, role) && v in View(vm, p) && u in View(vm, q) && View(vm, p)[v] == View(vm, q)[u]
    ensures p == q && v == u
  {
    OneSlot(vm, role, Page(p, v), Page(q, u));
  }
}
