/** Moving the kernel from its file to where it runs, and wiping what is left of the file. */
module KernelLoad {
  import opened RawMemory
  import opened Elf

  /** What the loader knows when it moves the kernel: where it goes, its size with and without bss,
      where its bytes are, the file, and whether the file's header gave its addresses. */
  datatype Placement = Placement(start: nat, size: nat, bss: nat, from: nat, file: nat, fileSize: nat, addressed: bool) {
    function End(): nat {
      start + size
    }

    function FileEnd(): nat {
      file + fileSize
    }
  }

  ghost predicate InMemory(m: seq<Byte>, k: Placement) {
    k.End() <= |m| && k.FileEnd() <= |m| && k.bss <= k.size && k.from + (k.size - k.bss) <= |m|
  }

  /** Without addresses the file is an executable, apart from where it goes and all in memory, or is
      taken as it is. */
  ghost predicate Readable(m: seq<Byte>, k: Placement) {
    && k.file + EHDR_SIZE <= |m| && TableFits(m, k.file, |m|)
    && if IsStatic(m, k.file) then
         && TableFits(m, k.file, k.FileEnd()) && SegmentsFit(m, k.file, k.FileEnd(), Count(m, k.file))
         && SegmentsFit(m, k.file, |m|, Count(m, k.file)) && Apart(m, k.file, k.FileEnd(), k.start)
         && k.size == LoadSize(m, k.file, Count(m, k.file))
       else k.bss == 0
  }

  /** The kernel's memory: its bytes before anything moved, then bss; or its segments. */
  ghost function KernelImage(m: seq<Byte>, k: Placement): (r: seq<Byte>)
    requires InMemory(m, k) && (k.addressed || Readable(m, k))
    ensures |r| == k.size
  {
    if !k.addressed && IsStatic(m, k.file) then
      LoadedSegment(m, k.file, Count(m, k.file), 0);
      LoadImage(m, k.file, Count(m, k.file))
    else m[k.from..k.from + (k.size - k.bss)] + Zeros(k.bss)
  }

  /** Memory with the file's leftovers outside the kernel wiped. */
  function CleanedUp(m: seq<Byte>, k: Placement): (r: seq<Byte>)
    ensures |r| == |m|
  {
    seq(|m|, x requires 0 <= x < |m| => if k.file <= x < k.FileEnd() && !(k.start <= x < k.End()) then 0 else m[x])
  }

  /** The tail of Multiboot_LoadKernel that wipes the file around the kernel. */
  method CleanUp(mem: array<Byte>, k: Placement)
    requires k.End() <= mem.Length && k.FileEnd() <= mem.Length
    modifies mem
    ensures mem[..] == CleanedUp(old(mem[..]), k)
    ensures forall x: nat :: x < mem.Length ==>
      mem[x] == if k.file <= x < k.file + k.fileSize && !(k.start <= x < k.start + k.size) then 0 else old(mem[x])
  {
    hide Put;
    ghost var was := mem[..];
    var cleanup := if k.End() > k.file then k.End() else k.file;
    if cleanup < k.FileEnd() {
      Set(mem, cleanup, 0, k.FileEnd() - cleanup);
    }
    ghost var after := mem[..];
    WipedBehind(was, after, k);
    if k.file < k.start {
      Set(mem, k.file, 0, if k.start - k.file > k.fileSize then k.fileSize else k.start - k.file);
    }
    WipedBefore(was, after, mem[..], k);
  }

  function Wiped(m: seq<Byte>, from: nat, to: nat): (r: seq<Byte>)
    requires from <= to <= |m|
    ensures |r| == |m|
  {
    Put(m, from, seq(to - from, _ => 0 % 256))
  }

  lemma WipedByte(m: seq<Byte>, from: nat, to: nat, x: nat)
    requires from <= to <= |m| && x < |m|
    ensures Wiped(m, from, to)[x] == if from <= x < to then 0 else m[x]
  {
  }

  lemma WipedBehind(m: seq<Byte>, n: seq<Byte>, k: Placement)
    requires k.End() <= |m| && k.FileEnd() <= |m|
    requires var cleanup := if k.End() > k.file then k.End() else k.file;
      n == if cleanup < k.FileEnd() then Put(m, cleanup, seq(k.FileEnd() - cleanup, _ => 0 % 256)) else m
    ensures |n| == |m| && forall x: nat :: x < |m| ==> n[x] == if k.file <= x < k.FileEnd() && k.End() <= x then 0 else m[x]
  {
    hide Put;
    var cleanup := if k.End() > k.file then k.End() else k.file;
    if cleanup < k.FileEnd() {
      assert n == Wiped(m, cleanup, k.FileEnd());
      forall x: nat | x < |m|
        ensures n[x] == if k.file <= x < k.FileEnd() && k.End() <= x then 0 else m[x]
      {
        WipedByte(m, cleanup, k.FileEnd(), x);
      }
    }
  }

  lemma WipedBefore(m: seq<Byte>, n: seq<Byte>, r: seq<Byte>, k: Placement)
    requires k.End() <= |m| == |n| && k.FileEnd() <= |m|
    requires forall x: nat :: x < |m| ==> n[x] == if k.file <= x < k.FileEnd() && k.End() <= x then 0 else m[x]
    requires var size := if k.start - k.file > k.fileSize then k.fileSize else k.start - k.file;
      r == if k.file < k.start then Put(n, k.file, seq(size, _ => 0 % 256)) else n
    ensures r == CleanedUp(m, k)
  {
    hide Put;
    if k.file < k.start {
      var size := if k.start - k.file > k.fileSize then k.fileSize else k.start - k.file;
      assert r == Wiped(n, k.file, k.file + size);
      forall x: nat | x < |m|
        ensures r[x] == CleanedUp(m, k)[x]
      {
        WipedByte(n, k.file, k.file + size, x);
      }
    }
  }

  /** Memory after loading, byte by byte: the kernel's image in its range, zeros in the rest of the file. */
  ghost function LoadedByte(m: seq<Byte>, k: Placement, x: nat): Byte
    requires InMemory(m, k) && (k.addressed || Readable(m, k)) && x < |m|
  {
    if k.start <= x < k.End() then KernelImage(m, k)[x - k.start]
    else if k.file <= x < k.FileEnd() then 0
    else m[x]
  }

  lemma LoadedBytes(m: seq<Byte>, k: Placement)
    requires InMemory(m, k) && (k.addressed || Readable(m, k))
    ensures var n := CleanedUp(Put(m, k.start, KernelImage(m, k)), k); forall x: nat :: x < |m| ==> n[x] == LoadedByte(m, k, x)
  {
    hide LoadImage, IsStatic, TableFits, SegmentsFit, Apart, Count, LoadSize;
  }

  /** Move the kernel into place by the path its file calls for, then clean up.  But for an executable,
      whose file must lie apart, its place and the file may overlap. */
  method Load(mem: array<Byte>, k: Placement)
    requires InMemory(mem[..], k) && (k.addressed || Readable(mem[..], k))
    modifies mem
    ensures var m := old(mem[..]); forall x: nat :: x < mem.Length ==> mem[x] == LoadedByte(m, k, x)
    ensures var m := old(mem[..]);
      k.addressed || !IsStatic(m, k.file) ==>
        forall x: nat :: k.start <= x < k.End() ==> mem[x] == if x < k.End() - k.bss then m[k.from + (x - k.start)] else 0
    ensures forall x: nat :: x < mem.Length && !(k.start <= x < k.start + k.size) ==>
      mem[x] == if k.file <= x < k.file + k.fileSize then 0 else old(mem[x])
  {
    hide Put, CleanedUp, IsStatic, LoadImage, TableFits, SegmentsFit, Apart, Count, LoadSize, Zeros, LoadedByte;
    ghost var m := mem[..];
    if k.addressed {
      Move(mem, k.start, k.from, k.size - k.bss);
      Set(mem, k.start + k.size - k.bss, 0, k.bss);
      ZerosAre(k.bss);
      PutNext(m, k.start, m[k.from..k.from + (k.size - k.bss)], Zeros(k.bss));
    } else {
      var elf := CheckStatic(mem, k.file);
      if elf {
        var size := LoadStatic(mem, k.file, k.start, k.FileEnd());
        LoadedIs(m, k.file, k.start, Count(m, k.file));
      } else {
        Move(mem, k.start, k.from, k.size);
        ZerosAre(0);
        assert m[k.from..k.from + k.size] + Zeros(0) == m[k.from..k.from + k.size];
      }
    }
    assert mem[..] == Put(m, k.start, KernelImage(m, k));
    CleanUp(mem, k);
    LoadedBytes(m, k);
    PlainBytes(m, k);
    OutsideBytes(m, k);
    assert forall x: nat :: x < mem.Length ==> mem[x] == mem[..][x];
  }

  lemma PlainBytes(m: seq<Byte>, k: Placement)
    requires InMemory(m, k) && (k.addressed || Readable(m, k))
    ensures k.addressed || !IsStatic(m, k.file) ==>
      forall x: nat :: k.start <= x < k.End() ==> LoadedByte(m, k, x) == if x < k.End() - k.bss then m[k.from + (x - k.start)] else 0
  {
    hide LoadImage, IsStatic, TableFits, SegmentsFit, Apart, Count, LoadSize;
  }

  lemma OutsideBytes(m: seq<Byte>, k: Placement)
    requires InMemory(m, k) && (k.addressed || Readable(m, k))
    ensures forall x: nat :: x < |m| && !(k.start <= x < k.start + k.size) ==>
      LoadedByte(m, k, x) == if k.file <= x < k.file + k.fileSize then 0 else m[x]
  {
    hide LoadImage, IsStatic, TableFits, SegmentsFit, Apart, Count, LoadSize;
  }

  lemma ZerosAre(n: nat)
    ensures seq(n, _ => 0 % 256) == Zeros(n)
    ensures n == 0 ==> Zeros(n) == []
  {
  }

  lemma LoadedIs(m: seq<Byte>, image: nat, start: nat, n: nat)
    requires image + EHDR_SIZE <= |m| && TableFits(m, image, |m|) && n <= Count(m, image) && SegmentsFit(m, image, |m|, n)
    requires start + LoadSize(m, image, n) <= |m|
    ensures |LoadImage(m, image, n)| == LoadSize(m, image, n) && Loaded(m, image, start, n) == Put(m, start, LoadImage(m, image, n))
  {
    LoadedSegment(m, image, n, 0);
  }

  /** Loaded by segments, the bytes of each loadable segment follow those of the ones before it: first
      its bytes of the file as they were, then zeros. */
  lemma LoadedSegmentByte(m: seq<Byte>, k: Placement, i: nat, y: nat)
    requires InMemory(m, k) && !k.addressed && Readable(m, k) && IsStatic(m, k.file)
    requires i < Count(m, k.file) && SegmentAt(m, k.file, i).kind == PT_LOAD && y < SegmentAt(m, k.file, i).memSize
    ensures var s, x := SegmentAt(m, k.file, i), k.start + LoadSize(m, k.file, i) + y;
      && x < k.End() && s.fileSize <= s.memSize && k.file + s.offset + s.fileSize <= |m|
      && LoadedByte(m, k, x) == if y < s.fileSize then m[k.file + s.offset + y] else 0
  {
    hide IsStatic, LoadImage, Count, Header, SegmentAt;
    var n, at, s := Count(m, k.file), LoadSize(m, k.file, i), SegmentAt(m, k.file, i);
    LoadedSegment(m, k.file, n, i);
    assert LoadImage(m, k.file, n)[at..at + s.memSize][y] == SegmentImage(m, k.file, s)[y];
  }
}
