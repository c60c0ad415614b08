/** The loader's reading of a 32-bit ELF executable. */
module Elf {
  import opened RawMemory

  const EHDR_SIZE: nat := 52
  const PHDR_SIZE: nat := 32
  const ET_EXEC: nat := 2
  const EM_386: nat := 3
  const EV_CURRENT: nat := 1
  const PT_LOAD: nat := 1
  const PT_DYNAMIC: nat := 2
  const PT_INTERP: nat := 3

  function Half(m: seq<Byte>, a: nat): nat
    requires a + 2 <= |m|
  {
    m[a] as nat + 0x100 * m[a + 1] as nat
  }

  // ---------------------------------------------------------------- headers

  /** Elf32_IsValidExecutable, with Elf32_IsValidELF. */
  predicate IsExecutable(m: seq<Byte>, image: nat)
    requires image + EHDR_SIZE <= |m|
  {
    && m[image] == 0x7F && m[image + 1] == 0x45 && m[image + 2] == 0x4C && m[image + 3] == 0x46
    && m[image + 4] == 1 && m[image + 5] == 1 && m[image + 6] == EV_CURRENT && Word(m, image + 20) == EV_CURRENT
    && Half(m, image + 18) == EM_386 && Half(m, image + 40) == EHDR_SIZE
    && Half(m, image + 16) == ET_EXEC && Half(m, image + 42) == PHDR_SIZE && Count(m, image) != 0
  }

  /** e_phnum, and the address of program header i. */
  function Count(m: seq<Byte>, image: nat): nat
    requires image + EHDR_SIZE <= |m|
  {
    Half(m, image + 44)
  }

  function Header(m: seq<Byte>, image: nat, i: nat): nat
    requires image + EHDR_SIZE <= |m|
  {
    image + Word(m, image + 28) + PHDR_SIZE * i
  }

  /** The program headers lie in memory. */
  predicate TableFits(m: seq<Byte>, image: nat, end: nat)
    requires image + EHDR_SIZE <= |m|
  {
    image + EHDR_SIZE <= end <= |m| && Header(m, image, Count(m, image)) <= end
  }

  datatype Segment = Segment(kind: nat, offset: nat, fileSize: nat, memSize: nat)

  function SegmentAt(m: seq<Byte>, image: nat, i: nat): Segment
    requires image + EHDR_SIZE <= |m| && TableFits(m, image, |m|) && i < Count(m, image)
  {
    var a := Header(m, image, i);
    Segment(Word(m, a), Word(m, a + 4), Word(m, a + 16), Word(m, a + 20))
  }

  predicate IsStatic(m: seq<Byte>, image: nat)
    requires image + EHDR_SIZE <= |m| && TableFits(m, image, |m|)
  {
    IsExecutable(m, image) && forall i: nat :: i < Count(m, image) ==> SegmentAt(m, image, i).kind != PT_DYNAMIC && SegmentAt(m, image, i).kind != PT_INTERP
  }

  /** Elf32_IsValidiStaticExecutable */
  method CheckStatic(mem: array<Byte>, image: nat) returns (ok: bool)
    requires image + EHDR_SIZE <= mem.Length && TableFits(mem[..], image, mem.Length)
    ensures ok == IsStatic(mem[..], image)
  {
    hide IsExecutable, Word, Half;
    if !IsExecutable(mem[..], image) {
      return false;
    }
    for i := 0 to Count(mem[..], image)
      invariant forall j: nat :: j < i ==> SegmentAt(mem[..], image, j).kind != PT_DYNAMIC && SegmentAt(mem[..], image, j).kind != PT_INTERP
    {
      var kind := Word(mem[..], Header(mem[..], image, i));
      assert kind == SegmentAt(mem[..], image, i).kind;
      if kind == PT_DYNAMIC || kind == PT_INTERP {
        return false;
      }
    }
    return true;
  }

  // ---------------------------------------------------------------- what loading produces

  /** Every loadable segment among the first n has its file bytes in the file, and at least as much
      memory as file. */
  predicate SegmentsFit(m: seq<Byte>, image: nat, end: nat, n: nat)
    requires image + EHDR_SIZE <= |m| && TableFits(m, image, |m|) && n <= Count(m, image)
  {
    forall i: nat :: i < n && SegmentAt(m, image, i).kind == PT_LOAD ==>
      var s := SegmentAt(m, image, i); s.fileSize <= s.memSize && image + s.offset + s.fileSize <= end <= |m|
  }

  function LoadSize(m: seq<Byte>, image: nat, n: nat): nat
    requires image + EHDR_SIZE <= |m| && TableFits(m, image, |m|) && n <= Count(m, image)
  {
    if n == 0 then 0
    else LoadSize(m, image, n - 1) + if SegmentAt(m, image, n - 1).kind == PT_LOAD then SegmentAt(m, image, n - 1).memSize else 0
  }

  /** A segment's memory: its bytes of the file, then zeros. */
  function SegmentImage(m: seq<Byte>, image: nat, s: Segment): (r: seq<Byte>)
    requires s.fileSize <= s.memSize && image + s.offset + s.fileSize <= |m|
    ensures |r| == s.memSize
  {
    m[image + s.offset..image + s.offset + s.fileSize] + Zeros(s.memSize - s.fileSize)
  }

  /** The loaded image: the segments back to back. */
  function LoadImage(m: seq<Byte>, image: nat, n: nat): (r: seq<Byte>)
    requires image + EHDR_SIZE <= |m| && TableFits(m, image, |m|) && n <= Count(m, image) && SegmentsFit(m, image, |m|, n)
  {
    if n == 0 then []
    else if SegmentAt(m, image, n - 1).kind != PT_LOAD then LoadImage(m, image, n - 1)
    else LoadImage(m, image, n - 1) + SegmentImage(m, image, SegmentAt(m, image, n - 1))
  }

  /** The loaded image has exactly the size computed beforehand, and each loadable segment lies in it
      where the sizes of those before it end. */
  lemma {:induction false} LoadedSegment(m: seq<Byte>, image: nat, n: nat, i: nat)
    requires image + EHDR_SIZE <= |m| && TableFits(m, image, |m|) && n <= Count(m, image) && SegmentsFit(m, image, |m|, n)
    ensures |LoadImage(m, image, n)| == LoadSize(m, image, n)
    ensures i < n && SegmentAt(m, image, i).kind == PT_LOAD ==>
      var s, at := SegmentAt(m, image, i), LoadSize(m, image, i);
      at + s.memSize <= LoadSize(m, image, n) && LoadImage(m, image, n)[at..at + s.memSize] == SegmentImage(m, image, s)
    decreases n
  {
    hide SegmentAt, SegmentImage, Header, Count;
    if n > 0 {
      LoadedSegment(m, image, n - 1, i);
      var front := LoadImage(m, image, n - 1);
      if i < n - 1 && SegmentAt(m, image, i).kind == PT_LOAD && SegmentAt(m, image, n - 1).kind == PT_LOAD {
        var at, k := LoadSize(m, image, i), SegmentAt(m, image, i).memSize;
        assert LoadImage(m, image, n)[at..at + k] == front[at..at + k];
      }
    }
  }

  /** Elf32_StaticExecutableLoadSize, whose sum is a 32-bit word. */
  method StaticLoadSize(mem: array<Byte>, image: nat) returns (size: nat)
    requires image + EHDR_SIZE <= mem.Length && TableFits(mem[..], image, mem.Length)
    ensures size == if IsStatic(mem[..], image) then LoadSize(mem[..], image, Count(mem[..], image)) % WORD else 0
  {
    hide IsStatic, Word, Half;
    size := 0;
    var ok := CheckStatic(mem, image);
    if !ok {
      return;
    }
    for i := 0 to Count(mem[..], image)
      invariant size == LoadSize(mem[..], image, i) % WORD
    {
      if Word(mem[..], Header(mem[..], image, i)) == PT_LOAD {
        size := (size + Word(mem[..], Header(mem[..], image, i) + 20)) % WORD;
      }
    }
  }

  // ---------------------------------------------------------------- loading

  /** Memory that differs only outside the file reads the same headers. */
  lemma SameHeaders(m: seq<Byte>, n: seq<Byte>, image: nat, end: nat, i: nat)
    requires image + EHDR_SIZE <= |m| == |n| && TableFits(m, image, end) && i < Count(m, image)
    requires m[image..end] == n[image..end]
    ensures TableFits(n, image, end) && Count(n, image) == Count(m, image)
    ensures Header(n, image, i) == Header(m, image, i) && SegmentAt(n, image, i) == SegmentAt(m, image, i)
  {
    hide Half, Word;
    HalfKept(m, n, image, end, 44);
    WordKeptIn(m, n, image, end, image + 28);
    var a := Header(m, image, i);
    assert a + PHDR_SIZE <= Header(m, image, Count(m, image));
    WordKeptIn(m, n, image, end, a);
    WordKeptIn(m, n, image, end, a + 4);
    WordKeptIn(m, n, image, end, a + 16);
    WordKeptIn(m, n, image, end, a + 20);
  }

  lemma WordKeptIn(m: seq<Byte>, n: seq<Byte>, from: nat, to: nat, a: nat)
    requires from <= a && a + 4 <= to <= |m| == |n| && m[from..to] == n[from..to]
    ensures Word(n, a) == Word(m, a)
  {
    assert forall k :: 0 <= k < to - from ==> m[from..to][k] == m[from + k] && n[from..to][k] == n[from + k];
    assert m[from + (a - from)] == n[from + (a - from)] && m[from + (a + 1 - from)] == n[from + (a + 1 - from)];
    assert m[from + (a + 2 - from)] == n[from + (a + 2 - from)] && m[from + (a + 3 - from)] == n[from + (a + 3 - from)];
  }

  lemma HalfKept(m: seq<Byte>, n: seq<Byte>, from: nat, to: nat, k: nat)
    requires from + k + 2 <= to <= |m| == |n| && m[from..to] == n[from..to]
    ensures Half(n, from + k) == Half(m, from + k)
  {
    assert m[from..to][k] == n[from..to][k] && m[from..to][k + 1] == n[from..to][k + 1];
  }

  lemma FitsAll(m: seq<Byte>, image: nat, end: nat)
    requires image + EHDR_SIZE <= |m| && TableFits(m, image, end)
    ensures TableFits(m, image, |m|)
    ensures SegmentsFit(m, image, end, Count(m, image)) ==> forall i: nat :: i <= Count(m, image) ==> SegmentsFit(m, image, |m|, i)
  {
    hide Count, Header, SegmentAt;
  }

  lemma {:induction false} LoadSizeGrows(m: seq<Byte>, image: nat, i: nat, n: nat)
    requires image + EHDR_SIZE <= |m| && TableFits(m, image, |m|) && i <= n <= Count(m, image)
    ensures LoadSize(m, image, i) <= LoadSize(m, image, n)
    decreases n
  {
    hide Count, Header, SegmentAt;
    if i < n {
      LoadSizeGrows(m, image, i, n - 1);
    }
  }

  /** Memory with the first n segments loaded at start. */
  function Loaded(m: seq<Byte>, image: nat, start: nat, n: nat): (r: seq<Byte>)
    requires image + EHDR_SIZE <= |m| && TableFits(m, image, |m|) && n <= Count(m, image) && SegmentsFit(m, image, |m|, n)
    requires start + LoadSize(m, image, n) <= |m|
    ensures |r| == |m|
  {
    LoadedSegment(m, image, n, 0);
    Put(m, start, LoadImage(m, image, n))
  }

  /** The file is out of the way. */
  ghost predicate Apart(m: seq<Byte>, image: nat, end: nat, start: nat)
    requires image + EHDR_SIZE <= |m| && TableFits(m, image, |m|)
  {
    var k := LoadSize(m, image, Count(m, image));
    start + k <= |m| && (start + k <= image || end <= start)
  }

  lemma FileKept(m: seq<Byte>, image: nat, end: nat, start: nat, i: nat)
    requires image + EHDR_SIZE <= |m| && TableFits(m, image, end) && TableFits(m, image, |m|)
    requires i <= Count(m, image) && SegmentsFit(m, image, |m|, i) && Apart(m, image, end, start)
    ensures start + LoadSize(m, image, i) <= |m| && Loaded(m, image, start, i)[image..end] == m[image..end]
  {
    hide Count, Header, SegmentAt, Put, LoadImage, LoadSize;
    LoadSizeGrows(m, image, i, Count(m, image));
    LoadedSegment(m, image, i, 0);
    PutCut(m, start, LoadImage(m, image, i), image, end);
  }

  /** Writing a segment's file bytes and its padding after the segments before it. */
  lemma SegmentStep(m: seq<Byte>, image: nat, start: nat, i: nat)
    requires image + EHDR_SIZE <= |m| && TableFits(m, image, |m|) && i < Count(m, image)
    requires SegmentsFit(m, image, |m|, i) && SegmentsFit(m, image, |m|, i + 1)
    requires start + LoadSize(m, image, i + 1) <= |m|
    ensures SegmentAt(m, image, i).kind != PT_LOAD ==>
      LoadSize(m, image, i + 1) == LoadSize(m, image, i) && Loaded(m, image, start, i + 1) == Loaded(m, image, start, i)
    ensures SegmentAt(m, image, i).kind == PT_LOAD ==>
      var s, at := SegmentAt(m, image, i), start + LoadSize(m, image, i);
      && LoadSize(m, image, i + 1) == LoadSize(m, image, i) + s.memSize
      && s.fileSize <= s.memSize && image + s.offset + s.fileSize <= |m|
      && Put(Put(Loaded(m, image, start, i), at, m[image + s.offset..image + s.offset + s.fileSize]), at + s.fileSize, Zeros(s.memSize - s.fileSize))
         == Loaded(m, image, start, i + 1)
  {
    hide Count, Header, SegmentAt, Put;
    LoadedSegment(m, image, i, 0);
    LoadedSegment(m, image, i + 1, 0);
    var s := SegmentAt(m, image, i);
    if s.kind == PT_LOAD {
      var front, bytes := LoadImage(m, image, i), m[image + s.offset..image + s.offset + s.fileSize];
      PutNext(m, start, front, bytes);
      PutNext(m, start, front + bytes, Zeros(s.memSize - s.fileSize));
      assert front + bytes + Zeros(s.memSize - s.fileSize) == front + (bytes + Zeros(s.memSize - s.fileSize));
    }
  }

  /** Elf32_LoadStaticExecutable, with the file in [image, end) apart from where it is loaded: the
      segments back to back, each its file bytes and its padding of zeros, and nothing else written. */
  method LoadStatic(mem: array<Byte>, image: nat, start: nat, ghost end: nat) returns (size: nat)
    requires image + EHDR_SIZE <= mem.Length && TableFits(mem[..], image, end) && TableFits(mem[..], image, mem.Length)
    requires SegmentsFit(mem[..], image, end, Count(mem[..], image)) && SegmentsFit(mem[..], image, mem.Length, Count(mem[..], image))
    requires IsStatic(mem[..], image) ==> Apart(mem[..], image, end, start)
    modifies mem
    ensures var m := old(mem[..]);
      if IsStatic(m, image) then size == LoadSize(m, image, Count(m, image)) && mem[..] == Loaded(m, image, start, Count(m, image))
      else size == 0 && mem[..] == m
  {
    hide IsStatic, Word, Half, LoadImage, Put, Header, Count, SegmentAt, SegmentsFit, TableFits, Loaded, Apart, LoadSize;
    size := 0;
    var ok := CheckStatic(mem, image);
    if !ok {
      return;
    }
    ghost var m := mem[..];
    var at := start;
    var count := Count(mem[..], image);
    FitsAll(m, image, end);
    FileKept(m, image, end, start, 0);
    StartsEmpty(m, image, start);
    for i := 0 to count
      invariant size == LoadSize(m, image, i) && at == start + size <= mem.Length && mem[..] == Loaded(m, image, start, i)
    {
      FileKept(m, image, end, start, i);
      SameHeaders(m, mem[..], image, end, i);
      FitsAll(mem[..], image, end);
      SegmentWords(m, mem[..], image, end, start, i);
      SegmentStep(m, image, start, i);
      var h := Header(mem[..], image, i);
      if Word(mem[..], h) == PT_LOAD {
        var from := image + Word(mem[..], h + 4);
        var bytes := Word(mem[..], h + 16);
        var pad := Word(mem[..], h + 20) - bytes;
        Cut(m, image, end, from - image, from + bytes - image);
        Cut(mem[..], image, end, from - image, from + bytes - image);
        assert seq(pad, _ => 0 % 256) == Zeros(pad);
        Move(mem, at, from, bytes);
        at := at + bytes;
        Set(mem, at, 0, pad);
        at := at + pad;
        size := size + (bytes + pad);
      }
    }
  }

  /** The header words the loader reads are the segment's, and its ranges lie in memory. */
  lemma SegmentWords(m: seq<Byte>, n: seq<Byte>, image: nat, end: nat, start: nat, i: nat)
    requires image + EHDR_SIZE <= |m| == |n| && TableFits(m, image, end) && TableFits(m, image, |m|) && TableFits(n, image, |n|) && i < Count(m, image) == Count(n, image)
    requires Header(n, image, i) == Header(m, image, i) && SegmentAt(n, image, i) == SegmentAt(m, image, i)
    requires SegmentsFit(m, image, end, Count(m, image)) && Apart(m, image, end, start)
    ensures var h, s := Header(n, image, i), SegmentAt(m, image, i);
      && h + PHDR_SIZE <= |n| && Word(n, h) == s.kind && Word(n, h + 4) == s.offset && Word(n, h + 16) == s.fileSize && Word(n, h + 20) == s.memSize
      && (s.kind == PT_LOAD ==> s.fileSize <= s.memSize && image + s.offset + s.fileSize <= end <= |m|)
    ensures start + LoadSize(m, image, i + 1) <= |m|
  {
    hide Word, Half;
    LoadSizeGrows(m, image, i + 1, Count(m, image));
  }

  lemma StartsEmpty(m: seq<Byte>, image: nat, start: nat)
    requires image + EHDR_SIZE <= |m| && TableFits(m, image, |m|) && SegmentsFit(m, image, |m|, 0) && start <= |m|
    ensures LoadSize(m, image, 0) == 0 && Loaded(m, image, start, 0) == m
  {
  }
}
