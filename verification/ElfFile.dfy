/** The bytes of an ELF file's headers, and what the loader reads from them. */
module ElfFile {
  import opened RawMemory
  import opened Elf

  /** The file header, its sixteen identification bytes first. */
  datatype FileHeader = FileHeader(
    ident: seq<Byte>, kind: nat, machine: nat, version: nat, entry: nat, phoff: nat, shoff: nat, flags: nat,
    ehsize: nat, phentsize: nat, phnum: nat, shentsize: nat, shnum: nat, shstrndx: nat)

  datatype ProgramHeader = ProgramHeader(
    kind: nat, offset: nat, vaddr: nat, paddr: nat, filesz: nat, memsz: nat, flags: nat, align: nat)

  function HalfBytes(v: nat): (r: seq<Byte>)
    ensures |r| == 2
  {
    [v % 0x100, v / 0x100 % 0x100]
  }

  function Identified(h: FileHeader): (r: seq<Byte>)
    ensures |r| == |h.ident| + 24
  {
    h.ident + HalfBytes(h.kind) + HalfBytes(h.machine) + Bytes(h.version) + Bytes(h.entry) + Bytes(h.phoff) + Bytes(h.shoff) + Bytes(h.flags)
  }

  function Counts(h: FileHeader): (r: seq<Byte>)
    ensures |r| == 12
  {
    HalfBytes(h.ehsize) + HalfBytes(h.phentsize) + HalfBytes(h.phnum) + HalfBytes(h.shentsize) + HalfBytes(h.shnum) + HalfBytes(h.shstrndx)
  }

  function EncodeFile(h: FileHeader): (r: seq<Byte>)
    ensures |r| == |h.ident| + 36
  {
    Identified(h) + Counts(h)
  }

  function EncodeProgram(p: ProgramHeader): (r: seq<Byte>)
    ensures |r| == 32
  {
    Bytes(p.kind) + Bytes(p.offset) + Bytes(p.vaddr) + Bytes(p.paddr) + Bytes(p.filesz) + Bytes(p.memsz) + Bytes(p.flags) + Bytes(p.align)
  }

  function EncodePrograms(ps: seq<ProgramHeader>): (r: seq<Byte>)
    ensures |r| == 32 * |ps|
  {
    if ps == [] then [] else EncodePrograms(ps[..|ps| - 1]) + EncodeProgram(ps[|ps| - 1])
  }

  predicate FileInRange(h: FileHeader) {
    && |h.ident| == 16 && h.kind < 0x1_0000 && h.machine < 0x1_0000 && h.version < WORD && h.phoff < WORD
    && h.ehsize < 0x1_0000 && h.phentsize < 0x1_0000 && h.phnum < 0x1_0000
  }

  predicate ProgramInRange(p: ProgramHeader) {
    p.kind < WORD && p.offset < WORD && p.filesz < WORD && p.memsz < WORD
  }

  /** Memory holds the file header at image, and the program headers where it says. */
  ghost predicate FileAt(m: seq<Byte>, image: nat, h: FileHeader, ps: seq<ProgramHeader>) {
    && FileInRange(h) && h.phnum == |ps| && (forall i :: 0 <= i < |ps| ==> ProgramInRange(ps[i]))
    && image + 52 <= |m| && m[image..image + 52] == EncodeFile(h)
    && image + h.phoff + 32 * |ps| <= |m| && m[image + h.phoff..image + h.phoff + 32 * |ps|] == EncodePrograms(ps)
  }

  // ---------------------------------------------------------------- reading the file header

  lemma HalfAt(m: seq<Byte>, a: nat, v: nat)
    requires a + 2 <= |m| && v < 0x1_0000 && m[a..a + 2] == HalfBytes(v)
    ensures Half(m, a) == v
  {
    var w := m[a..a + 2];
    assert w[0] == m[a] && w[1] == m[a + 1];
  }

  lemma IdentifiedParts(h: FileHeader)
    requires |h.ident| == 16
    ensures var b := Identified(h);
      b[..16] == h.ident && b[16..18] == HalfBytes(h.kind) && b[18..20] == HalfBytes(h.machine)
      && b[20..24] == Bytes(h.version) && b[28..32] == Bytes(h.phoff)
  {
    hide HalfBytes, Bytes;
  }

  lemma CountsParts(h: FileHeader)
    ensures var b := Counts(h); b[..2] == HalfBytes(h.ehsize) && b[2..4] == HalfBytes(h.phentsize) && b[4..6] == HalfBytes(h.phnum)
  {
    hide HalfBytes;
  }

  /** The fields of the file header that the loader looks at. */
  lemma FileFields(m: seq<Byte>, image: nat, h: FileHeader)
    requires FileInRange(h) && image + 52 <= |m| && m[image..image + 52] == EncodeFile(h)
    ensures forall k: nat :: k < 16 ==> m[image + k] == h.ident[k]
    ensures Half(m, image + 16) == h.kind && Half(m, image + 18) == h.machine && Word(m, image + 20) == h.version && Word(m, image + 28) == h.phoff
    ensures Half(m, image + 40) == h.ehsize && Half(m, image + 42) == h.phentsize && Half(m, image + 44) == h.phnum
  {
    hide HalfBytes, Bytes, Half, Word, Identified, Counts;
    IdentifiedParts(h);
    CountsParts(h);
    var f := m[image..image + 52];
    Cut(m, image, image + 52, 0, 40);
    Cut(m, image, image + 52, 40, 52);
    assert f[0..40] == Identified(h) && f[40..52] == Counts(h);
    IdentifiedFields(m, image, h);
    Cut(m, image + 40, image + 52, 0, 2);
    Cut(m, image + 40, image + 52, 2, 4);
    Cut(m, image + 40, image + 52, 4, 6);
    HalfAt(m, image + 40, h.ehsize);
    HalfAt(m, image + 42, h.phentsize);
    HalfAt(m, image + 44, h.phnum);
  }

  lemma IdentifiedFields(m: seq<Byte>, image: nat, h: FileHeader)
    requires FileInRange(h) && image + 40 <= |m| && m[image..image + 40] == Identified(h)
    ensures forall k: nat :: k < 16 ==> m[image + k] == h.ident[k]
    ensures Half(m, image + 16) == h.kind && Half(m, image + 18) == h.machine && Word(m, image + 20) == h.version && Word(m, image + 28) == h.phoff
  {
    hide HalfBytes, Bytes, Half, Word, Identified;
    IdentifiedParts(h);
    var b := m[image..image + 40];
    forall k: nat | k < 16
      ensures m[image + k] == h.ident[k]
    {
      assert b[..16][k] == b[k] == m[image + k];
    }
    Cut(m, image, image + 40, 16, 18);
    Cut(m, image, image + 40, 18, 20);
    Cut(m, image, image + 40, 20, 24);
    Cut(m, image, image + 40, 28, 32);
    HalfAt(m, image + 16, h.kind);
    HalfAt(m, image + 18, h.machine);
    WordAt(m, image + 20, h.version);
    WordAt(m, image + 28, h.phoff);
  }

  // ---------------------------------------------------------------- reading program headers

  lemma {:induction false} ProgramPiece(ps: seq<ProgramHeader>, i: nat)
    requires i < |ps|
    ensures EncodePrograms(ps)[32 * i..32 * i + 32] == EncodeProgram(ps[i])
    decreases |ps|
  {
    hide EncodeProgram;
    var front := ps[..|ps| - 1];
    if i < |ps| - 1 {
      ProgramPiece(front, i);
      assert front[i] == ps[i];
      Cut(EncodePrograms(ps), 0, 32 * |front|, 32 * i, 32 * i + 32);
      assert EncodePrograms(ps)[0..32 * |front|] == EncodePrograms(front);
    }
  }

  lemma ProgramParts(p: ProgramHeader)
    ensures var b := EncodeProgram(p);
      b[0..4] == Bytes(p.kind) && b[4..8] == Bytes(p.offset) && b[16..20] == Bytes(p.filesz) && b[20..24] == Bytes(p.memsz)
  {
    hide Bytes;
  }

  lemma ProgramFields(m: seq<Byte>, a: nat, p: ProgramHeader)
    requires ProgramInRange(p) && a + 32 <= |m| && m[a..a + 32] == EncodeProgram(p)
    ensures Word(m, a) == p.kind && Word(m, a + 4) == p.offset && Word(m, a + 16) == p.filesz && Word(m, a + 20) == p.memsz
  {
    hide Bytes, Word, EncodeProgram;
    ProgramParts(p);
    Cut(m, a, a + 32, 0, 4);
    Cut(m, a, a + 32, 4, 8);
    Cut(m, a, a + 32, 16, 20);
    Cut(m, a, a + 32, 20, 24);
    WordAt(m, a, p.kind);
    WordAt(m, a + 4, p.offset);
    WordAt(m, a + 16, p.filesz);
    WordAt(m, a + 20, p.memsz);
  }

  /** The table the loader finds has the file's program headers, in order. */
  lemma SegmentIsHeader(m: seq<Byte>, image: nat, h: FileHeader, ps: seq<ProgramHeader>, i: nat)
    requires FileAt(m, image, h, ps)
    ensures image + 52 <= |m| && TableFits(m, image, |m|) && Count(m, image) == |ps|
    ensures i < |ps| ==> SegmentAt(m, image, i) == Segment(ps[i].kind, ps[i].offset, ps[i].filesz, ps[i].memsz)
  {
    hide Half, Word, EncodeFile, EncodePrograms, EncodeProgram;
    FileFields(m, image, h);
    if i < |ps| {
      var a := image + h.phoff;
      ProgramPiece(ps, i);
      Cut(m, a, a + 32 * |ps|, 32 * i, 32 * i + 32);
      ProgramFields(m, a + 32 * i, ps[i]);
    }
  }

  // ---------------------------------------------------------------- what the loader makes of them

  /** A static executable for this machine: an ELF file of 32-bit little-endian words, and neither
      dynamic linking information nor an interpreter among its segments. */
  predicate StaticFile(h: FileHeader, ps: seq<ProgramHeader>) {
    && |h.ident| == 16 && h.ident[0] == 0x7F && h.ident[1] == 'E' as nat && h.ident[2] == 'L' as nat && h.ident[3] == 'F' as nat
    && h.ident[4] == 1 && h.ident[5] == 1 && h.ident[6] == 1
    && h.kind == 2 && h.machine == 3 && h.version == 1 && h.ehsize == 52 && h.phentsize == 32 && |ps| > 0
    && forall i :: 0 <= i < |ps| ==> ps[i].kind != 2 && ps[i].kind != 3
  }

  /** The memory of the segments of type 1. */
  function MemorySize(ps: seq<ProgramHeader>): nat {
    if ps == [] then 0 else MemorySize(ps[..|ps| - 1]) + if ps[|ps| - 1].kind == 1 then ps[|ps| - 1].memsz else 0
  }

  /** The loader accepts exactly the static executables. */
  lemma StaticIffFile(m: seq<Byte>, image: nat, h: FileHeader, ps: seq<ProgramHeader>)
    requires FileAt(m, image, h, ps)
    ensures image + 52 <= |m| && TableFits(m, image, |m|) && (IsStatic(m, image) <==> StaticFile(h, ps))
  {
    hide Half, Word, EncodeFile, EncodePrograms, FileAt, SegmentAt;
    SegmentIsHeader(m, image, h, ps, 0);
    FileParts(m, image, h, ps);
    FileFields(m, image, h);
    assert m[image + 0] == h.ident[0];
    forall i: nat | i < |ps|
      ensures SegmentAt(m, image, i).kind == ps[i].kind
    {
      SegmentIsHeader(m, image, h, ps, i);
    }
  }

  lemma FileParts(m: seq<Byte>, image: nat, h: FileHeader, ps: seq<ProgramHeader>)
    requires FileAt(m, image, h, ps)
    ensures FileInRange(h) && h.phnum == |ps| && image + 52 <= |m| && m[image..image + 52] == EncodeFile(h)
  {
  }

  /** And the size it loads is theirs. */
  lemma {:induction false} LoadSizeOfFile(m: seq<Byte>, image: nat, h: FileHeader, ps: seq<ProgramHeader>, n: nat)
    requires FileAt(m, image, h, ps) && n <= |ps|
    ensures image + 52 <= |m| && TableFits(m, image, |m|) && Count(m, image) == |ps| && LoadSize(m, image, n) == MemorySize(ps[..n])
    decreases n
  {
    hide Half, Word, EncodeFile, EncodePrograms, FileAt, SegmentAt, Count;
    SegmentIsHeader(m, image, h, ps, n);
    if n > 0 {
      LoadSizeOfFile(m, image, h, ps, n - 1);
      SegmentIsHeader(m, image, h, ps, n - 1);
      assert ps[..n][..n - 1] == ps[..n - 1];
    }
  }

  /** Every loadable segment has its bytes in memory, and room for them. */
  predicate Loadable(m: seq<Byte>, image: nat, ps: seq<ProgramHeader>) {
    forall j :: 0 <= j < |ps| && ps[j].kind == 1 ==> ps[j].filesz <= ps[j].memsz && image + ps[j].offset + ps[j].filesz <= |m|
  }

  lemma LoadableFits(m: seq<Byte>, image: nat, h: FileHeader, ps: seq<ProgramHeader>)
    requires FileAt(m, image, h, ps) && Loadable(m, image, ps)
    ensures image + 52 <= |m| && TableFits(m, image, |m|) && Count(m, image) == |ps|
    ensures SegmentsFit(m, image, |m|, |ps|) && LoadSize(m, image, |ps|) == MemorySize(ps)
  {
    hide FileAt, SegmentAt, Count, Header;
    SegmentIsHeader(m, image, h, ps, |ps|);
    LoadSizeOfFile(m, image, h, ps, |ps|);
    assert ps[..|ps|] == ps;
    forall i: nat | i < |ps|
      ensures SegmentAt(m, image, i) == Segment(ps[i].kind, ps[i].offset, ps[i].filesz, ps[i].memsz)
    {
      SegmentIsHeader(m, image, h, ps, i);
    }
  }

  lemma LoadedIsPut(m: seq<Byte>, image: nat, start: nat, h: FileHeader, ps: seq<ProgramHeader>) returns (r: seq<Byte>)
    requires FileAt(m, image, h, ps) && Loadable(m, image, ps) && start + MemorySize(ps) <= |m|
    ensures image + 52 <= |m| && TableFits(m, image, |m|) && Count(m, image) == |ps|
    ensures SegmentsFit(m, image, |m|, |ps|) && LoadSize(m, image, |ps|) == MemorySize(ps) == |r| && r == LoadImage(m, image, |ps|)
    ensures forall x: nat :: x < |m| ==> Loaded(m, image, start, |ps|)[x] == if start <= x < start + |r| then r[x - start] else m[x]
  {
    hide FileAt, SegmentAt, Count, Header, LoadImage, Put, MemorySize, LoadSize, SegmentsFit;
    LoadableFits(m, image, h, ps);
    LoadedSegment(m, image, |ps|, 0);
    r := LoadImage(m, image, |ps|);
    forall x: nat | x < |m|
      ensures Put(m, start, r)[x] == if start <= x < start + |r| then r[x - start] else m[x]
    {
      PutByte(m, start, r, x);
    }
  }

  lemma ImageByte(m: seq<Byte>, image: nat, h: FileHeader, ps: seq<ProgramHeader>, i: nat, y: nat)
    requires FileAt(m, image, h, ps) && Loadable(m, image, ps) && i < |ps| && ps[i].kind == 1 && y < ps[i].memsz
    ensures image + 52 <= |m| && TableFits(m, image, |m|) && Count(m, image) == |ps|
    ensures SegmentsFit(m, image, |m|, |ps|) && LoadSize(m, image, |ps|) == MemorySize(ps)
    ensures MemorySize(ps[..i]) + y < MemorySize(ps) == |LoadImage(m, image, |ps|)|
    ensures ps[i].filesz <= ps[i].memsz && image + ps[i].offset + ps[i].filesz <= |m|
    ensures LoadImage(m, image, |ps|)[MemorySize(ps[..i]) + y] == if y < ps[i].filesz then m[image + ps[i].offset + y] else 0
  {
    hide FileAt, SegmentAt, Count, Header, LoadImage, MemorySize, LoadSize, SegmentsFit;
    LoadableFits(m, image, h, ps);
    LoadedSegment(m, image, |ps|, i);
    SegmentIsHeader(m, image, h, ps, i);
    LoadSizeOfFile(m, image, h, ps, i);
    var r, at, s := LoadImage(m, image, |ps|), LoadSize(m, image, i), SegmentAt(m, image, i);
    assert r[at..at + s.memSize][y] == SegmentImage(m, image, s)[y];
  }

  /** In loaded memory the segments of type 1 lie back to back from start, each with its bytes of the
      file and then zeros, and no byte elsewhere has changed. */
  lemma LoadedFileByte(m: seq<Byte>, image: nat, start: nat, h: FileHeader, ps: seq<ProgramHeader>, i: nat, y: nat)
    requires FileAt(m, image, h, ps) && Loadable(m, image, ps) && start + MemorySize(ps) <= |m|
    ensures image + 52 <= |m| && TableFits(m, image, |m|) && Count(m, image) == |ps|
    ensures SegmentsFit(m, image, |m|, |ps|) && LoadSize(m, image, |ps|) == MemorySize(ps)
    ensures i < |ps| && ps[i].kind == 1 && y < ps[i].memsz ==>
      var x := start + MemorySize(ps[..i]) + y;
      && x < start + MemorySize(ps) && ps[i].filesz <= ps[i].memsz && image + ps[i].offset + ps[i].filesz <= |m|
      && Loaded(m, image, start, |ps|)[x] == if y < ps[i].filesz then m[image + ps[i].offset + y] else 0
    ensures forall x: nat :: x < |m| && !(start <= x < start + MemorySize(ps)) ==> Loaded(m, image, start, |ps|)[x] == m[x]
  {
    hide FileAt, Loadable, SegmentAt, Count, Header, LoadImage, Put, MemorySize, LoadSize, SegmentsFit, Loaded;
    var r := LoadedIsPut(m, image, start, h, ps);
    if i < |ps| && ps[i].kind == 1 && y < ps[i].memsz {
      ImageByte(m, image, h, ps, i, y);
    }
  }
}
