/** From the BIOS map to the page allocator by way of the Multiboot2 information record: the loader
    saves its RAM table as a tag, and the kernel finds it, decodes it and maps its entries. */
module BootRecord {
  import opened Options
  import opened RawMemory
  import opened MultibootInfo
  import opened MemoryMap
  import Blocks
  import FreeList
  import Buddy
  import PhysMem
  import Boot

  const ENTRY_SIZE: nat := 16
  const WORD64: nat := 0x1_0000_0000_0000_0000

  // ---------------------------------------------------------------- entries in memory

  function Bytes64(v: nat): (r: seq<Byte>)
    ensures |r| == 8
  {
    Bytes(v % WORD) + Bytes(v / WORD)
  }

  function Word64(m: seq<Byte>, a: nat): nat
    requires a + 8 <= |m|
  {
    Word(m, a) + WORD * Word(m, a + 4)
  }

  function Row(r: Region): (b: seq<Byte>)
    ensures |b| == ENTRY_SIZE
  {
    Bytes64(r.address) + Bytes64(r.size)
  }

  function Rows(table: seq<Region>): (b: seq<Byte>)
    ensures |b| == ENTRY_SIZE * |table|
  {
    if table == [] then [] else Rows(table[..|table| - 1]) + Row(table[|table| - 1])
  }

  /** The tag of the page-aligned RAM table: entry size, version, entries. */
  function TableTag(table: seq<Region>): Tag {
    Tag(RAM_INFO_PAGE_ALIGNED, Bytes(ENTRY_SIZE) + Bytes(0) + Rows(table))
  }

  /** The bytes of such a tag with one entry. */
  lemma OneEntryTag()
    ensures TableTag([Region(0x10_0000, 0x7F0_0000)]) == Tag(99,
      [16, 0, 0, 0, 0, 0, 0, 0] + [0, 0, 0x10, 0, 0, 0, 0, 0] + [0, 0, 0xF0, 7, 0, 0, 0, 0])
  {
    hide Row, Bytes;
    var t := [Region(0x10_0000, 0x7F0_0000)];
    OneRow();
    assert t[..0] == [] && Rows(t) == [] + Row(t[0]);
    assert Bytes(16) == [16, 0, 0, 0] && Bytes(0) == [0, 0, 0, 0] by {
      SmallBytes(16);
      SmallBytes(0);
    }
  }

  lemma SmallBytes(v: nat)
    requires v < 0x100
    ensures Bytes(v) == [v, 0, 0, 0]
  {
  }

  lemma OneRow()
    ensures Row(Region(0x10_0000, 0x7F0_0000)) == [0, 0, 0x10, 0, 0, 0, 0, 0] + [0, 0, 0xF0, 7, 0, 0, 0, 0]
  {
    hide Bytes;
    SmallBytes(0);
    assert Bytes(0x10_0000) == [0, 0, 0x10, 0] && Bytes(0x7F0_0000) == [0, 0, 0xF0, 7] by {
      RowWords();
    }
  }

  lemma RowWords()
    ensures Bytes(0x10_0000) == [0, 0, 0x10, 0] && Bytes(0x7F0_0000) == [0, 0, 0xF0, 7]
  {
  }

  predicate InWords(table: seq<Region>) {
    forall i :: 0 <= i < |table| ==> table[i].address < WORD64 && table[i].size < WORD64
  }

  lemma Word64At(m: seq<Byte>, a: nat, v: nat)
    requires a + 8 <= |m| && v < WORD64 && m[a..a + 8] == Bytes64(v)
    ensures Word64(m, a) == v
  {
    hide Bytes, Word;
    Cut(m, a, a + 8, 0, 4);
    Cut(m, a, a + 8, 4, 8);
    assert Bytes64(v)[0..4] == Bytes(v % WORD) && Bytes64(v)[4..8] == Bytes(v / WORD);
    WordAt(m, a, v % WORD);
    WordAt(m, a + 4, v / WORD);
  }

  lemma RowAt(m: seq<Byte>, a: nat, r: Region)
    requires a + ENTRY_SIZE <= |m| && r.address < WORD64 && r.size < WORD64 && m[a..a + ENTRY_SIZE] == Row(r)
    ensures Word64(m, a) == r.address && Word64(m, a + 8) == r.size
  {
    hide Bytes64, Word64;
    Cut(m, a, a + ENTRY_SIZE, 0, 8);
    Cut(m, a, a + ENTRY_SIZE, 8, 16);
    assert Row(r)[0..8] == Bytes64(r.address) && Row(r)[8..16] == Bytes64(r.size);
    Word64At(m, a, r.address);
    Word64At(m, a + 8, r.size);
  }

  lemma {:induction false} RowsAt(table: seq<Region>, i: nat)
    requires i < |table|
    ensures Rows(table)[ENTRY_SIZE * i..ENTRY_SIZE * i + ENTRY_SIZE] == Row(table[i])
    decreases |table|
  {
    var front := table[..|table| - 1];
    if i < |table| - 1 {
      RowsAt(front, i);
      assert front[i] == table[i];
      Cut(Rows(table), 0, |Rows(front)|, ENTRY_SIZE * i, ENTRY_SIZE * i + ENTRY_SIZE);
      assert Rows(table)[0..|Rows(front)|] == Rows(front);
    }
  }

  /** The kernel's view of the table as an array of entries. */
  method ReadTable(mem: array<Byte>, at: nat, n: nat, ghost table: seq<Region>) returns (r: seq<Region>)
    requires InWords(table) && n == |table| && at + ENTRY_SIZE * n <= mem.Length && mem[at..at + ENTRY_SIZE * n] == Rows(table)
    ensures r == table
  {
    hide Rows, Row, Word64;
    r := [];
    for i := 0 to n
      invariant r == table[..i]
    {
      var a := at + ENTRY_SIZE * i;
      RowsAt(table, i);
      Cut(mem[..], at, at + ENTRY_SIZE * n, ENTRY_SIZE * i, ENTRY_SIZE * i + ENTRY_SIZE);
      assert mem[..][at..at + ENTRY_SIZE * n] == mem[at..at + ENTRY_SIZE * n];
      RowAt(mem[..], a, table[i]);
      r := r + [Region(Word64(mem[..], a), Word64(mem[..], a + 8))];
    }
  }

  // ---------------------------------------------------------------- the saved table

  /** Other information than the RAM table. */
  predicate OtherKinds(requests: seq<Request>) {
    forall i :: 0 <= i < |requests| ==> TagOk(requests[i].tag) && requests[i].tag.kind != RAM_INFO_PAGE_ALIGNED
  }

  /** No type is saved twice. */
  lemma {:induction false} SavedOnce(requests: seq<Request>, i: nat, j: nat)
    requires i < |Saved(requests)| && j < |Saved(requests)| && Saved(requests)[i].kind == Saved(requests)[j].kind
    ensures i == j
    decreases |requests|
  {
    if requests != [] {
      var front, r := requests[..|requests| - 1], requests[|requests| - 1];
      var tags := Saved(front);
      if i < |tags| && j < |tags| {
        SavedOnce(front, i, j);
      }
    }
  }

  /** Among other information the table's tag is saved, and it is the only one of its type. */
  lemma TableIsSaved(before: seq<Request>, table: seq<Region>, after: seq<Request>)
    requires OtherKinds(before) && OtherKinds(after)
    ensures var requests := before + [Request(TableTag(table), true)] + after;
      var tags := Saved(requests);
      var i := LastOf(tags, RAM_INFO_PAGE_ALIGNED);
      i < |tags| && tags[i] == TableTag(table)
      && forall j :: 0 <= j < |tags| && tags[j].kind == RAM_INFO_PAGE_ALIGNED ==> tags[j] == TableTag(table)
  {
    hide Rows, TagOk, LastOf;
    var requests := before + [Request(TableTag(table), true)] + after;
    var tags := Saved(requests);
    assert requests[|before|] == Request(TableTag(table), true);
    FirstKeptUnique(requests, RAM_INFO_PAGE_ALIGNED, |before|);
    SavedIsFirstKept(requests, RAM_INFO_PAGE_ALIGNED);
    var f := FirstOf(tags, RAM_INFO_PAGE_ALIGNED);
    forall j: nat | j < |tags| && tags[j].kind == RAM_INFO_PAGE_ALIGNED
      ensures tags[j] == TableTag(table)
    {
      SavedOnce(requests, j, f);
    }
    LastExists(tags, RAM_INFO_PAGE_ALIGNED, f);
  }

  lemma {:induction false} LastExists(tags: seq<Tag>, kind: nat, i: nat)
    requires i < |tags| && tags[i].kind == kind
    ensures LastOf(tags, kind) < |tags|
    decreases |tags|
  {
    if tags[|tags| - 1].kind != kind {
      LastExists(tags[..|tags| - 1], kind, i);
    }
  }

  /** The kernel counts the entries right. */
  lemma CountsEntries(base: nat, tags: seq<Tag>, table: seq<Region>)
    requires var i := LastOf(tags, RAM_INFO_PAGE_ALIGNED); i < |tags| && tags[i] == TableTag(table)
    ensures RamTable(base, tags) == Some((Offset(base, tags, LastOf(tags, RAM_INFO_PAGE_ALIGNED)) + 16, |table|))
  {
    hide Rows, Bytes, Word, Offset, TableTag, LastOf, Entries;
    TagParts(table);
    CountOf(|table|);
  }

  lemma TagParts(table: seq<Region>)
    ensures var g := TableTag(table);
      && g.kind == RAM_INFO_PAGE_ALIGNED && |g.body| == 8 + ENTRY_SIZE * |table|
      && g.body[8..] == Rows(table) && Word(g.body, 0) == ENTRY_SIZE
  {
    hide Rows, Bytes, Word;
    var body := TableTag(table).body;
    assert body[0..4] == Bytes(ENTRY_SIZE);
    WordAt(body, 0, ENTRY_SIZE);
  }

  lemma CountOf(n: nat)
    ensures Entries(ENTRY_SIZE, 16 + ENTRY_SIZE * n) == n
  {
  }

  /** The entries lie behind the tag's two headers. */
  lemma TableRowsAt(m: seq<Byte>, base: nat, tags: seq<Tag>, table: seq<Region>)
    requires Record(m, base, tags)
    requires var i := LastOf(tags, RAM_INFO_PAGE_ALIGNED); i < |tags| && tags[i] == TableTag(table)
    ensures var a := Offset(base, tags, LastOf(tags, RAM_INFO_PAGE_ALIGNED)) + 16;
      a + ENTRY_SIZE * |table| <= |m| && m[a..a + ENTRY_SIZE * |table|] == Rows(table)
  {
    hide Record, Rows, Bytes, Word, Offset, LastOf, TableTag, Encode, Body, TagOk;
    TagParts(table);
    var i := LastOf(tags, RAM_INFO_PAGE_ALIGNED);
    RecordFits(m, base, tags);
    TagAt(m, base, tags, i);
    BehindHeaders(m, Offset(base, tags, i), TableTag(table).body);
  }

  lemma BehindHeaders(m: seq<Byte>, o: nat, body: seq<Byte>)
    requires o + 8 + |body| <= |m| && |body| >= 8 && m[o + 8..o + 8 + |body|] == body
    ensures m[o + 16..o + 8 + |body|] == body[8..]
  {
    Cut(m, o + 8, o + 8 + |body|, 8, |body|);
    assert body[8..|body|] == body[8..];
  }

  lemma BodyIsLong(table: seq<Region>)
    ensures |TableTag(table).body| >= 8
  {
  }

  /** A table that fits in memory makes a proper tag. */
  lemma TableTagOk(before: seq<Request>, table: seq<Region>, after: seq<Request>)
    requires RoomFor(before + [Request(TableTag(table), true)] + after) < WORD
    ensures TagOk(TableTag(table))
  {
    hide Rows, Bytes;
    var r := Request(TableTag(table), true);
    var requests := before + [r] + after;
    RoomGrows(requests, |before| + 1);
    var front := requests[..|before| + 1];
    assert front[|before|] == r;
    assert TableTag(table).Size() == 8 * (2 + 2 * |table|);
  }

  lemma AllTagsOk(before: seq<Request>, r: Request, after: seq<Request>)
    requires OtherKinds(before) && OtherKinds(after) && TagOk(r.tag)
    ensures var requests := before + [r] + after; forall i :: 0 <= i < |requests| ==> TagOk(requests[i].tag)
  {
    hide TagOk;
  }

  lemma TableInWords(t: seq<Entry>)
    requires WellFormed(t)
    ensures InWords(Table(t, true))
  {
    hide Merge, RoundPage, Compact;
    var rs := Merge(t, 0);
    var table := Table(t, true);
    MergeSound(t, 0);
    forall i | 0 <= i < |table|
      ensures table[i].address < WORD64 && table[i].size < WORD64
    {
      CompactMembers(RoundAll(rs), table[i]);
      var j :| 0 <= j < |rs| && RoundAll(rs)[j] == table[i];
      RoundedInWords(rs[j]);
    }
  }

  lemma RoundedInWords(r: Region)
    requires r.End() <= ADDR_LIMIT
    ensures RoundPage(r).address < WORD64 && RoundPage(r).size < WORD64
  {
  }

  // ---------------------------------------------------------------- end to end

  /** Boot through the record.  Among any other boot information the loader saves the page-rounded
      table of available RAM; the kernel finds the record's last table of that type, reads its entries
      and maps them.  The allocator invariant holds, and its free pages are exactly the whole pages of runs
      of available memory that start at or above 1 MB within the range it covers. */
  method BootFromRecord(bytes: array<Byte>, base: nat, t: seq<Entry>, before: seq<Request>, after: seq<Request>)
    returns (mem: PhysMem.Allocator)
    requires Boot.Usable64(t) && Boot.NothingCrosses(t) && OtherKinds(before) && OtherKinds(after) && base % 8 == 0
    requires base + 16 + RoomFor(before + [Request(TableTag(Table(t, true)), true)] + after) <= bytes.Length < WORD
    modifies bytes
    ensures mem.Valid()
    ensures forall p: nat :: p in mem.free <==> Boot.InitiallyFree(t, p)
  {
    hide Record, MultibootInfo.Valid, Rows, Table, TableTag, Boot.TableReady, Offset, Word, RoomFor, Saved, Boot.NothingCrosses;
    var saved := StoreInfo(t, true);
    var requests := before + [Request(TableTag(saved), true)] + after;
    TableTagOk(before, saved, after);
    AllTagsOk(before, Request(TableTag(saved), true), after);
    var ok := Build(bytes, base, requests);
    TableIsSaved(before, saved, after);
    var tags := Saved(requests);
    BodyIsLong(saved);
    var found, visited := FindRamTable(bytes, base, tags);
    CountsEntries(base, tags, saved);
    TableInWords(t);
    TableRowsAt(bytes[..], base, tags, saved);
    var table := ReadTable(bytes, found.value.0, found.value.1, saved);
    Boot.TableIsReady(t);
    mem := new PhysMem.Allocator();
    Boot.InitializeMaps(mem, table);
    forall p: nat
      ensures p in mem.free <==> Boot.InitiallyFree(t, p)
    {
      Boot.TakenPages(t, p);
    }
  }
}
