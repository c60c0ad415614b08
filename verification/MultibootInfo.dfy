/** The Multiboot2 information record in raw memory, built by the loader and walked by the kernel
    (section 3.6 of the Multiboot2 specification). */
module MultibootInfo {
  import opened Options
  import opened RawMemory

  const NULL_PTR: nat := 0xFFFF_FFFF
  const RAM_INFO_PAGE_ALIGNED: nat := 99

  /** A saved tag: its type and what follows its eight-byte header. */
  datatype Tag = Tag(kind: nat, body: seq<Byte>) {
    function Size(): nat {
      8 + |body|
    }
  }

  // ---------------------------------------------------------------- the record

  function Encode(t: Tag): (r: seq<Byte>)
    ensures |r| == t.Size()
  {
    Bytes(t.kind) + Bytes(t.Size()) + t.body
  }

  function Body(tags: seq<Tag>): seq<Byte> {
    if tags == [] then [] else Body(tags[..|tags| - 1]) + Encode(tags[|tags| - 1])
  }

  function End(): (r: seq<Byte>)
    ensures |r| == 8
  {
    Bytes(0) + Bytes(8)
  }

  function Image(tags: seq<Tag>): (r: seq<Byte>)
    ensures |r| == 16 + |Body(tags)|
  {
    Bytes(16 + |Body(tags)|) + Bytes(0) + Body(tags) + End()
  }

  predicate TagOk(t: Tag) {
    0 < t.kind < WORD && t.Size() < WORD && t.Size() % 8 == 0
  }

  /** The record of the given tags lies at base. */
  ghost predicate Record(m: seq<Byte>, base: nat, tags: seq<Tag>) {
    && base % 8 == 0 && base + 16 + |Body(tags)| <= |m| < WORD
    && m[base..base + 16 + |Body(tags)|] == Image(tags)
    && forall i :: 0 <= i < |tags| ==> TagOk(tags[i])
  }

  /** Where tag i starts, and after the last tag the terminator. */
  function Offset(base: nat, tags: seq<Tag>, i: nat): nat
    requires i <= |tags|
  {
    base + 8 + |Body(tags[..i])|
  }

  lemma OffsetNext(base: nat, tags: seq<Tag>, i: nat)
    requires i < |tags|
    ensures Offset(base, tags, i + 1) == Offset(base, tags, i) + tags[i].Size()
  {
    assert tags[..i + 1][..i] == tags[..i];
  }

  lemma OffsetLast(base: nat, tags: seq<Tag>)
    ensures Offset(base, tags, |tags|) == base + 8 + |Body(tags)|
  {
    assert tags[..|tags|] == tags;
  }

  lemma {:induction false} BodyPrefix(tags: seq<Tag>, i: nat)
    requires i <= |tags|
    ensures |Body(tags[..i])| <= |Body(tags)| && Body(tags)[..|Body(tags[..i])|] == Body(tags[..i])
    decreases |tags|
  {
    if i < |tags| {
      var front := tags[..|tags| - 1];
      assert front[..i] == tags[..i];
      BodyPrefix(front, i);
    } else {
      assert tags[..i] == tags;
    }
  }

  lemma {:induction false} BodyAligned(tags: seq<Tag>)
    requires forall i :: 0 <= i < |tags| ==> TagOk(tags[i])
    ensures |Body(tags)| % 8 == 0
    decreases |tags|
  {
    if tags != [] {
      BodyAligned(tags[..|tags| - 1]);
      SumAligned(|Body(tags[..|tags| - 1])|, tags[|tags| - 1].Size());
    }
  }

  lemma SumAligned(a: nat, b: nat)
    requires a % 8 == 0 && b % 8 == 0
    ensures (a + b) % 8 == 0
  {
  }

  lemma ImageBody(tags: seq<Tag>)
    ensures Image(tags)[..4] == Bytes(16 + |Body(tags)|) && Image(tags)[4..8] == Bytes(0)
    ensures Image(tags)[8..8 + |Body(tags)|] == Body(tags)
    ensures Image(tags)[8 + |Body(tags)|..12 + |Body(tags)|] == Bytes(0)
    ensures Image(tags)[12 + |Body(tags)|..16 + |Body(tags)|] == Bytes(8)
  {
    hide Bytes, Body;
  }

  lemma EncodeParts(t: Tag)
    ensures Encode(t)[..4] == Bytes(t.kind) && Encode(t)[4..8] == Bytes(t.Size()) && Encode(t)[8..] == t.body
  {
    hide Bytes;
  }

  /** Memory at a tag's place holds the tag. */
  lemma TagAt(m: seq<Byte>, base: nat, tags: seq<Tag>, i: nat)
    requires Record(m, base, tags) && i < |tags|
    ensures var a := Offset(base, tags, i);
      && a + tags[i].Size() + 8 <= base + 16 + |Body(tags)|
      && m[a..a + tags[i].Size()] == Encode(tags[i])
      && Word(m, a) == tags[i].kind && Word(m, a + 4) == tags[i].Size()
      && m[a + 8..a + tags[i].Size()] == tags[i].body
  {
    hide Bytes, Encode, Image, Word, Body;
    BodyPiece(tags, i);
    var n, k, b := |Body(tags[..i])|, tags[i].Size(), |Body(tags)|;
    ImageBody(tags);
    Cut(m, base, base + 16 + b, 8, 8 + b);
    Cut(m, base + 8, base + 8 + b, n, n + k);
    EncodeAt(m, base + 8 + n, tags[i]);
  }

  /** A tag's place in the body. */
  lemma BodyPiece(tags: seq<Tag>, i: nat)
    requires i < |tags|
    ensures var n, k := |Body(tags[..i])|, tags[i].Size(); n + k <= |Body(tags)| && Body(tags)[n..n + k] == Encode(tags[i])
  {
    hide Encode;
    var n, k := |Body(tags[..i])|, tags[i].Size();
    BodyPrefix(tags, i + 1);
    assert tags[..i + 1][..i] == tags[..i];
    Cut(Body(tags), 0, n + k, n, n + k);
    assert Body(tags[..i + 1])[n..n + k] == Encode(tags[i]);
  }

  lemma EncodeAt(m: seq<Byte>, a: nat, t: Tag)
    requires a + t.Size() <= |m| && m[a..a + t.Size()] == Encode(t) && t.kind < WORD && t.Size() < WORD
    ensures Word(m, a) == t.kind && Word(m, a + 4) == t.Size() && m[a + 8..a + t.Size()] == t.body
  {
    hide Bytes, Encode, Word;
    EncodeParts(t);
    Cut(m, a, a + t.Size(), 0, 4);
    Cut(m, a, a + t.Size(), 4, 8);
    Cut(m, a, a + t.Size(), 8, t.Size());
    WordAt(m, a, t.kind);
    WordAt(m, a + 4, t.Size());
  }

  /** The record's own header, and its terminator. */
  lemma HeaderAt(m: seq<Byte>, base: nat, tags: seq<Tag>)
    requires Record(m, base, tags)
    ensures Word(m, base) == 16 + |Body(tags)| && Word(m, base + 4) == 0 && |Body(tags)| % 8 == 0
    ensures var e := Offset(base, tags, |tags|); e + 8 == base + 16 + |Body(tags)| && Word(m, e) == 0 && Word(m, e + 4) == 8
  {
    hide Bytes, Image, Word, Body;
    var n := |Body(tags)|;
    OffsetLast(base, tags);
    BodyAligned(tags);
    ImageBody(tags);
    Cut(m, base, base + 16 + n, 0, 4);
    Cut(m, base, base + 16 + n, 4, 8);
    Cut(m, base, base + 16 + n, 8 + n, 12 + n);
    Cut(m, base, base + 16 + n, 12 + n, 16 + n);
    WordAt(m, base, 16 + n);
    WordAt(m, base + 4, 0);
    WordAt(m, base + 8 + n, 0);
    WordAt(m, base + 12 + n, 8);
  }

  // ---------------------------------------------------------------- checking and finding

  /** Multiboot_CheckForValidMBI */
  predicate Valid(m: seq<Byte>, base: nat) {
    && base + 16 <= |m| && base % 8 == 0 && Word(m, base + 4) == 0 && Word(m, base) >= 16 && Word(m, base) % 8 == 0
    && base + Word(m, base) <= |m| && Word(m, base + Word(m, base) - 8) == 0 && Word(m, base + Word(m, base) - 4) == 8
  }

  lemma RecordIsValid(m: seq<Byte>, base: nat, tags: seq<Tag>)
    requires Record(m, base, tags)
    ensures Valid(m, base)
  {
    hide Record, Word, Bytes, Image, Body;
    RecordFits(m, base, tags);
    HeaderAt(m, base, tags);
  }

  /** The first tag of a type, or the terminator. */
  function FirstOf(tags: seq<Tag>, kind: nat): (i: nat)
    ensures i <= |tags| && (i < |tags| ==> tags[i].kind == kind) && forall j :: 0 <= j < i ==> tags[j].kind != kind
  {
    if tags == [] || tags[0].kind == kind then 0 else 1 + FirstOf(tags[1..], kind)
  }

  lemma FirstOfUnique(tags: seq<Tag>, kind: nat, i: nat)
    requires i <= |tags| && (i < |tags| ==> tags[i].kind == kind) && forall j :: 0 <= j < i ==> tags[j].kind != kind
    ensures FirstOf(tags, kind) == i
  {
  }

  /** Multiboot_FindMBITagAddress: the loop stops on a record, and finds the first tag of the type or
      else the terminator. */
  method FindTag(mem: array<Byte>, base: nat, kind: nat, ghost tags: seq<Tag>) returns (r: nat)
    requires Valid(mem[..], base) ==> Record(mem[..], base, tags)
    ensures r == if Valid(mem[..], base) then Offset(base, tags, FirstOf(tags, kind)) else 0xFFFF_FFFF
  {
    hide Record, Valid, Offset;
    var valid := CheckForValid(mem, base);
    if !valid {
      return NULL_PTR;
    }
    HeaderAt(mem[..], base, tags);
    RecordFits(mem[..], base, tags);
    OffsetFirst(base, tags);
    var total := Word(mem[..], base);
    var tag, ret := base + 8, base + 8;
    ghost var i := 0;
    while Word(mem[..], tag) != 0 && tag < base + total
      invariant i <= |tags| && tag == Offset(base, tags, i) && tag + 8 <= base + total
      invariant forall j :: 0 <= j < i ==> tags[j].kind != kind
      invariant ret == base + 8
      decreases |tags| - i
    {
      assert i < |tags|;
      TagAt(mem[..], base, tags, i);
      if Word(mem[..], tag) == kind {
        ret := tag;
        break;
      }
      OffsetNext(base, tags, i);
      tag := Word(mem[..], tag + 4) + tag;
      i := i + 1;
    }
    if i < |tags| {
      TagAt(mem[..], base, tags, i);
    }
    FirstOfUnique(tags, kind, i);
    if Word(mem[..], ret) == kind {
      if |tags| > 0 {
        TagAt(mem[..], base, tags, 0);
      }
      return ret;
    }
    ret := total + base - 8;
    if Word(mem[..], ret) != 0 || Word(mem[..], ret + 4) != 8 {
      return NULL_PTR;
    }
    return ret;
  }

  method CheckForValid(mem: array<Byte>, base: nat) returns (ok: bool)
    ensures ok == Valid(mem[..], base)
  {
    if base + 16 > mem.Length || base % 8 != 0 || Word(mem[..], base + 4) != 0 || Word(mem[..], base) < 16 || Word(mem[..], base) % 8 != 0 {
      return false;
    }
    var term := Word(mem[..], base) + base - 8;
    return term + 8 <= mem.Length && Word(mem[..], term) == 0 && Word(mem[..], term + 4) == 8;
  }

  lemma RecordFits(m: seq<Byte>, base: nat, tags: seq<Tag>)
    requires Record(m, base, tags)
    ensures base % 8 == 0 && base + 16 + |Body(tags)| <= |m| < WORD && forall i :: 0 <= i < |tags| ==> TagOk(tags[i])
  {
  }

  lemma OffsetFirst(base: nat, tags: seq<Tag>)
    ensures Offset(base, tags, 0) == base + 8
  {
  }

  // ---------------------------------------------------------------- saving

  /** Multiboot_TerminateTag: a terminator is left alone, a tag of size zero becomes the terminator
      again, and any other tag is followed by a new one and counted in the total. */
  method TerminateTag(mem: array<Byte>, base: nat, tag: nat) returns (ok: bool)
    requires base + 8 <= tag && tag + 8 <= mem.Length && tag + Word(mem[..], tag + 4) + 8 <= mem.Length
    modifies mem
    ensures ok == old(base % 8 == 0 && Word(mem[..], base + 4) == 0 && Word(mem[..], base) % 8 == 0)
    ensures var m, size := old(mem[..]), old(Word(mem[..], tag + 4));
      mem[..] ==
        if !ok || (Word(m, tag) == 0 && size == 8) then m
        else if size == 0 then Put(m, tag, End())
        else Put(Put(m, tag + size, End()), base, Bytes(Word(m, base) + size))
  {
    hide Put, Bytes, End, Word;
    if base % 8 != 0 || Word(mem[..], base + 4) != 0 || Word(mem[..], base) % 8 != 0 {
      return false;
    }
    var size := Word(mem[..], tag + 4);
    var term := size + tag;
    if Word(mem[..], tag) == 0 && size == 8 {
      return true;
    }
    if size == 0 {
      StoreEnd(mem, term);
    } else {
      ghost var was := mem[..];
      StoreEnd(mem, term);
      WordKept(was, term, End(), base);
      StoreWord(mem, base, Word(mem[..], base) + size);
    }
    return true;
  }

  method StoreEnd(mem: array<Byte>, a: nat)
    requires a + 8 <= mem.Length
    modifies mem
    ensures mem[..] == Put(old(mem[..]), a, End())
  {
    StoreWord(mem, a, 0);
    StoreWord(mem, a + 4, 8);
  }

  /** A caller fills a tag in place of the terminator. */
  method Fill(mem: array<Byte>, at: nat, t: Tag)
    requires at + t.Size() <= mem.Length
    modifies mem
    ensures mem[..] == Put(old(mem[..]), at, Encode(t))
  {
    hide Bytes, Put, Encode;
    ghost var was := mem[..];
    StoreWord(mem, at, t.kind);
    StoreWord(mem, at + 4, t.Size());
    ghost var header := Bytes(t.kind) + Bytes(t.Size());
    PutNext(was, at, Bytes(t.kind), Bytes(t.Size()));
    EncodeIs(t);
    assert header + t.body[..0] == header;
    for i := 0 to |t.body|
      invariant mem[..] == Put(was, at, header + t.body[..i])
    {
      mem[at + 8 + i] := t.body[i];
      PutMore(was, at, header + t.body[..i], t.body[i]);
      assert header + t.body[..i + 1] == header + t.body[..i] + [t.body[i]];
    }
    assert t.body[..|t.body|] == t.body;
  }

  lemma EncodeIs(t: Tag)
    ensures Encode(t) == Bytes(t.kind) + Bytes(t.Size()) + t.body
  {
  }

  /** What the loader leaves behind after filling and terminating a tag. */
  function Appended(m: seq<Byte>, base: nat, e: nat, t: Tag, total: nat): (n: seq<Byte>)
    requires base + 8 <= e && e + t.Size() + 8 <= |m|
    ensures |n| == |m|
  {
    Put(Put(Put(m, e, Encode(t)), e + t.Size(), End()), base, Bytes(total))
  }

  lemma AppendTag(m: seq<Byte>, base: nat, tags: seq<Tag>, t: Tag)
    requires Record(m, base, tags) && TagOk(t) && base + 16 + |Body(tags)| + t.Size() <= |m|
    ensures var n := Appended(m, base, base + 8 + |Body(tags)|, t, 16 + |Body(tags)| + t.Size());
      Record(n, base, tags + [t]) && SameOutside(m, n, base, base + 16 + |Body(tags)| + t.Size())
  {
    hide Bytes, Encode, Image, End, Put, Body, SameOutside;
    var b, k := |Body(tags)|, t.Size();
    var e := base + 8 + b;
    var n := Appended(m, base, e, t, 16 + b + k);
    ImageBody(tags);
    Cut(m, base, base + 16 + b, 4, 8);
    Cut(m, base, base + 16 + b, 8, 8 + b);
    AppendedParts(m, base, e, t, 16 + b + k);
    BodyAppend(tags, t);
    ImageFromParts(n, base, tags + [t], e);
    assert SameOutside(m, m, base, base + 16 + b + k) by {
      SameAsItself(m, base, base + 16 + b + k);
    }
    PutOutside(m, m, e, Encode(t), base, base + 16 + b + k);
    PutOutside(m, Put(m, e, Encode(t)), e + k, End(), base, base + 16 + b + k);
    PutOutside(m, Put(Put(m, e, Encode(t)), e + k, End()), base, Bytes(16 + b + k), base, base + 16 + b + k);
  }

  lemma AppendedParts(m: seq<Byte>, base: nat, e: nat, t: Tag, total: nat)
    requires base + 8 <= e && e + t.Size() + 8 <= |m|
    ensures var n, k := Appended(m, base, e, t, total), t.Size();
      && n[base..base + 4] == Bytes(total) && n[base + 4..base + 8] == m[base + 4..base + 8]
      && n[base + 8..e] == m[base + 8..e] && n[e..e + k] == Encode(t) && n[e + k..e + k + 8] == End()
  {
    hide Bytes, Encode, End, Put;
    var k := t.Size();
    var m1 := Put(m, e, Encode(t));
    var m2 := Put(m1, e + k, End());
    PutCut(m2, base, Bytes(total), base, base + 4);
    PutCut(m, e, Encode(t), base + 4, base + 8);
    PutCut(m1, e + k, End(), base + 4, base + 8);
    PutCut(m2, base, Bytes(total), base + 4, base + 8);
    PutCut(m, e, Encode(t), base + 8, e);
    PutCut(m1, e + k, End(), base + 8, e);
    PutCut(m2, base, Bytes(total), base + 8, e);
    PutCut(m, e, Encode(t), e, e + k);
    PutCut(m1, e + k, End(), e, e + k);
    PutCut(m2, base, Bytes(total), e, e + k);
    PutCut(m1, e + k, End(), e + k, e + k + 8);
    PutCut(m2, base, Bytes(total), e + k, e + k + 8);
  }

  lemma Join(m: seq<Byte>, a: nat, b: nat, c: nat)
    requires a <= b <= c <= |m|
    ensures m[a..b] + m[b..c] == m[a..c]
  {
  }

  lemma BodyAppend(tags: seq<Tag>, t: Tag)
    ensures Body(tags + [t]) == Body(tags) + Encode(t)
  {
    assert (tags + [t])[..|tags|] == tags;
  }

  /** A record can be read off its parts, its body cut in two. */
  lemma ImageFromParts(m: seq<Byte>, base: nat, tags: seq<Tag>, e: nat)
    requires base % 8 == 0 && base + 16 + |Body(tags)| <= |m| < WORD && forall i :: 0 <= i < |tags| ==> TagOk(tags[i])
    requires var n := |Body(tags)|;
      && base + 8 <= e <= base + 8 + n
      && m[base..base + 4] == Bytes(16 + n) && m[base + 4..base + 8] == Bytes(0)
      && m[base + 8..e] + m[e..base + 8 + n] == Body(tags) && m[base + 8 + n..base + 16 + n] == End()
    ensures Record(m, base, tags)
  {
    hide Bytes, Body, End;
    var n := |Body(tags)|;
    Join(m, base + 8, e, base + 8 + n);
    Join(m, base, base + 4, base + 8);
    Join(m, base, base + 8, base + 8 + n);
    Join(m, base, base + 8 + n, base + 16 + n);
  }

  /** After an abandoned tag the terminator is back where it was. */
  lemma AbandonTag(m: seq<Byte>, base: nat, tags: seq<Tag>, t: Tag)
    requires Record(m, base, tags) && base + 16 + |Body(tags)| + t.Size() <= |m|
    ensures var e := base + 8 + |Body(tags)|;
      var n := Put(Put(Put(m, e, Encode(t)), e + 4, Bytes(0)), e, End());
      Record(n, base, tags) && SameOutside(m, n, base, base + 16 + |Body(tags)| + t.Size())
  {
    hide Bytes, Encode, Image, Body, End, Put, SameOutside;
    var b, k := |Body(tags)|, t.Size();
    var e := base + 8 + b;
    var m1 := Put(m, e, Encode(t));
    var m2 := Put(m1, e + 4, Bytes(0));
    var n := Put(m2, e, End());
    ImageBody(tags);
    Cut(m, base, base + 16 + b, 0, 4);
    Cut(m, base, base + 16 + b, 4, 8);
    Cut(m, base, base + 16 + b, 8, 8 + b);
    KeptBefore(m, m1, m2, n, e, Encode(t), Bytes(0), base, base + 4);
    KeptBefore(m, m1, m2, n, e, Encode(t), Bytes(0), base + 4, base + 8);
    KeptBefore(m, m1, m2, n, e, Encode(t), Bytes(0), base + 8, e);
    PutCut(m2, e, End(), e, e + 8);
    assert n[base + 8..e] + n[e..e] == n[base + 8..e];
    ImageFromParts(n, base, tags, e);
    SameAsItself(m, base, base + 16 + b + k);
    PutOutside(m, m, e, Encode(t), base, base + 16 + b + k);
    PutOutside(m, m1, e + 4, Bytes(0), base, base + 16 + b + k);
    PutOutside(m, m2, e, End(), base, base + 16 + b + k);
  }

  lemma KeptBefore(m: seq<Byte>, m1: seq<Byte>, m2: seq<Byte>, n: seq<Byte>, e: nat, x: seq<Byte>, y: seq<Byte>, from: nat, to: nat)
    requires e + |x| <= |m| && e + 4 + |y| <= |m| && e + 8 <= |m| && from <= to <= e
    requires m1 == Put(m, e, x) && m2 == Put(m1, e + 4, y) && n == Put(m2, e, End())
    ensures n[from..to] == m[from..to]
  {
    PutCut(m, e, x, from, to);
    PutCut(m1, e + 4, y, from, to);
    PutCut(m2, e, End(), from, to);
  }

  /** Multiboot_CreateEmptyMBI */
  method CreateEmpty(mem: array<Byte>, base: nat) returns (ok: bool)
    requires base + 16 <= mem.Length < WORD
    modifies mem
    ensures ok == (base % 8 == 0)
    ensures ok ==> Record(mem[..], base, []) && SameOutside(old(mem[..]), mem[..], base, base + 16)
    ensures !ok ==> mem[..] == old(mem[..])
  {
    if base % 8 != 0 {
      return false;
    }
    StoreWord(mem, base, 16);
    StoreWord(mem, base + 4, 0);
    StoreEnd(mem, base + 8);
    assert mem[base..base + 16] == Bytes(16) + Bytes(0) + Bytes(0) + Bytes(8);
    return true;
  }

  // ---------------------------------------------------------------- building a record

  /** One piece of boot information: the tag a caller fills, and whether it keeps it or abandons it. */
  datatype Request = Request(tag: Tag, keep: bool)

  /** A tag type is saved once; later requests for it, and abandoned ones, change nothing. */
  function After(tags: seq<Tag>, r: Request): seq<Tag> {
    if FirstOf(tags, r.tag.kind) < |tags| || !r.keep then tags else tags + [r.tag]
  }

  function Saved(requests: seq<Request>): seq<Tag> {
    if requests == [] then [] else After(Saved(requests[..|requests| - 1]), requests[|requests| - 1])
  }

  function RoomFor(requests: seq<Request>): nat {
    if requests == [] then 0 else RoomFor(requests[..|requests| - 1]) + requests[|requests| - 1].tag.Size()
  }

  /** Find, fill, and terminate or abandon. */
  method Save(mem: array<Byte>, base: nat, r: Request, ghost tags: seq<Tag>) returns (ok: bool)
    requires Record(mem[..], base, tags) && TagOk(r.tag) && base + 16 + |Body(tags)| + r.tag.Size() <= mem.Length
    modifies mem
    ensures Record(mem[..], base, After(tags, r))
    ensures SameOutside(old(mem[..]), mem[..], base, base + 16 + |Body(tags)| + r.tag.Size())
    ensures ok <==> FirstOf(tags, r.tag.kind) == |tags|
  {
    hide Record, Bytes, Encode, Put, Word, Body, End, Valid, SameOutside;
    ghost var was := mem[..];
    RecordIsValid(was, base, tags);
    RecordFits(was, base, tags);
    HeaderAt(was, base, tags);
    var at := FindTag(mem, base, r.tag.kind, tags);
    ghost var i := FirstOf(tags, r.tag.kind);
    if i < |tags| {
      TagAt(was, base, tags, i);
    }
    if Word(mem[..], at) != 0 {
      SameAsItself(was, base, base + 16 + |Body(tags)| + r.tag.Size());
      return false;
    }
    OffsetLast(base, tags);
    Fill(mem, at, r.tag);
    FilledWords(was, base, at, r.tag);
    if !r.keep {
      StoreWord(mem, at + 4, 0);
      AbandonedWords(was, base, at, r.tag);
    }
    ok := TerminateTag(mem, base, at);
    if r.keep {
      AppendTag(was, base, tags, r.tag);
    } else {
      AbandonTag(was, base, tags, r.tag);
    }
  }

  lemma FilledWords(m: seq<Byte>, base: nat, e: nat, t: Tag)
    requires base + 8 <= e && e + t.Size() <= |m| && t.kind < WORD && t.Size() < WORD
    ensures var n := Put(m, e, Encode(t));
      Word(n, base) == Word(m, base) && Word(n, base + 4) == Word(m, base + 4) && Word(n, e) == t.kind && Word(n, e + 4) == t.Size()
  {
    hide Bytes, Encode, Word, Put;
    WordKept(m, e, Encode(t), base);
    WordKept(m, e, Encode(t), base + 4);
    PutCut(m, e, Encode(t), e, e + t.Size());
    EncodeAt(Put(m, e, Encode(t)), e, t);
  }

  lemma AbandonedWords(m: seq<Byte>, base: nat, e: nat, t: Tag)
    requires base + 8 <= e && e + t.Size() <= |m| && t.kind < WORD && t.Size() < WORD
    ensures var n := Put(Put(m, e, Encode(t)), e + 4, Bytes(0));
      Word(n, base) == Word(m, base) && Word(n, base + 4) == Word(m, base + 4) && Word(n, e) == t.kind && Word(n, e + 4) == 0
  {
    hide Bytes, Encode, Word, Put;
    var m1 := Put(m, e, Encode(t));
    FilledWords(m, base, e, t);
    WordKept(m1, e + 4, Bytes(0), base);
    WordKept(m1, e + 4, Bytes(0), base + 4);
    WordKept(m1, e + 4, Bytes(0), e);
    PutCut(m1, e + 4, Bytes(0), e + 4, e + 8);
    WordAt(Put(m1, e + 4, Bytes(0)), e + 4, 0);
  }

  /** Any sequence of requests, after an empty record, leaves the record of exactly the saved tags, and
      touches no other memory than they need. */
  method Build(mem: array<Byte>, base: nat, requests: seq<Request>) returns (ok: bool)
    requires base + 16 + RoomFor(requests) <= mem.Length < WORD && forall i :: 0 <= i < |requests| ==> TagOk(requests[i].tag)
    modifies mem
    ensures ok == (base % 8 == 0)
    ensures ok ==> Record(mem[..], base, Saved(requests)) && Valid(mem[..], base)
    ensures ok ==> SameOutside(old(mem[..]), mem[..], base, base + 16 + RoomFor(requests))
  {
    hide Record, Valid, Body, After, SameOutside;
    ghost var was := mem[..];
    ok := CreateEmpty(mem, base);
    if !ok {
      return;
    }
    SavedFits([]);
    assert requests[..0] == [];
    for n := 0 to |requests|
      invariant Record(mem[..], base, Saved(requests[..n])) && RoomFor(requests[..n]) <= RoomFor(requests)
      invariant SameOutside(was, mem[..], base, base + 16 + RoomFor(requests[..n]))
    {
      ghost var saved, before := Saved(requests[..n]), mem[..];
      SavedFits(requests[..n]);
      assert requests[..n + 1][..n] == requests[..n];
      RoomGrows(requests, n + 1);
      var added := Save(mem, base, requests[n], saved);
      Widen(was, before, mem[..], base, base + 16 + RoomFor(requests[..n]), base + 16 + |Body(saved)| + requests[n].tag.Size(),
            base + 16 + RoomFor(requests[..n + 1]));
    }
    assert requests[..|requests|] == requests;
    RecordIsValid(mem[..], base, Saved(requests));
  }

  lemma {:induction false} SavedFits(requests: seq<Request>)
    ensures |Body(Saved(requests))| <= RoomFor(requests)
    decreases |requests|
  {
    if requests != [] {
      var front := requests[..|requests| - 1];
      SavedFits(front);
      BodyAppend(Saved(front), requests[|requests| - 1].tag);
    }
  }

  lemma {:induction false} RoomGrows(requests: seq<Request>, n: nat)
    requires n <= |requests|
    ensures RoomFor(requests[..n]) <= RoomFor(requests)
    decreases |requests|
  {
    if n < |requests| {
      var front := requests[..|requests| - 1];
      assert front[..n] == requests[..n];
      RoomGrows(front, n);
    } else {
      assert requests[..n] == requests;
    }
  }

  /** The first kept request for a type, or the number of requests. */
  function FirstKept(requests: seq<Request>, kind: nat): (i: nat)
    ensures i <= |requests| && (i < |requests| ==> requests[i].keep && requests[i].tag.kind == kind)
    ensures forall j :: 0 <= j < i ==> !(requests[j].keep && requests[j].tag.kind == kind)
  {
    if requests == [] || (requests[0].keep && requests[0].tag.kind == kind) then 0 else 1 + FirstKept(requests[1..], kind)
  }

  lemma FirstKeptUnique(requests: seq<Request>, kind: nat, i: nat)
    requires i <= |requests| && (i < |requests| ==> requests[i].keep && requests[i].tag.kind == kind)
    requires forall j :: 0 <= j < i ==> !(requests[j].keep && requests[j].tag.kind == kind)
    ensures FirstKept(requests, kind) == i
  {
  }

  lemma FirstKeptAppend(front: seq<Request>, r: Request, kind: nat)
    ensures FirstKept(front + [r], kind) ==
      if FirstKept(front, kind) < |front| then FirstKept(front, kind) else if r.keep && r.tag.kind == kind then |front| else |front| + 1
  {
    var i := FirstKept(front, kind);
    FirstKeptUnique(front + [r], kind, if i < |front| then i else if r.keep && r.tag.kind == kind then |front| else |front| + 1);
  }

  /** The tag saved under a type is that of the first request for the type that was kept. */
  lemma {:induction false} SavedIsFirstKept(requests: seq<Request>, kind: nat)
    ensures var tags, i, k := Saved(requests), FirstOf(Saved(requests), kind), FirstKept(requests, kind);
      (i < |tags| <==> k < |requests|) && (i < |tags| ==> tags[i] == requests[k].tag)
    decreases |requests|
  {
    hide FirstOf, FirstKept;
    if requests != [] {
      var front, r := requests[..|requests| - 1], requests[|requests| - 1];
      assert requests == front + [r];
      SavedIsFirstKept(front, kind);
      FirstKeptAppend(front, r, kind);
      FirstOfAppend(Saved(front), r.tag, kind);
    }
  }

  lemma FirstOfAppend(tags: seq<Tag>, t: Tag, kind: nat)
    ensures FirstOf(tags + [t], kind) ==
      if FirstOf(tags, kind) < |tags| then FirstOf(tags, kind) else if t.kind == kind then |tags| else |tags| + 1
  {
    var i := FirstOf(tags, kind);
    FirstOfUnique(tags + [t], kind, if i < |tags| then i else if t.kind == kind then |tags| else |tags| + 1);
  }

  lemma RecordParts(m: seq<Byte>, base: nat, tags: seq<Tag>)
    requires Record(m, base, tags)
    ensures base + 16 <= |m| && m[base + 4..base + 8] == Bytes(0)
  {
    hide Bytes, Body, Image;
    ImageBody(tags);
    Cut(m, base, base + 16 + |Body(tags)|, 4, 8);
  }

  /** The record stays valid exactly when the size of the saved tag is a multiple of eight; the
      terminator and the reserved word are right in any case. */
  lemma ValidIffMultipleOfEight(m: seq<Byte>, base: nat, tags: seq<Tag>, t: Tag)
    requires Record(m, base, tags) && base + 16 + |Body(tags)| + t.Size() <= |m|
    ensures Valid(Appended(m, base, base + 8 + |Body(tags)|, t, 16 + |Body(tags)| + t.Size()), base) <==> t.Size() % 8 == 0
  {
    hide Record, Bytes, Encode, Put, Word, Body, Appended, Image;
    RecordParts(m, base, tags);
    var b, k := |Body(tags)|, t.Size();
    var e, total := base + 8 + b, 16 + b + k;
    var n := Appended(m, base, e, t, total);
    RecordFits(m, base, tags);
    HeaderAt(m, base, tags);
    AppendedParts(m, base, e, t, total);
    WordAt(n, base, total);
    WordAt(n, base + 4, 0);
    Cut(n, e + k, e + k + 8, 0, 4);
    Cut(n, e + k, e + k + 8, 4, 8);
    WordAt(n, e + k, 0);
    WordAt(n, e + k + 4, 8);
  }

  // ---------------------------------------------------------------- the kernel's walk

  /** The last tag of a type, or the number of tags. */
  function LastOf(tags: seq<Tag>, kind: nat): (i: nat)
    ensures i <= |tags| && (i < |tags| ==> tags[i].kind == kind)
    ensures forall j :: 0 <= j < |tags| && (i < j || i == |tags|) ==> tags[j].kind != kind
    decreases |tags|
  {
    if tags == [] then 0
    else if tags[|tags| - 1].kind == kind then |tags| - 1
    else var i := LastOf(tags[..|tags| - 1], kind); if i == |tags| - 1 then |tags| else i
  }

  /** Where the kernel finds the page-aligned RAM table and how many entries it counts. */
  function RamTable(base: nat, tags: seq<Tag>): Option<(nat, nat)> {
    var i := LastOf(tags, RAM_INFO_PAGE_ALIGNED);
    if i == |tags| || |tags[i].body| < 8 then None
    else Some((Offset(base, tags, i) + 16, Entries(Word(tags[i].body, 0), tags[i].Size())))
  }

  function Entries(entrySize: nat, size: nat): nat
    requires size >= 16
  {
    if entrySize == 0 then 0 else (size - 16) / entrySize
  }

  /** Tag i is of type 99, and none behind it is. */
  predicate LastTable(tags: seq<Tag>, i: nat)
    requires i < |tags|
  {
    tags[i].kind == 99 && |tags[i].body| >= 8 && forall j :: i < j < |tags| ==> tags[j].kind != 99
  }

  /** How many entries of the size it states follow the sixteen bytes of the tag's headers. */
  function EntriesOf(t: Tag): nat
    requires |t.body| >= 8
  {
    var entrySize := Word(t.body, 0);
    if entrySize == 0 then 0 else (|t.body| - 8) / entrySize
  }

  lemma RamTableIsLast(base: nat, tags: seq<Tag>)
    requires forall i :: 0 <= i < |tags| && tags[i].kind == RAM_INFO_PAGE_ALIGNED ==> |tags[i].body| >= 8
    ensures match RamTable(base, tags)
      case None => forall i :: 0 <= i < |tags| ==> tags[i].kind != 99
      case Some((at, n)) =>
        exists i: nat :: i < |tags| && LastTable(tags, i) && at == Offset(base, tags, i) + 16 && n == EntriesOf(tags[i])
  {
    hide Offset, Word;
    var i := LastOf(tags, RAM_INFO_PAGE_ALIGNED);
    assert i < |tags| ==> LastTable(tags, i);
  }

  lemma RoundedSize(size: nat)
    requires size % 8 == 0
    ensures (size + 7) / 8 * 8 == size
  {
  }

  /** The walk of Page_BuddyMaps_Initialize: it rounds sizes up to eight, visits exactly the saved tags
      in order, and settles on the last RAM table. */
  method FindRamTable(mem: array<Byte>, base: nat, ghost tags: seq<Tag>) returns (table: Option<(nat, nat)>, ghost visited: seq<Tag>)
    requires Record(mem[..], base, tags)
    requires forall i :: 0 <= i < |tags| && tags[i].kind == RAM_INFO_PAGE_ALIGNED ==> |tags[i].body| >= 8
    ensures visited == tags && table == RamTable(base, tags)
    ensures match table
      case None => forall i :: 0 <= i < |tags| ==> tags[i].kind != 99
      case Some((at, n)) =>
        exists i: nat :: i < |tags| && LastTable(tags, i) && at == Offset(base, tags, i) + 16 && n == EntriesOf(tags[i])
  {
    hide Record, Word, Offset, RamTable, Encode, Body, LastOf, Entries, TagOk, LastTable, EntriesOf;
    HeaderAt(mem[..], base, tags);
    RecordFits(mem[..], base, tags);
    OffsetFirst(base, tags);
    NoTable(base);
    table, visited := None, [];
    var tag := base + 8;
    while Word(mem[..], tag) != 0
      invariant |visited| <= |tags| && visited == tags[..|visited|] && tag == Offset(base, tags, |visited|)
      invariant tag + 8 <= mem.Length
      invariant table == RamTable(base, visited)
      decreases |tags| - |visited|
    {
      ghost var i := |visited|;
      TagAt(mem[..], base, tags, i);
      OffsetNext(base, tags, i);
      TagRounds(tags[i]);
      TableNext(base, tags, i);
      if Word(mem[..], tag) == RAM_INFO_PAGE_ALIGNED {
        BodyWord(mem[..], tag, tags[i]);
        table := Some((tag + 16, Entries(Word(mem[..], tag + 8), Word(mem[..], tag + 4))));
      }
      visited := visited + [tags[i]];
      tag := tag + (Word(mem[..], tag + 4) + 7) / 8 * 8;
      if i + 1 < |tags| {
        TagAt(mem[..], base, tags, i + 1);
      }
    }
    if |visited| < |tags| {
      TagAt(mem[..], base, tags, |visited|);
      TagRounds(tags[|visited|]);
    }
    assert tags[..|tags|] == tags;
    RamTableIsLast(base, tags);
  }

  lemma NoTable(base: nat)
    ensures RamTable(base, []) == None
  {
  }

  lemma TagRounds(t: Tag)
    requires TagOk(t)
    ensures (t.Size() + 7) / 8 * 8 == t.Size() && t.kind != 0
  {
    RoundedSize(t.Size());
  }

  lemma BodyWord(m: seq<Byte>, a: nat, t: Tag)
    requires a + t.Size() <= |m| && |t.body| >= 8 && m[a + 8..a + t.Size()] == t.body
    ensures Word(m, a + 8) == Word(t.body, 0)
  {
    assert forall k :: 0 <= k < 4 ==> t.body[k] == m[a + 8..a + t.Size()][k];
  }

  lemma TableNext(base: nat, tags: seq<Tag>, i: nat)
    requires i < |tags| && (tags[i].kind == RAM_INFO_PAGE_ALIGNED ==> |tags[i].body| >= 8)
    ensures RamTable(base, tags[..i + 1]) ==
      if tags[i].kind == RAM_INFO_PAGE_ALIGNED then Some((Offset(base, tags, i) + 16, Entries(Word(tags[i].body, 0), tags[i].Size())))
      else RamTable(base, tags[..i])
  {
    hide Word, Body;
    var more := tags[..i + 1];
    assert more[..i] == tags[..i];
    var j := LastOf(more, RAM_INFO_PAGE_ALIGNED);
    assert j <= i ==> more[..j] == tags[..j];
    assert j < i ==> tags[..i][..j] == tags[..j];
  }
}
