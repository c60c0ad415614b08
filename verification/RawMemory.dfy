/** Memory as bytes: words, writes, and the loader's memmove and memset. */
module RawMemory {
  type Byte = b: nat | b < 256

  const WORD: nat := 0x1_0000_0000

  function Word(m: seq<Byte>, a: nat): nat
    requires a + 4 <= |m|
  {
    m[a] as nat + 0x100 * m[a + 1] as nat + 0x1_0000 * m[a + 2] as nat + 0x100_0000 * m[a + 3] as nat
  }

  /** A word's bytes; higher bits are lost. */
  function Bytes(v: nat): (r: seq<Byte>)
    ensures |r| == 4
  {
    [v % 0x100, v / 0x100 % 0x100, v / 0x1_0000 % 0x100, v / 0x100_0000 % 0x100]
  }

  /** Words are little endian. */
  lemma LittleEndian()
    ensures Bytes(0x1234_5678) == [0x78, 0x56, 0x34, 0x12] && Word([0x78, 0x56, 0x34, 0x12], 0) == 0x1234_5678
  {
  }

  lemma WordOfBytes(v: nat)
    ensures v < WORD ==> Word(Bytes(v), 0) == v
  {
    assert v / 0x1_0000 == v / 0x100 / 0x100 && v / 0x100_0000 == v / 0x1_0000 / 0x100;
  }

  function Put(m: seq<Byte>, a: nat, bytes: seq<Byte>): (r: seq<Byte>)
    requires a + |bytes| <= |m|
    ensures |r| == |m|
  {
    m[..a] + bytes + m[a + |bytes|..]
  }

  method StoreWord(mem: array<Byte>, a: nat, v: nat)
    requires a + 4 <= mem.Length
    modifies mem
    ensures mem[..] == Put(old(mem[..]), a, Bytes(v))
  {
    mem[a], mem[a + 1] := v % 0x100, v / 0x100 % 0x100;
    mem[a + 2], mem[a + 3] := v / 0x1_0000 % 0x100, v / 0x100_0000 % 0x100;
  }

  /** A cut of a cut. */
  lemma Cut(m: seq<Byte>, a: nat, b: nat, i: nat, j: nat)
    requires a <= b <= |m| && i <= j <= b - a
    ensures m[a..b][i..j] == m[a + i..a + j]
  {
    forall k | 0 <= k < j - i
      ensures m[a..b][i..j][k] == m[a + i..a + j][k]
    {
    }
  }

  /** The word at a is v when its bytes lie there. */
  lemma WordAt(m: seq<Byte>, a: nat, v: nat)
    requires a + 4 <= |m| && v < WORD && m[a..a + 4] == Bytes(v)
    ensures Word(m, a) == v
  {
    WordOfBytes(v);
    var w := m[a..a + 4];
    assert w[0] == m[a] && w[1] == m[a + 1] && w[2] == m[a + 2] && w[3] == m[a + 3];
  }

  lemma PutByte(m: seq<Byte>, a: nat, bytes: seq<Byte>, x: nat)
    requires a + |bytes| <= |m| && x < |m|
    ensures Put(m, a, bytes)[x] == if a <= x < a + |bytes| then bytes[x - a] else m[x]
  {
  }

  lemma PutCut(m: seq<Byte>, a: nat, bytes: seq<Byte>, x: nat, y: nat)
    requires a + |bytes| <= |m| && x <= y <= |m|
    ensures y <= a || a + |bytes| <= x ==> Put(m, a, bytes)[x..y] == m[x..y]
    ensures x == a && y == a + |bytes| ==> Put(m, a, bytes)[x..y] == bytes
  {
    hide Put;
    var n := Put(m, a, bytes);
    forall k: nat | x <= k < y
      ensures n[k] == if a <= k < a + |bytes| then bytes[k - a] else m[k]
    {
      PutByte(m, a, bytes, k);
    }
    forall k: nat | k < y - x && (y <= a || a + |bytes| <= x)
      ensures n[x..y][k] == m[x..y][k]
    {
      assert n[x..y][k] == n[x + k] && m[x..y][k] == m[x + k];
    }
    forall k: nat | k < y - x && x == a && y == a + |bytes|
      ensures n[x..y][k] == bytes[k]
    {
      assert n[x..y][k] == n[x + k];
    }
  }

  lemma WordKept(m: seq<Byte>, a: nat, bytes: seq<Byte>, x: nat)
    requires a + |bytes| <= |m| && x + 4 <= a
    ensures Word(Put(m, a, bytes), x) == Word(m, x)
  {
  }

  lemma PutMore(m: seq<Byte>, a: nat, bytes: seq<Byte>, b: Byte)
    requires a + |bytes| < |m|
    ensures Put(m, a, bytes)[a + |bytes| := b] == Put(m, a, bytes + [b])
  {
  }

  lemma PutNext(m: seq<Byte>, a: nat, x: seq<Byte>, y: seq<Byte>)
    requires a + |x| + |y| <= |m|
    ensures Put(Put(m, a, x), a + |x|, y) == Put(m, a, x + y)
  {
  }

  /** The two memories agree outside a range. */
  ghost predicate SameOutside(m: seq<Byte>, n: seq<Byte>, from: nat, to: nat) {
    |m| == |n| && forall x :: 0 <= x < |m| && !(from <= x < to) ==> n[x] == m[x]
  }

  lemma PutOutside(m: seq<Byte>, n: seq<Byte>, a: nat, bytes: seq<Byte>, from: nat, to: nat)
    requires from <= a && a + |bytes| <= to && a + |bytes| <= |n| && SameOutside(m, n, from, to)
    ensures SameOutside(m, Put(n, a, bytes), from, to)
  {
  }

  lemma SameAsItself(m: seq<Byte>, from: nat, to: nat)
    ensures SameOutside(m, m, from, to)
  {
  }

  lemma Widen(m: seq<Byte>, n: seq<Byte>, k: seq<Byte>, from: nat, to: nat, to': nat, last: nat)
    requires SameOutside(m, n, from, to) && SameOutside(n, k, from, to') && to <= last && to' <= last
    ensures SameOutside(m, k, from, last)
  {
  }

  // ---------------------------------------------------------------- moving and clearing

  function Zeros(n: nat): (r: seq<Byte>)
    ensures |r| == n && forall i :: 0 <= i < n ==> r[i] == 0
  {
    seq(n, _ => 0)
  }

  /** memmove: the destination ends up with the bytes the source held before, however the two overlap. */
  method Move(mem: array<Byte>, dst: nat, src: nat, size: nat)
    requires dst + size <= mem.Length && src + size <= mem.Length
    modifies mem
    ensures mem[..] == Put(old(mem[..]), dst, old(mem[src..src + size]))
  {
    hide Put;
    ghost var was := mem[..];
    PutNothing(was, dst);
    PutNothing(was, dst + size);
    assert was[src..src + 0] == [] && was[src + size..src + size] == [];
    if dst < src {
      for i := 0 to size
        invariant mem[..] == Put(was, dst, was[src..src + i])
      {
        FrontStep(was, dst, src, i);
        mem[dst + i] := mem[src + i];
      }
    } else {
      for i := size downto 0
        invariant mem[..] == Put(was, dst + i, was[src + i..src + size])
      {
        BackStep(was, dst, src, size, i);
        mem[dst + i] := mem[src + i];
      }
    }
  }

  lemma PutNothing(m: seq<Byte>, a: nat)
    requires a <= |m|
    ensures Put(m, a, []) == m
  {
  }

  /** Moving down in memory from the front, a byte is read before it is overwritten. */
  lemma FrontStep(m: seq<Byte>, dst: nat, src: nat, i: nat)
    requires dst < src && src + i < |m|
    ensures var n := Put(m, dst, m[src..src + i]);
      n[src + i] == m[src + i] && n[dst + i := m[src + i]] == Put(m, dst, m[src..src + (i + 1)])
  {
    PutMore(m, dst, m[src..src + i], m[src + i]);
    assert m[src..src + i] + [m[src + i]] == m[src..src + (i + 1)];
  }

  /** Moving up in memory from the back, likewise. */
  lemma BackStep(m: seq<Byte>, dst: nat, src: nat, size: nat, i: nat)
    requires src <= dst && i < size && dst + size <= |m|
    ensures var n := Put(m, dst + (i + 1), m[src + (i + 1)..src + size]);
      n[src + i] == m[src + i] && n[dst + i := m[src + i]] == Put(m, dst + i, m[src + i..src + size])
  {
    PutMoreInFront(m, dst + i, m[src + (i + 1)..src + size], m[src + i]);
    assert [m[src + i]] + m[src + (i + 1)..src + size] == m[src + i..src + size];
  }

  lemma PutMoreInFront(m: seq<Byte>, a: nat, bytes: seq<Byte>, b: Byte)
    requires a + 1 + |bytes| <= |m|
    ensures Put(m, a + 1, bytes)[a := b] == Put(m, a, [b] + bytes)
  {
  }

  /** memset writes the low byte of its argument. */
  method Set(mem: array<Byte>, at: nat, c: int, n: nat)
    requires at + n <= mem.Length
    modifies mem
    ensures mem[..] == Put(old(mem[..]), at, seq(n, _ => c % 256))
  {
    ghost var was := mem[..];
    var i := 0;
    assert Put(was, at, []) == was;
    while i < n
      invariant i <= n
      invariant mem[..] == Put(was, at, seq(i, _ => c % 256))
    {
      PutMore(was, at, seq(i, _ => c % 256), c % 256);
      assert seq(i, _ => c % 256) + [c % 256] == seq(i + 1, _ => c % 256);
      mem[at + i] := c % 256;
      i := i + 1;
    }
  }
}
