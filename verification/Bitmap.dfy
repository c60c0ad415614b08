/** Byte maps with one bit per buddy pair, and the sets of pairs they stand for. */
module Bitmap {
  import opened Buddy

  function Mask(b: nat): bv8
    requires b < 8
  {
    (1 as bv8) << b
  }

  predicate IsSet(bytes: seq<bv8>, n: nat)
    requires n / 8 < |bytes|
  {
    bytes[n / 8] & Mask(n % 8) > 0
  }

  function ToggleBit(bytes: seq<bv8>, n: nat): (r: seq<bv8>)
    requires n / 8 < |bytes|
    ensures |r| == |bytes|
  {
    bytes[n / 8 := bytes[n / 8] ^ Mask(n % 8)]
  }

  function SetBit(bytes: seq<bv8>, n: nat): (r: seq<bv8>)
    requires n / 8 < |bytes|
    ensures |r| == |bytes|
  {
    bytes[n / 8 := bytes[n / 8] | Mask(n % 8)]
  }

  /** The pairs whose bit is on. */
  ghost function Bits(bytes: seq<bv8>): set<nat> {
    set n: nat | n < 8 * |bytes| && IsSet(bytes, n)
  }

  lemma MaskBits(x: bv8, b: nat, c: nat)
    requires b < 8 && c < 8
    ensures (x ^ Mask(b)) & Mask(c) > 0 <==> (if b == c then !(x & Mask(c) > 0) else x & Mask(c) > 0)
    ensures (x | Mask(b)) & Mask(c) > 0 <==> b == c || x & Mask(c) > 0
  {
    MaskTable(b);
    MaskTable(c);
  }

  lemma MaskTable(b: nat)
    requires b < 8
    ensures Mask(b) == [1, 2, 4, 8, 16, 32, 64, 128][b]
  {
    assert b == 0 || b == 1 || b == 2 || b == 3 || b == 4 || b == 5 || b == 6 || b == 7;
  }

  /** Toggling a bit of the byte map toggles exactly that pair. */
  lemma ToggleBitIsToggle(bytes: seq<bv8>, n: nat)
    requires n / 8 < |bytes|
    ensures Bits(ToggleBit(bytes, n)) == Toggle(Bits(bytes), n)
  {
    forall m: nat | m < 8 * |bytes|
      ensures IsSet(ToggleBit(bytes, n), m) <==> (if m == n then !IsSet(bytes, m) else IsSet(bytes, m))
    {
      if m / 8 == n / 8 {
        MaskBits(bytes[n / 8], n % 8, m % 8);
      }
    }
  }

  lemma SetBitIsInsert(bytes: seq<bv8>, n: nat)
    requires n / 8 < |bytes|
    ensures Bits(SetBit(bytes, n)) == Bits(bytes) + {n}
  {
    forall m: nat | m < 8 * |bytes|
      ensures IsSet(SetBit(bytes, n), m) <==> m == n || IsSet(bytes, m)
    {
      if m / 8 == n / 8 {
        MaskBits(bytes[n / 8], n % 8, m % 8);
      }
    }
  }

  lemma ZeroBits(bytes: seq<bv8>)
    requires forall n: nat :: n < |bytes| ==> bytes[n] == 0
    ensures Bits(bytes) == {}
  {
    forall n: nat | n < 8 * |bytes|
      ensures !IsSet(bytes, n)
    {
      MaskTable(n % 8);
    }
  }
}
