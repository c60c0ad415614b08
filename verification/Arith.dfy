/** Division by an arbitrary positive divisor, kept away from the modules that use it. */
module Arith {

  lemma AtLeastOnce(n: int, d: nat)
    requires n >= 1 && d >= 1
    ensures n * d >= d
  {
  }

  lemma DivUnique(x: int, d: nat, q: int, r: int)
    requires d >= 1 && x == q * d + r && 0 <= r < d
    ensures x / d == q && x % d == r
  {
    var q', r' := x / d, x % d;
    assert x == q' * d + r';
    if q > q' {
      AtLeastOnce(q - q', d);
    } else if q < q' {
      AtLeastOnce(q' - q, d);
    }
  }

  lemma DivHalves(x: nat, d: nat)
    requires d >= 1
    ensures x / (2 * d) == (x / d) / 2
    ensures x % (2 * d) == x % d + if (x / d) % 2 == 0 then 0 else d
  {
    var q, r := x / d, x % d;
    assert x == q * d + r;
    var h, e := q / 2, q % 2;
    assert q * d == (2 * h + e) * d == h * (2 * d) + e * d;
    assert e * d == if e == 0 then 0 else d;
    DivUnique(x, 2 * d, h, e * d + r);
  }

  lemma MultipleDiv(q: nat, d: nat)
    requires d >= 1
    ensures q * d / d == q && q * d % d == 0
  {
    DivUnique(q * d, d, q, 0);
  }

  lemma Monotone(a: int, b: int, d: nat)
    ensures a <= b ==> a * d <= b * d
  {
  }

  lemma NextMultiple(q: int, d: nat)
    ensures (q + 1) * d == q * d + d && (q - 1) * d == q * d - d
  {
  }

  /** Scaling numerator and divisor alike. */
  lemma ScaledDiv(x: nat, d: nat, c: nat)
    requires d >= 1 && c >= 1
    ensures c * d >= 1 && c * x % (c * d) == c * (x % d) && c * x / (c * d) == x / d
  {
    assert x == x / d * d + x % d;
    assert c * (x / d * d + x % d) == x / d * (c * d) + c * (x % d);
    DivUnique(c * x, c * d, x / d, c * (x % d));
  }

  function FloorDiv(x: nat, d: nat): nat
    requires d >= 1
  {
    x / d
  }

  function CeilDiv(x: nat, d: nat): nat
    requires d >= 1
  {
    if x % d == 0 then x / d else x / d + 1
  }

  /** What is missing from x to the next multiple of d. */
  function Padding(x: nat, d: nat): int
    requires d >= 1
  {
    if x % d == 0 then 0 else d - x % d
  }

  /** The last multiple of d up to x. */
  function Floor(x: nat, d: nat): int
    requires d >= 1
  {
    x / d * d
  }

  /** Rounding a scaled number up or down to a multiple of the scaled divisor. */
  lemma ScaledCuts(x: nat, d: nat, c: nat)
    requires d >= 1 && c >= 1
    ensures c * d >= 1
    ensures Floor(c * x, c * d) == x / d * (c * d)
    ensures c * x + Padding(c * x, c * d) == CeilDiv(x, d) * (c * d)
  {
    ScaledDiv(x, d, c);
    assert x == x / d * d + x % d;
    assert c * (x / d * d + x % d) == x / d * (c * d) + c * (x % d);
    NextMultiple(x / d, c * d);
  }

  lemma Distribute(p: nat, w: nat, h: nat)
    ensures (p * w + h) * w == p * (w * w) + h * w
  {
    assert (p * w + h) * w == p * w * w + h * w;
  }

  lemma Regroup(i: nat, c: nat, d: nat)
    ensures i * (c * d) == c * (i * d)
  {
  }

  lemma Spread(a: nat, b: nat, s: nat)
    requires a <= b
    ensures a * s + (b - a) * s == b * s
  {
  }
}
