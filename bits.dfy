/** Python's integer bit operators, restricted to the non-negative operands the
    driver applies them to (register bytes and their shifts). `&` and `|` are
    defined bit by bit from the least significant bit, so that the facts the
    decoders rely on ("masking then dividing is a shift", "this OR is an
    addition") are proved rather than assumed. */
module Bits {

  /** A value returned by an 8-bit register read. */
  type byte = b: int | 0 <= b < 256

  function Pow2(k: nat): (r: nat)
    ensures r >= 1
  {
    if k == 0 then 1 else 2 * Pow2(k - 1)
  }

  /** `a & b` */
  function And(a: nat, b: nat): (r: nat)
    ensures r <= a && r <= b
    decreases a
  {
    if a == 0 || b == 0 then 0
    else 2 * And(a / 2, b / 2) + (if a % 2 == 1 && b % 2 == 1 then 1 else 0)
  }

  /** `a | b` */
  function Or(a: nat, b: nat): (r: nat)
    ensures a <= r && b <= r && r <= a + b
    decreases a
  {
    if a == 0 then b
    else if b == 0 then a
    else 2 * Or(a / 2, b / 2) + (if a % 2 == 1 || b % 2 == 1 then 1 else 0)
  }

  /** `a << k`; shifting back right by k recovers `a`. */
  function Shl(a: nat, k: nat): (r: nat)
    ensures Shr(r, k) == a
  {
    ShlThenShr(a, k);
    a * Pow2(k)
  }

  /** `a >> k` (Python shifts a non-negative integer right by flooring): the result is
      the quotient of `a` by 2^k. */
  function Shr(a: nat, k: nat): (r: nat)
    ensures r * Pow2(k) <= a < (r + 1) * Pow2(k)
  {
    if k == 0 then a
    else
      var r := Shr(a / 2, k - 1);
      FloorStep(a, r, Pow2(k - 1));
      r
  }

  /** Halving then flooring by p floors by 2p. */
  lemma FloorStep(a: nat, r: nat, p: nat)
    requires r * p <= a / 2 < (r + 1) * p
    ensures r * (2 * p) <= a < (r + 1) * (2 * p)
  {
    assert r * (2 * p) == 2 * (r * p);
    assert (r + 1) * (2 * p) == 2 * ((r + 1) * p);
  }

  lemma {:induction false} ShlThenShr(a: nat, k: nat)
    ensures Shr(a * Pow2(k), k) == a
  {
    if k > 0 {
      Pow2Step(a, k);
      assert a * Pow2(k) / 2 == a * Pow2(k - 1);
      ShlThenShr(a, k - 1);
    }
  }

  /** ORing a value shifted left by k with one below 2^k is addition: the bits do not overlap. */
  lemma {:induction false} OrDisjoint(a: nat, b: nat, k: nat)
    requires b < Pow2(k)
    ensures Or(a * Pow2(k), b) == a * Pow2(k) + b
  {
    if k == 0 {
      assert a * Pow2(k) == a && b == 0;
    } else {
      var q := a * Pow2(k - 1);
      Pow2Step(a, k);
      if q != 0 {
        OrStep(q, b);
        OrDisjoint(a, b / 2, k - 1);
      }
    }
  }

  /** Shifting left by k is shifting left by k - 1, then once more. */
  lemma Pow2Step(a: nat, k: nat)
    requires k > 0
    ensures a * Pow2(k) == 2 * (a * Pow2(k - 1))
  {
  }

  /** One bit of `|`: an even left operand contributes nothing to the lowest bit. */
  lemma OrStep(q: nat, b: nat)
    requires q > 0
    ensures Or(2 * q, b) == 2 * Or(q, b / 2) + b % 2
  {
    if b != 0 {
      assert (2 * q) / 2 == q && (2 * q) % 2 == 0;
    }
  }

  /** An odd mask keeps the lowest bit. */
  lemma AndOddMask(x: nat, b: nat)
    ensures And(x, 2 * b + 1) == 2 * And(x / 2, b) + x % 2
  {
    if x != 0 {
      assert (2 * b + 1) / 2 == b && (2 * b + 1) % 2 == 1;
    }
  }

  /** Shifting right by 3 or 4 divides by 8 or 16. */
  lemma ShrSmall(x: nat)
    ensures Shr(x, 3) == x / 8 && Shr(x, 4) == x / 16
  {
    assert Shr(x, 3) == Shr(x / 2, 2) == Shr(x / 2 / 2, 1) == Shr(x / 2 / 2 / 2, 0);
    assert Shr(x, 4) == Shr(x / 2, 3) == Shr(x / 2 / 2, 2) == Shr(x / 2 / 2 / 2, 1);
    assert Shr(x / 2 / 2 / 2, 1) == Shr(x / 2 / 2 / 2 / 2, 0);
  }

  /** An even mask never keeps the lowest bit. */
  lemma AndEvenMask(x: nat, b: nat)
    ensures And(x, 2 * b) == 2 * And(x / 2, b)
  {
    if x != 0 && b != 0 {
      assert (2 * b) / 2 == b && (2 * b) % 2 == 0;
    }
  }

  /** `y & 0xF` keeps a value below 16 whole. */
  lemma LowNibbleMask(y: nat)
    requires y < 16
    ensures And(y, 0x0F) == y
  {
    AndOddMask(y, 7);
    AndOddMask(y / 2, 3);
    AndOddMask(y / 4, 1);
    AndOddMask(y / 8, 0);
    assert y / 2 / 2 == y / 4 && y / 4 / 2 == y / 8 && y / 8 / 2 == 0;
  }

  /** `x & 0xF0` on a byte clears its low nibble. */
  lemma HighNibble(x: byte)
    ensures And(x, 0xF0) == x / 16 * 16
  {
    var y := x / 16;
    AndEvenMask(x, 120);
    AndEvenMask(x / 2, 60);
    AndEvenMask(x / 4, 30);
    AndEvenMask(x / 8, 15);
    assert x / 2 / 2 == x / 4 && x / 4 / 2 == x / 8 && x / 8 / 2 == y;
    assert And(x, 0xF0) == 16 * And(y, 0x0F);
    LowNibbleMask(y);
  }
}
