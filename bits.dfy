/** Integer semantics of fixed-width hardware signals, as the sine generator
    relies on them: powers of two for widths and shifts, bit slices, the
    unsigned truncation that an assignment to a narrower signal performs,
    and the two's-complement reading of a word as a signed value. */
module Bits {

  /** 2^n, the value of `1 << n`. */
  function Pow2(n: nat): (r: nat)
    ensures r >= 1
    ensures n >= 1 ==> r >= 2
  {
    if n == 0 then 1 else 2 * Pow2(n - 1)
  }

  lemma {:induction false} Pow2Add(a: nat, b: nat)
    ensures Pow2(a + b) == Pow2(a) * Pow2(b)
  {
    if b > 0 {
      var x: int, y: int := Pow2(a), Pow2(b - 1);
      assert Pow2(a + b - 1) == x * y by {
        Pow2Add(a, b - 1);
      }
      assert x * (2 * y) == 2 * (x * y);
    }
  }

  lemma {:induction false} Pow2Monotone(a: nat, b: nat)
    requires a <= b
    ensures Pow2(a) <= Pow2(b)
  {
    if a < b {
      Pow2Monotone(a, b - 1);
    }
  }

  lemma MulMonotone(a: int, b: int, p: nat)
    requires a <= b
    ensures a * p <= b * p
  {
  }

  /** The low `width` bits of `x` in two's complement, `x[0:width]`: the
      value an unsigned signal of `width` bits takes when assigned `x`. */
  function Truncate(width: nat, x: int): (r: nat)
    ensures r < Pow2(width)
  {
    if width == 0 then 0 else x % 2 + 2 * Truncate(width - 1, x / 2)
  }

  /** The bits of `x` from position `n` up, `x >> n` (rounding down). */
  function ShiftRight(n: nat, x: int): int
  {
    if n == 0 then x else ShiftRight(n - 1, x / 2)
  }

  /** The low bits and the shifted high bits make up the whole value. */
  lemma {:induction false} SliceSum(n: nat, x: int)
    ensures x == Truncate(n, x) + ShiftRight(n, x) * Pow2(n)
  {
    if n > 0 {
      SliceSum(n - 1, x / 2);
      assert x == x % 2 + 2 * (x / 2);
    }
  }

  /** A value is split into low bits and high bits in one way only. */
  lemma SliceUnique(n: nat, x: int, q: int, r: int)
    requires 0 <= r < Pow2(n) && x == r + q * Pow2(n)
    ensures Truncate(n, x) == r && ShiftRight(n, x) == q
  {
    SliceSum(n, x);
    EuclidUnique(x, Pow2(n), ShiftRight(n, x), Truncate(n, x), q, r);
  }

  lemma EuclidUnique(x: int, p: int, q0: int, r0: int, q: int, r: int)
    requires 0 <= r0 < p && 0 <= r < p
    requires x == r0 + q0 * p && x == r + q * p
    ensures q0 == q && r0 == r
  {
    assert (q0 - q) * p == r - r0;
    if q0 > q {
      MulMonotone(1, q0 - q, p);
    } else if q0 < q {
      MulMonotone(1, q - q0, p);
    }
  }

  /** A value the unsigned signal can represent is stored unchanged. */
  lemma TruncateFits(width: nat, x: int)
    requires 0 <= x < Pow2(width)
    ensures Truncate(width, x) == x
  {
    SliceUnique(width, x, 0, x);
  }

  /** A small negative value is stored as its two's-complement pattern. */
  lemma TruncateNegative(width: nat, x: int)
    requires -(Pow2(width) as int) <= x < 0
    ensures Truncate(width, x) == x + Pow2(width)
  {
    SliceUnique(width, x, -1, x + Pow2(width));
  }

  /** Adding a whole number of periods does not change the stored value. */
  lemma TruncatePeriodic(width: nat, x: int, k: int)
    ensures Truncate(width, x + k * Pow2(width)) == Truncate(width, x)
  {
    var p := Pow2(width);
    SliceSum(width, x);
    assert x + k * p == Truncate(width, x) + (ShiftRight(width, x) + k) * p;
    SliceUnique(width, x + k * p, ShiftRight(width, x) + k, Truncate(width, x));
  }

  /** The value of a signed signal of `width` bits whose bit pattern is the
      unsigned word `u`. */
  function AsSigned(width: nat, u: nat): (r: int)
    requires width >= 1 && u < Pow2(width)
    ensures -(Pow2(width - 1) as int) <= r < Pow2(width - 1)
    ensures r == u || r == u - Pow2(width)
    ensures u < Pow2(width - 1) ==> r == u
  {
    if u < Pow2(width - 1) then u else u - Pow2(width)
  }

  /** The value a signed signal of `width` bits takes when assigned `x`. */
  function WrapSigned(width: nat, x: int): (r: int)
    requires width >= 1
    ensures -(Pow2(width - 1) as int) <= r < Pow2(width - 1)
  {
    AsSigned(width, Truncate(width, x))
  }

  /** Assigning a value the signed signal can represent changes nothing. */
  lemma WrapSignedInRange(width: nat, x: int)
    requires width >= 1 && -(Pow2(width - 1) as int) <= x < Pow2(width - 1)
    ensures WrapSigned(width, x) == x
  {
    assert Pow2(width) == 2 * Pow2(width - 1);
    if x < 0 {
      TruncateNegative(width, x);
    } else {
      TruncateFits(width, x);
    }
  }
}
