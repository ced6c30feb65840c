/** SmallestInteger.h: compile-time choice of the narrowest unsigned type
    for a number of bits or a maximum value, and the limits of each type.
    A type is represented by its width in bits (8, 16, 32 or 64). */
module SmallestInteger {
  import opened Wrappers

  function Pow2(n: nat): (r: nat)
    ensures r >= 1
  {
    if n == 0 then 1 else 2 * Pow2(n - 1)
  }

  /** smallest_integer_bits<N>: the specialisations at 0, 8, 16 and 32, and
      otherwise the type chosen for N - 1. */
  function SmallestIntegerBits(n: nat): nat
  {
    if n == 0 then 8
    else if n == 8 then 16
    else if n == 16 then 32
    else if n == 32 then 64
    else SmallestIntegerBits(n - 1)
  }

  /** The recursion lands on 8 bits for 0-7, 16 for 8-15, 32 for 16-31 and
      64 from 32 on. */
  lemma {:induction false} SmallestIntegerBitsTable(n: nat)
    ensures SmallestIntegerBits(n) == if n < 8 then 8 else if n < 16 then 16 else if n < 32 then 32 else 64
  {
    if n != 0 && n != 8 && n != 16 && n != 32 {
      SmallestIntegerBitsTable(n - 1);
    }
  }

  /** Below 64 bits the chosen type is wider than the requested bit count,
      so a matrix row of that type holds one bit per column. */
  lemma WidthHoldsBits(n: nat)
    requires n < 64
    ensures SmallestIntegerBits(n) > n
  {
    SmallestIntegerBitsTable(n);
  }

  /** numeric_traits<T>::min(). */
  function Min(width: nat): nat
  {
    0
  }

  /** numeric_traits<T>::max() as intended: 2^w - 1. */
  function Max(width: nat): (r: nat)
    ensures r + 1 == Pow2(width)
  {
    Pow2(width) - 1
  }

  /** numeric_traits<T>::max() as written: `(1 << w) - 1` evaluated in
      `int` of `intBits` bits, undefined once the shift reaches the width
      of `int`. */
  function MaxAsWritten(width: nat, intBits: nat): Option<int>
  {
    if width < intBits then Some(Pow2(width) - 1) else None
  }

  /** With the 16-bit int of AVR the 16-, 32- and 64-bit versions shift out
      of range; with a 32-bit int the 32- and 64-bit versions do. */
  lemma MaxOverflows()
    ensures MaxAsWritten(8, 16) == Some(Max(8))
    ensures MaxAsWritten(16, 16).None? && MaxAsWritten(32, 16).None? && MaxAsWritten(64, 16).None?
    ensures MaxAsWritten(16, 32) == Some(Max(16))
    ensures MaxAsWritten(32, 32).None? && MaxAsWritten(64, 32).None?
  {
  }

  lemma MaxValues()
    ensures Max(8) == 0xFF && Max(16) == 0xFFFF && Max(32) == 0xFFFF_FFFF && Max(64) == 0xFFFF_FFFF_FFFF_FFFF
  {
    Pow2Square(4, 0x10);
    Pow2Square(8, 0x100);
    Pow2Square(16, 0x1_0000);
    Pow2Square(32, 0x1_0000_0000);
  }

  lemma Pow2Square(n: nat, v: nat)
    requires Pow2(n) == v
    ensures Pow2(n + n) == v * v
  {
    Pow2Add(n, n);
  }

  lemma {:induction false} Pow2Add(a: nat, b: nat)
    ensures Pow2(a + b) == Pow2(a) * Pow2(b)
    decreases a
  {
    if a > 0 {
      Pow2Add(a - 1, b);
    }
  }

  /** smallest_integer_max<N>: the first of 8, 16 and 32 bits whose maximum
      is at least N, else 64 bits. */
  function SmallestIntegerMax(n: nat): nat
  {
    if n <= Max(8) then 8
    else if n <= Max(16) then 16
    else if n <= Max(32) then 32
    else 64
  }

  /** Pow2 grows with the width. */
  lemma {:induction false} Pow2Monotone(a: nat, b: nat)
    requires a <= b
    ensures Pow2(a) <= Pow2(b)
    decreases b
  {
    if a < b {
      Pow2Monotone(a, b - 1);
    }
  }

  /** The chosen type can hold N (when N fits in 64 bits) and every
      narrower candidate cannot. */
  lemma SmallestIntegerMaxFirstFit(n: nat)
    requires n <= Max(64)
    ensures var w := SmallestIntegerMax(n);
      n <= Max(w) && forall v :: v in [8, 16, 32, 64] && v < w ==> Max(v) < n
  {
    MaxValues();
  }
}
