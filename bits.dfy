/** The bitwise operators the interpreter applies to its unsigned fields (`&`, `|`, `^`
    and the single-bit test `row & (0x80 >> b)`), defined on naturals one bit at a time,
    least significant bit first, together with the bit-by-bit laws they obey. */
module Bits {

  function Pow2(k: nat): (p: nat)
    ensures p >= 1
  {
    if k == 0 then 1 else 2 * Pow2(k - 1)
  }

  /** Bit `j` of `v`, counting from the least significant bit. */
  predicate Bit(v: nat, j: nat) {
    if j == 0 then v % 2 == 1 else Bit(v / 2, j - 1)
  }

  function BitAnd(a: nat, b: nat): (r: nat)
    ensures r <= a && r <= b
    decreases a
  {
    if a == 0 || b == 0 then 0
    else 2 * BitAnd(a / 2, b / 2) + (if a % 2 == 1 && b % 2 == 1 then 1 else 0)
  }

  function BitOr(a: nat, b: nat): nat
    decreases a
  {
    if a == 0 then b
    else if b == 0 then a
    else 2 * BitOr(a / 2, b / 2) + (if a % 2 == 1 || b % 2 == 1 then 1 else 0)
  }

  function BitXor(a: nat, b: nat): nat
    decreases a
  {
    if a == 0 then b
    else if b == 0 then a
    else 2 * BitXor(a / 2, b / 2) + (if (a % 2 == 1) != (b % 2 == 1) then 1 else 0)
  }

  lemma {:induction false} ZeroHasNoBits(j: nat)
    ensures !Bit(0, j)
    decreases j
  {
    if j > 0 {
      ZeroHasNoBits(j - 1);
    }
  }

  /** Bit `j` of `a & b` is set exactly when it is set in both. */
  lemma {:induction false} AndBit(a: nat, b: nat, j: nat)
    ensures Bit(BitAnd(a, b), j) <==> Bit(a, j) && Bit(b, j)
    decreases j
  {
    if a == 0 || b == 0 {
      ZeroHasNoBits(j);
    } else if j > 0 {
      AndBit(a / 2, b / 2, j - 1);
    }
  }

  /** Bit `j` of `a | b` is set exactly when it is set in either. */
  lemma {:induction false} OrBit(a: nat, b: nat, j: nat)
    ensures Bit(BitOr(a, b), j) <==> Bit(a, j) || Bit(b, j)
    decreases j
  {
    if a == 0 || b == 0 {
      ZeroHasNoBits(j);
    } else if j > 0 {
      OrBit(a / 2, b / 2, j - 1);
    }
  }

  /** Bit `j` of `a ^ b` is set exactly when it is set in one of them only. */
  lemma {:induction false} XorBit(a: nat, b: nat, j: nat)
    ensures Bit(BitXor(a, b), j) <==> Bit(a, j) != Bit(b, j)
    decreases j
  {
    if a == 0 || b == 0 {
      ZeroHasNoBits(j);
    } else if j > 0 {
      XorBit(a / 2, b / 2, j - 1);
    }
  }

  /** `|` and `^` of two `k`-bit values is a `k`-bit value. */
  lemma {:induction false} OrBelow(a: nat, b: nat, k: nat)
    requires a < Pow2(k) && b < Pow2(k)
    ensures BitOr(a, b) < Pow2(k)
    decreases k
  {
    if a != 0 && b != 0 {
      OrBelow(a / 2, b / 2, k - 1);
    }
  }

  lemma {:induction false} XorBelow(a: nat, b: nat, k: nat)
    requires a < Pow2(k) && b < Pow2(k)
    ensures BitXor(a, b) < Pow2(k)
    decreases k
  {
    if a != 0 && b != 0 {
      XorBelow(a / 2, b / 2, k - 1);
    }
  }

  /** `c ^ 1` flips the lowest bit, so it is `c + 1` or `c - 1`, and applying it twice
      gives `c` back. */
  lemma XorOne(c: nat)
    ensures BitXor(c, 1) == if c % 2 == 0 then c + 1 else c - 1
    ensures BitXor(BitXor(c, 1), 1) == c
  {
  }

  /** The single-bit mask `0x80 >> b` of the source is `2^(7-b)`, and testing a byte
      against it reads bit `7 - b`: pixel 0 of a sprite row, its leftmost, is bit 7. */
  lemma {:induction false} MaskTest(row: nat, k: nat)
    ensures BitAnd(row, Pow2(k)) != 0 <==> Bit(row, k)
    decreases k
  {
    if k == 0 {
      if row != 0 {
        assert BitAnd(row, 1) == 2 * BitAnd(row / 2, 0) + (if row % 2 == 1 then 1 else 0);
      }
    } else if row == 0 {
      ZeroHasNoBits(k);
    } else {
      assert Pow2(k) / 2 == Pow2(k - 1) && Pow2(k) % 2 == 0;
      MaskTest(row / 2, k - 1);
    }
  }
}
