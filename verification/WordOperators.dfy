/** Truncating division, shifts and bitwise operators on two's complement words. */
module WordOperators {
  import opened Words

  function Abs(x: int): nat {
    if x < 0 then -x else x
  }

  /** Quotient and remainder of naturals by repeated subtraction. */
  function NatDiv(n: nat, d: nat): nat
    requires d > 0
  {
    if n < d then 0 else 1 + NatDiv(n - d, d)
  }

  function NatRem(n: nat, d: nat): nat
    requires d > 0
  {
    if n < d then n else NatRem(n - d, d)
  }

  lemma {:induction false} NatDivision(n: nat, d: nat)
    requires d > 0
    ensures n == d * NatDiv(n, d) + NatRem(n, d) && NatRem(n, d) < d
    ensures NatDiv(n, d) <= n && (d >= 2 ==> 2 * NatDiv(n, d) <= n)
  {
    if n >= d {
      NatDivision(n - d, d);
      assert d * (1 + NatDiv(n - d, d)) == d + d * NatDiv(n - d, d);
    }
  }

  /** Division truncates toward zero. */
  function TruncDiv(l: int, r: int): int
    requires r != 0
  {
    var q := NatDiv(Abs(l), Abs(r));
    if (l < 0) == (r < 0) then q else -(q as int)
  }

  /** The remainder takes the sign of the dividend. */
  function TruncRem(l: int, r: int): int
    requires r != 0
  {
    var m := NatRem(Abs(l), Abs(r));
    if l < 0 then -(m as int) else m
  }

  /** Sign rules for a product whose factors' magnitudes are known. */
  lemma SignedProduct(l: int, r: int, q: int, m: int)
    requires r != 0 && Abs(l) == Abs(r) * q + m
    ensures l == r * (if (l < 0) == (r < 0) then q else -q) + if l < 0 then -m else m
  {
    if r < 0 {
      assert Abs(r) * q == -(r * q);
    }
    assert r * -q == -(r * q);
  }

  /** Quotient and remainder recompose the dividend, and the remainder is the shorter. */
  lemma TruncLaw(l: int, r: int)
    requires r != 0
    ensures l == r * TruncDiv(l, r) + TruncRem(l, r)
    ensures Abs(TruncRem(l, r)) < Abs(r)
  {
    var n, d := Abs(l), Abs(r);
    NatDivision(n, d);
    SignedProduct(l, r, NatDiv(n, d), NatRem(n, d));
  }

  /** Only the most negative word divided by -1 leaves the range, and it wraps to itself. */
  lemma WrappingDivLaw(l: i64, r: i64)
    requires r != 0
    ensures Wrap(TruncDiv(l, r)) == if l == -TWO_63 && r == -1 then l else TruncDiv(l, r)
    ensures Wrap(TruncRem(l, r)) == TruncRem(l, r)
  {
    NatDivision(Abs(l), Abs(r));
    WrapSmall(TruncRem(l, r));
    if Abs(r) >= 2 {
      WrapSmall(TruncDiv(l, r));
    } else {
      DivideByOne(Abs(l));
      WrapSmall(l);
    }
  }

  lemma WrapSmall(x: int)
    requires -TWO_63 <= x <= TWO_63
    ensures Wrap(x) == if x == TWO_63 then -TWO_63 else x
  {
  }

  lemma {:induction false} DivideByOne(n: nat)
    ensures NatDiv(n, 1) == n
  {
    if n > 0 {
      DivideByOne(n - 1);
    }
  }

  function Pow2(k: nat): (p: nat)
    ensures p >= 1
  {
    if k == 0 then 1 else 2 * Pow2(k - 1)
  }

  /** Bit k of the two's complement representation. */
  predicate Bit(x: int, k: nat)
    decreases k
  {
    if k == 0 then x % 2 == 1 else Bit(x / 2, k - 1)
  }

  /** Applies a boolean function to the n low bits and to the sign. */
  function Bitwise(f: (bool, bool) -> bool, x: int, y: int, n: nat): (r: int)
    ensures -(Pow2(n) as int) <= r < Pow2(n)
    decreases n
  {
    if n == 0 then
      if f(x < 0, y < 0) then -1 else 0
    else
      2 * Bitwise(f, x / 2, y / 2, n - 1) + if f(x % 2 == 1, y % 2 == 1) then 1 else 0
  }

  lemma HalfOf(high: int, low: int)
    requires 0 <= low < 2
    ensures (2 * high + low) / 2 == high && (2 * high + low) % 2 == low
  {
  }

  /** Every low bit of the result is the boolean function of the operands' bits. */
  lemma {:induction false} BitwiseBits(f: (bool, bool) -> bool, x: int, y: int, n: nat, k: nat)
    requires k < n
    ensures Bit(Bitwise(f, x, y, n), k) <==> f(Bit(x, k), Bit(y, k))
    decreases n
  {
    var low := if f(x % 2 == 1, y % 2 == 1) then 1 else 0;
    var high := Bitwise(f, x / 2, y / 2, n - 1);
    assert Bitwise(f, x, y, n) == 2 * high + low;
    HalfOf(high, low);
    if k > 0 {
      BitwiseBits(f, x / 2, y / 2, n - 1, k - 1);
    }
  }

  lemma {:induction false} Pow2Double(n: nat)
    ensures Pow2(2 * n + 1) == 2 * Pow2(n) * Pow2(n)
  {
    if n > 0 {
      Pow2Double(n - 1);
      var p := Pow2(n - 1);
      assert Pow2(2 * n + 1) == 4 * Pow2(2 * (n - 1) + 1);
      assert 2 * (2 * p) * (2 * p) == 4 * (2 * p * p);
    }
  }

  lemma WordWidth()
    ensures Pow2(63) == TWO_63
  {
    assert Pow2(7) == 0x80 by { Pow2Double(1); Pow2Double(3); }
    assert Pow2(31) == 0x8000_0000 by { Pow2Double(7); Pow2Double(15); }
    Pow2Double(31);
  }

  /** A 64-bit word is its 63 low bits and its sign. */
  function WordBitwise(f: (bool, bool) -> bool, x: i64, y: i64): i64 {
    assert Pow2(63) == TWO_63 by { WordWidth(); }
    Bitwise(f, x, y, 63)
  }

  /** From the width of a number on, every bit is its sign. */
  lemma {:induction false} HighBits(x: int, n: nat, k: nat)
    requires n <= k && -(Pow2(n) as int) <= x < Pow2(n)
    ensures Bit(x, k) <==> x < 0
    decreases k
  {
    if k > 0 {
      HighBits(x / 2, if n == 0 then 0 else n - 1, k - 1);
    }
  }

  lemma {:induction false} BitwiseSign(f: (bool, bool) -> bool, x: int, y: int, n: nat)
    ensures Bitwise(f, x, y, n) < 0 <==> f(x < 0, y < 0)
    decreases n
  {
    if n > 0 {
      BitwiseSign(f, x / 2, y / 2, n - 1);
    }
  }

  /** Every bit of a combined word, the sign and those beyond it included, is the boolean function of the operands' bits. */
  lemma WordBits(f: (bool, bool) -> bool, x: i64, y: i64, k: nat)
    ensures Bit(WordBitwise(f, x, y), k) <==> f(Bit(x, k), Bit(y, k))
  {
    WordWidth();
    if k < 63 {
      BitwiseBits(f, x, y, 63, k);
    } else {
      BitwiseSign(f, x, y, 63);
      HighBits(WordBitwise(f, x, y), 63, k);
      HighBits(x, 63, k);
      HighBits(y, 63, k);
    }
  }

  /** Multiples of 2^n leave the bits below n alone. */
  lemma {:induction false} LowBits(x: int, j: int, n: nat, k: nat)
    requires k < n
    ensures Bit(x + Pow2(n) * j, k) <==> Bit(x, k)
    decreases k
  {
    var y, p := x + Pow2(n) * j, Pow2(n - 1) * j;
    assert Pow2(n) * j == 2 * p;
    if k > 0 {
      assert y / 2 == x / 2 + p;
      LowBits(x / 2, j, n - 1, k - 1);
    }
  }

  /** Wrapping keeps the 64 bits of a word. */
  lemma WrapKeepsBits(x: int, k: nat)
    requires k < 64
    ensures Bit(Wrap(x), k) <==> Bit(x, k)
  {
    WordWidth();
    assert Pow2(64) == 2 * Pow2(63) == TWO_64;
    WrapIsCongruent(x, Wrap(x));
    var j: int :| Shifted(x, Wrap(x), j);
    LowBits(Wrap(x), j, 64, k);
  }

  /** Complementing a word negates it and takes one off: every bit flips. */
  lemma {:induction false} ComplementFlips(x: int, k: nat)
    ensures Bit(-x - 1, k) <==> !Bit(x, k)
    decreases k
  {
    if k > 0 {
      assert (-x - 1) / 2 == -(x / 2) - 1;
      ComplementFlips(x / 2, k - 1);
    }
  }

  /** Bit k of a product by 2^s is bit k - s of the operand, and zero below s. */
  lemma {:induction false} ShiftLeftBits(x: int, s: nat, k: nat)
    ensures Bit(x * Pow2(s), k) <==> k >= s && Bit(x, k - s)
    decreases s
  {
    if s > 0 {
      assert x * Pow2(s) == 2 * (x * Pow2(s - 1));
      if k > 0 {
        assert x * Pow2(s) / 2 == x * Pow2(s - 1);
        ShiftLeftBits(x, s - 1, k - 1);
      }
    }
  }

  /** Bit k of a word shifted left by s is bit k - s of the operand, and zero below s. */
  lemma WordShiftBits(x: i64, s: nat, k: nat)
    requires k < 64
    ensures Bit(Wrap(x * Pow2(s)), k) <==> k >= s && Bit(x, k - s)
  {
    WrapKeepsBits(x * Pow2(s), k);
    ShiftLeftBits(x, s, k);
  }

  /** Arithmetic right shift: s halvings toward minus infinity. */
  function ShiftRight(x: i64, s: nat): i64
    decreases s
  {
    if s == 0 then x else ShiftRight(x / 2, s - 1)
  }

  lemma {:induction false} ShiftRightBits(x: i64, s: nat, k: nat)
    ensures Bit(ShiftRight(x, s), k) <==> Bit(x, k + s)
    decreases s
  {
    if s > 0 {
      ShiftRightBits(x / 2, s - 1, k);
    }
  }

  /** The shift amount keeps the low 32 bits of the operand, of which the machine reads six. */
  function ShiftAmount(r: i64): nat {
    r % 0x1_0000_0000 % 64
  }
}
