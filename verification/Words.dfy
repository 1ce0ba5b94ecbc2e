/** Signed 64-bit words with wrap-around, as the shell's arithmetic computes on them. */
module Words {
  const TWO_63: int := 0x8000_0000_0000_0000
  const TWO_64: int := 0x1_0000_0000_0000_0000

  type i64 = x: int | -TWO_63 <= x < TWO_63

  /** The signed representative of x modulo 2^64. */
  function Wrap(x: int): i64 {
    var m := x % TWO_64;
    if m < TWO_63 then m else m - TWO_64
  }

  function Pow(b: int, e: nat): int {
    if e == 0 then 1 else b * Pow(b, e - 1)
  }

  /** Congruence modulo 2^64. */
  ghost predicate Congruent(x: int, y: int) {
    exists k: int :: Shifted(x, y, k)
  }

  ghost predicate Shifted(x: int, y: int, k: int) {
    x == y + TWO_64 * k
  }

  /** Range and congruence modulo 2^64 determine the wrapped value. */
  lemma WrapIsCongruent(x: int, y: i64)
    ensures Congruent(x, y) <==> Wrap(x) == y
  {
    var j := x / TWO_64 + if x % TWO_64 < TWO_63 then 0 else 1;
    assert Shifted(x, Wrap(x), j);
    if Congruent(x, y) {
      var k :| Shifted(x, y, k);
      assert TWO_64 * (k - j) == Wrap(x) - y;
      assert k - j == 0;
    }
  }

  lemma CongruentTransitive(x: int, y: int, z: int)
    requires Congruent(x, y) && Congruent(y, z)
    ensures Congruent(x, z)
  {
    var k :| Shifted(x, y, k);
    var j :| Shifted(y, z, j);
    assert Shifted(x, z, k + j);
  }

  lemma CongruentMul(x: int, x': int, y: int, y': int)
    requires Congruent(x, x') && Congruent(y, y')
    ensures Congruent(x * y, x' * y')
  {
    var k :| Shifted(x, x', k);
    var j :| Shifted(y, y', j);
    var m := x' * j + k * y;
    calc {
      x * y;
      (x' + TWO_64 * k) * y;
      x' * y + TWO_64 * (k * y);
      { assert y == y' + TWO_64 * j; Distribute(x', y', j); }
      x' * y' + TWO_64 * (x' * j) + TWO_64 * (k * y);
      x' * y' + TWO_64 * m;
    }
    assert Shifted(x * y, x' * y', m);
  }

  lemma Distribute(x: int, y: int, j: int)
    ensures x * (y + TWO_64 * j) == x * y + TWO_64 * (x * j)
  {
  }

  lemma {:induction false} CongruentPow(b: int, b': int, n: nat)
    requires Congruent(b, b')
    ensures Congruent(Pow(b, n), Pow(b', n))
  {
    if n == 0 {
      assert Shifted(1, 1, 0);
    } else {
      CongruentPow(b, b', n - 1);
      CongruentMul(b, b', Pow(b, n - 1), Pow(b', n - 1));
    }
  }

  lemma {:induction false} PowSquare(b: int, n: nat)
    ensures Pow(b * b, n) == Pow(b, 2 * n)
  {
    if n > 0 {
      PowSquare(b, n - 1);
      var p := Pow(b, 2 * n - 2);
      assert Pow(b, 2 * n) == b * Pow(b, 2 * n - 1) == b * (b * p);
      assert b * (b * p) == (b * b) * p;
    }
  }

  /** Squaring under wrap-around computes the true power modulo 2^64. */
  method WrappingPow(b: i64, e: nat) returns (result: i64)
    ensures result == Wrap(Pow(b, e))
  {
    var base, exponent := b, e;
    result := 1;
    assert Congruent(result * Pow(base, exponent), Pow(b, e)) by {
      assert Shifted(result * Pow(base, exponent), Pow(b, e), 0);
    }
    while exponent > 0
      invariant Congruent(result * Pow(base, exponent), Pow(b, e))
    {
      ghost var r0, b0, e0 := result, base, exponent;
      if exponent % 2 == 1 {
        result := WrappingMul(result, base);
      }
      base := WrappingMul(base, base);
      exponent := exponent / 2;
      SquaringStep(r0, b0, e0, result, base, Pow(b, e));
    }
    assert result * Pow(base, exponent) == result;
    PowerReached(b, e, result);
  }

  function WrappingMul(x: i64, y: i64): (r: i64)
    ensures Congruent(x * y, r) && Congruent(r, x * y)
  {
    var r := Wrap(x * y);
    WrapIsCongruent(x * y, r);
    assert Congruent(r, x * y) by {
      var k :| Shifted(x * y, r, k);
      assert Shifted(r, x * y, -k);
    }
    r
  }

  lemma PowerReached(b: int, e: nat, r: i64)
    requires Congruent(r, Pow(b, e))
    ensures r == Wrap(Pow(b, e))
  {
    var k :| Shifted(r, Pow(b, e), k);
    assert Shifted(Pow(b, e), r, -k);
    WrapIsCongruent(Pow(b, e), r);
  }

  lemma SquaringStep(r: int, b: int, e: nat, r': int, b': int, goal: int)
    requires e > 0
    requires Congruent(r * Pow(b, e), goal)
    requires if e % 2 == 1 then Congruent(r', r * b) else r' == r
    requires Congruent(b', b * b)
    ensures Congruent(r' * Pow(b', e / 2), goal)
  {
    var h := e / 2;
    var p := Pow(b * b, h);
    PowSquare(b, h);
    CongruentPow(b', b * b, h);
    var s := if e % 2 == 1 then r * b else r;
    if e % 2 == 0 { assert Shifted(r', s, 0); }
    CongruentMul(r', s, Pow(b', h), p);
    if e % 2 == 1 {
      assert Pow(b, e) == b * p;
      assert (r * b) * p == r * (b * p);
    }
    CongruentTransitive(r' * Pow(b', h), s * p, goal);
  }
}
