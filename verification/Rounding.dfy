/** Rounding a score to its nearest tenth, ties to even, in exact arithmetic (internal/domain/risk/verdict_round.go). */
module Rounding {

  function AbsR(x: real): real {
    if x < 0.0 then -x else x
  }

  /** `q` tenths are nearest to `v`, and on a tie they are even. */
  predicate Nearest(v: real, q: int) {
    var off := AbsR(10.0 * v - q as real);
    off <= 0.5 && (off == 0.5 ==> q % 2 == 0)
  }

  /** The nearest tenth is monotone, and so there is only one. */
  lemma NearestMonotone(v: real, q: int, w: real, r: int)
    requires Nearest(v, q) && Nearest(w, r) && v <= w
    ensures q <= r
  {
    assert r < q ==> (r + 1) as real <= q as real;
    assert r < q ==> q == r + 1;
  }

  lemma NearestUnique(v: real, q: int, r: int)
    requires Nearest(v, q) && Nearest(v, r)
    ensures q == r
  {
    NearestMonotone(v, q, v, r);
    NearestMonotone(v, r, v, q);
  }

  /** The nearest number of tenths. */
  function RoundTenth(v: real): (q: int)
    ensures Nearest(v, q)
  {
    var f := (10.0 * v).Floor;
    var rem := 10.0 * v - f as real;
    if rem > 0.5 || (rem == 0.5 && f % 2 == 1) then f + 1 else f
  }

  lemma Scaled(a: real, b: real, d: real)
    requires d > 0.0
    ensures a < b <==> a * d < b * d
  {
    assert a < b ==> (b - a) * d > 0.0;
    assert a >= b ==> (a - b) * d >= 0.0;
  }

  lemma DivIs(x: real, y: real, d: real)
    requires d > 0.0 && x == y * d
    ensures x / d == y
  {
    var z := x / d;
    assert z * d == x;
    Scaled(z, y, d);
    Scaled(y, z, d);
  }

  lemma Compared(x: real, d: real, c: real)
    requires d > 0.0
    ensures x / d < c <==> x < c * d
    ensures x / d > c <==> x > c * d
  {
    assert x / d * d == x;
    Scaled(x / d, c, d);
    Scaled(c, x / d, d);
  }

  lemma Fraction(rem: nat, den: nat)
    requires rem < den
    ensures 0.0 <= rem as real / den as real < 1.0
    ensures 2 * rem > den <==> rem as real / den as real > 0.5
    ensures 2 * rem == den <==> rem as real / den as real == 0.5
  {
    Compared(rem as real, den as real, 0.0);
    Compared(rem as real, den as real, 1.0);
    Compared(rem as real, den as real, 0.5);
  }

  lemma QuotientCast(n: nat, den: nat, q: nat, rem: nat)
    requires 10 * n == q * den + rem
    ensures 10.0 * n as real == q as real * den as real + rem as real
  {
    assert (10 * n) as real == (q * den) as real + rem as real;
    assert (q * den) as real == q as real * den as real;
  }

  lemma Divided(x: real, y: real, q: real, d: real)
    requires d > 0.0 && 10.0 * x == q * d + y
    ensures 10.0 * (x / d) == q + y / d
  {
    var v, r := x / d, y / d;
    assert v * d == x && r * d == y;
    assert (10.0 * v) * d == 10.0 * (v * d);
    assert (q + r) * d == q * d + r * d;
    Scaled(10.0 * v, q + r, d);
    Scaled(q + r, 10.0 * v, d);
  }

  lemma Quotient(n: nat, den: nat, q: nat, rem: nat)
    requires den > 0 && 10 * n == q * den + rem && rem < den
    ensures 10.0 * (n as real / den as real) == q as real + rem as real / den as real
  {
    QuotientCast(n, den, q, rem);
    Divided(n as real, rem as real, q as real, den as real);
  }

  lemma Symmetric(v: real, q: int)
    requires Nearest(v, q)
    ensures Nearest(-v, -q)
  {
  }

  lemma Negated(n: nat, den: nat)
    requires den > 0
    ensures (0 - n) as real / den as real == -(n as real / den as real)
  {
    var v, d := n as real / den as real, den as real;
    assert v * d == n as real && (-v) * d == -(v * d);
    DivIs((0 - n) as real, -v, d);
  }

  /** The quotient, one more past half or on an odd half, is the nearest number of tenths. */
  lemma RoundedQuotient(n: nat, den: nat, q: nat, rem: nat)
    requires den > 0 && 10 * n == q * den + rem && rem < den
    ensures Nearest(n as real / den as real, if 2 * rem > den || (2 * rem == den && q % 2 == 1) then q + 1 else q)
  {
    Quotient(n, den, q, rem);
    Fraction(rem, den);
  }

  /** `roundTenth` on the exact fraction a binary64 value stands for: quotient and remainder, sign put back. */
  method RoundTenthOf(num: int, den: nat) returns (q: int)
    requires den > 0
    ensures q == RoundTenth(num as real / den as real)
  {
    hide RoundTenth, Nearest;
    ghost var v := num as real / den as real;
    if num == 0 {
      RoundFixesTenths(0);
      return 0;
    }
    var n: nat := if num < 0 then -num else num;
    q := 10 * n / den;
    var rem := 10 * n % den;
    RoundedQuotient(n, den, q, rem);
    if 2 * rem > den || (2 * rem == den && q % 2 == 1) {
      q := q + 1;
    }
    if num < 0 {
      Symmetric(n as real / den as real, q);
      Negated(n, den);
      q := -q;
    }
    NearestUnique(v, q, RoundTenth(v));
  }

  lemma RoundMonotone(v: real, w: real)
    requires v <= w
    ensures RoundTenth(v) <= RoundTenth(w)
  {
    NearestMonotone(v, RoundTenth(v), w, RoundTenth(w));
  }

  /** A number of tenths is left as it is, so rounding twice is rounding once, and 0 and 100 bound the result. */
  lemma RoundFixesTenths(q: int)
    ensures RoundTenth(q as real / 10.0) == q
  {
    NearestUnique(q as real / 10.0, q, RoundTenth(q as real / 10.0));
  }

  lemma RoundRange(v: real)
    requires 0.0 <= v <= 100.0
    ensures 0 <= RoundTenth(v) <= 1000
  {
    RoundFixesTenths(0);
    RoundFixesTenths(1000);
    RoundMonotone(0.0, v);
    RoundMonotone(v, 100.0);
  }

  /** An even number of tenths is reached exactly from half a tenth below it. */
  lemma RoundReachesEven(v: real, cut: int)
    requires cut % 2 == 0
    ensures RoundTenth(v) >= cut <==> v >= (cut as real - 0.5) / 10.0
  {
    var edge := (cut as real - 0.5) / 10.0;
    assert Nearest(edge, cut);
    NearestUnique(edge, cut, RoundTenth(edge));
    if v >= edge {
      RoundMonotone(edge, v);
    } else {
      RoundMonotone(v, edge);
      assert !Nearest(v, cut);
    }
  }

  /** An odd one only past half a tenth below it, because the tie goes to the even one before. */
  lemma RoundReachesOdd(v: real, cut: int)
    requires cut % 2 == 1
    ensures RoundTenth(v) >= cut <==> v > (cut as real - 0.5) / 10.0
  {
    var edge := (cut as real - 0.5) / 10.0;
    assert Nearest(edge, cut - 1);
    NearestUnique(edge, cut - 1, RoundTenth(edge));
    if v <= edge {
      RoundMonotone(v, edge);
    } else {
      RoundMonotone(edge, v);
      assert !Nearest(v, cut - 1);
    }
  }
}
