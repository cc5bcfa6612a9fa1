/**
 * Scalar helpers of the tracer: clamping, squaring and the compile-time
 * integer power used to size the BVH builder's pending-work list.
 * Floats are modelled as `real`.
 */
module Utility {

  /** `clamp(value, min, max)`: the lower bound is tested first, then the upper one. */
  function Clamp(value: real, lo: real, hi: real): (r: real)
    ensures value < lo ==> r == lo
    ensures lo <= value && hi < value ==> r == hi
    ensures lo <= value <= hi ==> r == value
    ensures r == lo || r == hi || r == value
  {
    if value < lo then lo
    else if value > hi then hi
    else value
  }

  /** With an ordered pair of bounds the result lies between them. */
  lemma ClampInRange(value: real, lo: real, hi: real)
    requires lo <= hi
    ensures lo <= Clamp(value, lo, hi) <= hi
  {
  }

  /** Clamping twice with the same ordered bounds is clamping once. */
  lemma ClampIdempotent(value: real, lo: real, hi: real)
    requires lo <= hi
    ensures Clamp(Clamp(value, lo, hi), lo, hi) == Clamp(value, lo, hi)
  {
    ClampInRange(value, lo, hi);
  }

  /** `square(t)`. */
  function Square(t: real): (r: real)
    ensures r >= 0.0
  {
    t * t
  }

  /** `constexprPow(num, pow)`: `pow` multiplications of `num` onto 1. */
  function Pow(num: int, pow: nat): (r: int)
    ensures 0 <= num ==> 0 <= r
  {
    if pow == 0 then 1 else num * Pow(num, pow - 1)
  }

  /** Exponents add: the recursion really computes num^pow. */
  lemma {:induction false} PowAdd(num: int, a: nat, b: nat)
    ensures Pow(num, a + b) == Pow(num, a) * Pow(num, b)
  {
    if a > 0 {
      PowAdd(num, a - 1, b);
      var x, y := Pow(num, a - 1), Pow(num, b);
      assert a + b - 1 == a - 1 + b;
      assert Pow(num, a + b) == num * (x * y);
      assert Pow(num, a) == num * x;
      MulAssociates(num, x, y);
    }
  }

  lemma MulAssociates(a: int, b: int, c: int)
    ensures a * (b * c) == (a * b) * c
  {
  }

  /** A positive base gives a positive power, at least as large as the base for pow >= 1. */
  lemma {:induction false} PowPositive(num: int, pow: nat)
    requires num > 0
    ensures Pow(num, pow) > 0
    ensures pow > 0 ==> Pow(num, pow) >= num
  {
    if pow > 0 {
      PowPositive(num, pow - 1);
    }
  }

  /** Powers of two double with each step of the exponent. */
  lemma {:induction false} PowTwoStep(pow: nat)
    ensures Pow(2, pow + 1) == Pow(2, pow) + Pow(2, pow)
  {
  }

  /** The size the BVH builder reserves for its pending list: constexprPow(2, 6). */
  lemma PowTwoSix()
    ensures Pow(2, 6) == 64
  {
  }

  // ---------------------------------------------------------------- integer division

  lemma MulMonotone(a: nat, b: nat, c: nat)
    requires b <= c
    ensures a * b <= a * c
  {
  }

  /** Ceiling division: the number of `size`-sized groups needed to cover `n` items. */
  function CeilDiv(n: nat, size: nat): (q: nat)
    requires size > 0
    ensures n <= q * size < n + size
  {
    var m := n + size - 1;
    assert m == m / size * size + m % size;
    m / size
  }

  /** Group k exists exactly when it starts below `n`. */
  lemma CeilDivBelow(n: nat, size: nat, k: nat)
    requires size > 0
    ensures k < CeilDiv(n, size) <==> k * size < n
  {
    var m := n + size - 1;
    var q := m / size;
    assert m == q * size + m % size;
    if k < q {
      MulMonotone(size, k + 1, q);
      assert k * size + size <= q * size;
    } else {
      MulMonotone(size, q, k);
      assert q * size <= k * size;
    }
  }

  /** A multiple of `size` plus a remainder below `size` divides back to the multiple. */
  lemma DivOfMultiple(n: nat, size: nat, r: nat)
    requires r < size
    ensures (n * size + r) / size == n
  {
    var q := (n * size + r) / size;
    assert n * size + r == q * size + (n * size + r) % size;
    if q < n {
      MulMonotone(size, q + 1, n);
    } else if n < q {
      MulMonotone(size, n + 1, q);
    }
  }
}
