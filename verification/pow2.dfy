/** Powers of two, as the resolution, chunk count and quadtree sizes use them. */
module PowersOfTwo {

  /** n is 2^k for some k >= 0. */
  predicate IsPow2(n: int)
    decreases if n < 0 then 0 else n
  {
    n == 1 || (n >= 2 && n % 2 == 0 && IsPow2(n / 2))
  }

  lemma {:induction false} Pow2Positive(n: int)
    requires IsPow2(n)
    ensures n >= 1
  {
  }

  /** Halving a power of two at least 2 gives a power of two. */
  lemma HalfIsPow2(n: int)
    requires IsPow2(n) && n >= 2
    ensures IsPow2(n / 2) && n == 2 * (n / 2)
  {
  }

  lemma DoubleIsPow2(n: int)
    requires IsPow2(n)
    ensures IsPow2(2 * n)
  {
    assert (2 * n) / 2 == n;
  }

  /** Exact division: a multiple of a positive number divides back to its factor. */
  lemma DivOfMultiple(q: int, a: int)
    requires a > 0
    ensures (q * a) / a == q && (q * a) % a == 0
  {
    DivInBlock(q * a, a, q);
  }

  /**
   * The quotient of two powers of two (larger over smaller) is a power of two
   * and divides exactly.
   */
  lemma {:induction false} Pow2Quotient(a: int, b: int)
    requires IsPow2(a) && IsPow2(b) && a <= b
    ensures IsPow2(b / a) && (b / a) * a == b && b % a == 0
    decreases b
  {
    if a == b {
      DivOfMultiple(1, a);
    } else if a == 1 {
    } else {
      Pow2Positive(a);
      HalfIsPow2(b);
      HalfIsPow2(a);
      var a', b' := a / 2, b / 2;
      Pow2Quotient(a', b');
      var q := b' / a';
      assert q * a' == b';
      MulTwice(q, a');
      DivOfMultiple(q, a);
    }
  }

  lemma MulTwice(q: int, a: int)
    ensures q * (2 * a) == 2 * (q * a)
  {
  }

  /** Two distinct powers of two are at least a factor two apart. */
  lemma Pow2Gap(a: int, b: int)
    requires IsPow2(a) && IsPow2(b) && a < b
    ensures 2 * a <= b
  {
    Pow2Quotient(a, b);
    Pow2Positive(a);
    var q := b / a;
    if q <= 1 {
      assert false;
    }
  }

  /** `1 << k`. */
  function Shl(k: nat): (r: int)
    ensures IsPow2(r) && r >= 1
  {
    if k == 0 then 1 else
      var p := Shl(k - 1);
      DoubleIsPow2(p);
      2 * p
  }

  lemma {:induction false} ShlMonotone(a: nat, b: nat)
    requires a <= b
    ensures Shl(a) <= Shl(b)
    decreases b
  {
    if a < b {
      ShlMonotone(a, b - 1);
    }
  }

  lemma MulMonotone(a: int, b: int, h: int)
    requires a <= b && h >= 0
    ensures a * h <= b * h
  {
    assert b * h - a * h == (b - a) * h;
  }

  /** n / d == a whenever n lies in the a-th block of d consecutive integers. */
  lemma DivInBlock(n: int, d: int, a: int)
    requires d > 0 && a * d <= n < a * d + d
    ensures n / d == a && n % d == n - a * d
  {
    var q, m := n / d, n % d;
    assert q * d + m == n;
    if q - a >= 1 {
      MulMonotone(a + 1, q, d);
      assert false;
    } else if q - a <= -1 {
      MulMonotone(q + 1, a, d);
      assert false;
    }
  }

  /**
   * A block of h consecutive integers starting at a multiple of h never
   * straddles a multiple of cr when h divides cr.
   */
  lemma AlignedBlock(x: nat, h: nat, cr: nat, d: nat)
    requires 0 < h <= cr && x % h == 0 && cr % h == 0 && d < h
    ensures (x + d) / cr == x / cr
  {
    var k, m := x / h, cr / h;
    assert x == k * h && cr == m * h;
    var a, r := x / cr, x % cr;
    assert x == a * cr + r && 0 <= r < cr;
    var t := k - a * m;
    assert r == t * h by {
      assert a * cr == (a * m) * h;
      assert t * h == k * h - (a * m) * h;
    }
    if t >= m {
      MulMonotone(m, t, h);
      assert false;
    }
    MulMonotone(t + 1, m, h);
    assert r + h <= cr;
    DivInBlock(x + d, cr, a);
  }

  /** A row-major index below V * V has a row below V. */
  lemma QuotientBelow(i: int, v: int)
    requires v > 0 && 0 <= i < v * v
    ensures 0 <= i / v < v
  {
    if i / v >= v {
      MulMonotone(v, i / v, v);
      assert false;
    }
  }

  /** A multiple of h below a multiple of h leaves room for h more. */
  lemma AlignedFits(o: nat, h: nat, n: nat)
    requires h > 0 && o % h == 0 && n % h == 0 && o < n
    ensures o + h <= n
  {
    var a, b := o / h, n / h;
    assert o == a * h && n == b * h;
    if a >= b {
      MulMonotone(b, a, h);
      assert false;
    }
    MulMonotone(a + 1, b, h);
  }
}
