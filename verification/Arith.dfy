/** Division facts the solver does not find by itself. */
module Arith {
  function Min(a: int, b: int): (m: int)
    ensures m <= a && m <= b && (m == a || m == b)
  {
    if a < b then a else b
  }

  lemma MulBound(e: int, d: int)
    requires d >= 0
    ensures e >= 1 ==> e * d >= d
    ensures e <= -1 ==> e * d <= -d
  {
  }

  lemma MulNext(n: nat, d: nat)
    ensures (n + 1) * d == n * d + d
  {
  }

  lemma DivUnique(v: nat, d: nat, q: nat, r: nat)
    requires d > 0 && v == q * d + r && r < d
    ensures v / d == q && v % d == r
  {
    var e := v / d - q;
    assert e * d == (v / d) * d - q * d;
    assert e * d == r - v % d;
    MulBound(e, d);
  }

  lemma ModAdd(x: nat, d: nat)
    requires d > 0
    ensures (x + d) % d == x % d
  {
    var q := x / d;
    assert x + d == (q + 1) * d + x % d;
    DivUnique(x + d, d, q + 1, x % d);
  }

  lemma MulMod(k: nat, d: nat)
    requires d > 0
    ensures (k * d) % d == 0
  {
    DivUnique(k * d, d, k, 0);
  }

  /** Rounding up to whole blocks. */
  lemma RoundUp(n: nat, block: nat)
    requires block > 0
    ensures var times := (n + block - 1) / block;
            n <= times * block < n + block && (times * block) % block == 0
  {
    var times := (n + block - 1) / block;
    assert n + block - 1 == times * block + (n + block - 1) % block;
    MulMod(times, block);
  }

  lemma DivBelow(x: nat, d: nat, w: nat)
    requires d > 0 && x <= d * w
    ensures x / d <= w
    ensures x < d * w ==> x / d < w
  {
    var e := x / d - w;
    assert e * d == (x / d) * d - w * d;
    assert e * d == x - x % d - d * w;
    MulBound(e, d);
  }

  lemma DivMonotone(x: nat, y: nat, d: nat)
    requires x <= y && d > 0
    ensures x / d <= y / d
  {
    var e := y / d - x / d;
    assert e * d == (y / d) * d - (x / d) * d;
    assert e * d == (y - y % d) - (x - x % d);
    MulBound(e, d);
  }

  /** A proper fraction of a width. */
  lemma Fraction(n: nat, width: nat, d: nat)
    requires n < d
    ensures 0 <= n * width <= d * width
    ensures width > 0 ==> n * width < d * width
  {
    assert (d - n) * width == d * width - n * width;
    MulBound(d - n, width);
  }

  lemma MulMonotone(a: nat, b: nat, c: nat)
    requires a <= b
    ensures 0 <= a * c <= b * c
  {
    assert (b - a) * c == b * c - a * c;
  }

  lemma DivModNext(n: nat, d: nat)
    requires d > 0
    ensures n % d + 1 == d ==> (n + 1) / d == n / d + 1 && (n + 1) % d == 0
    ensures n % d + 1 < d ==> (n + 1) / d == n / d && (n + 1) % d == n % d + 1
  {
    var q, r := n / d, n % d;
    assert n == q * d + r;
    if r + 1 == d {
      assert (q + 1) * d == q * d + d;
      DivUnique(n + 1, d, q + 1, 0);
    } else {
      DivUnique(n + 1, d, q, r + 1);
    }
  }
}
