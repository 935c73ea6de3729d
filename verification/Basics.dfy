/** Shared by the other modules: optional values, powers, and facts about products and
    quotients of variables. These are stated here one by one, because they are what a
    proof elsewhere should not depend on the solver to find. Every lemma is about
    plain integers. */
module Basics {

  datatype Option<T> = None | Some(value: T)

  function Pow(b: nat, n: nat): (p: nat)
    ensures b > 0 ==> p > 0
  {
    if n == 0 then 1 else b * Pow(b, n - 1)
  }

  lemma {:induction false} PowMonotone(b: nat, m: nat, n: nat)
    requires b > 0 && m <= n
    ensures Pow(b, m) <= Pow(b, n)
    decreases n
  {
    if m < n {
      PowMonotone(b, m, n - 1);
      ProductMonotone(1, b, Pow(b, n - 1), Pow(b, n - 1));
    }
  }

  lemma DivBounds(t: nat, v: nat)
    requires v > 0
    ensures t / v * v <= t && t - t / v * v < v
  {
    assert t == v * (t / v) + t % v;
  }

  lemma TimesMonotone(a: int, b: int, v: nat)
    requires a <= b
    ensures a * v <= b * v
  {
  }

  lemma TimesPlus(a: int, b: int, v: int)
    ensures (a + b) * v == a * v + b * v
  {
  }

  lemma TimesCancel(a: int, b: int, v: nat)
    requires v > 0 && a * v <= b * v
    ensures a <= b
  {
    if a > b {
      TimesMonotone(b + 1, a, v);
    }
  }

  lemma DivideShrinks(a: nat, b: nat)
    requires b > 0
    ensures 0 <= a / b <= a
  {
    QuotientBound(a, b, a / b, a % b);
  }

  lemma QuotientBound(a: nat, b: nat, q: int, r: nat)
    requires b > 0 && a == q * b + r && r < b
    ensures 0 <= q <= a
  {
    if q < 0 { NegativeProduct(q, b); } else { ProductMonotone(q, q, 1, b); }
  }

  lemma Quotient(x: int, d: int)
    requires d > 0
    ensures x / d * d <= x < (x / d + 1) * d
  {
    assert x == x / d * d + x % d;
  }

  lemma ProductSign(x: int, y: int)
    requires x >= 0 && y >= 0
    ensures x * y >= 0
  {
  }

  lemma Associate(a: int, b: int, c: int)
    ensures a * (b * c) == (a * b) * c
  {
  }

  lemma ProductMonotone(a: nat, b: nat, c: nat, d: nat)
    requires a <= b && c <= d
    ensures a * c <= b * d
  {
    assert a * c <= b * c;
    assert b * c <= b * d;
  }

  lemma Shrinks(v: nat, base: nat)
    requires v > 0 && base > 1
    ensures 0 <= v / base < v
  {
    QuotientShrinks(v, base, v / base, v % base);
  }

  lemma QuotientShrinks(v: nat, base: nat, q: int, r: nat)
    requires v > 0 && base > 1 && v == q * base + r && r < base
    ensures 0 <= q < v
  {
    if q < 0 {
      NegativeProduct(q, base);
    } else {
      ProductMonotone(q, q, 2, base);
    }
  }

  lemma NegativeProduct(q: int, b: int)
    requires q < 0 && b > 0
    ensures q * b <= -b
  {
  }

  lemma DivMod(v: int, base: nat)
    requires base > 0
    ensures v == v / base * base + v % base
  {
  }

  lemma Divide(q: nat, base: nat, r: nat)
    requires r < base
    ensures (q * base + r) / base == q && (q * base + r) % base == r
  {
    var x := q * base + r;
    var q', r' := x / base, x % base;
    assert x == q' * base + r';
    QuotientUnique(q, r, q', r', base);
  }

  lemma QuotientUnique(q: int, r: int, q': int, r': int, base: int)
    requires q * base + r == q' * base + r' && 0 <= r < base && 0 <= r' < base
    ensures q == q' && r == r'
  {
    assert (q - q') * base == r' - r;
    if q > q' {
      ProductMonotone(1, q - q', base, base);
    } else if q < q' {
      assert (q' - q) * base == r - r';
      ProductMonotone(1, q' - q, base, base);
    }
  }
}
