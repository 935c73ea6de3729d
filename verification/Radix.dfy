/** Numbers written in a base, most significant digit first.
    How many digits of one base hold the digits of another: the buffer sizes of
    src/base58.cpp are enough for every length.
    The carry loop, in place. */
module Radix {
  import opened Basics

  lemma {:induction false} PowAdd(b: nat, m: nat, n: nat)
    ensures Pow(b, m + n) == Pow(b, m) * Pow(b, n)
    decreases m
  {
    if m > 0 {
      PowAdd(b, m - 1, n);
      Associate(b, Pow(b, m - 1), Pow(b, n));
    }
  }

  /** From a^i <= b^j to a^(iq) <= b^(jq). */
  lemma {:induction false} PowScale(a: nat, b: nat, i: nat, j: nat, q: nat)
    requires Pow(a, i) <= Pow(b, j)
    ensures Pow(a, i * q) <= Pow(b, j * q)
    decreases q
  {
    if q == 0 {
      assert i * q == 0 && j * q == 0;
    } else {
      PowScale(a, b, i, j, q - 1);
      assert i * q == i + i * (q - 1) && j * q == j + j * (q - 1);
      PowAdd(a, i, i * (q - 1));
      PowAdd(b, j, j * (q - 1));
      ProductMonotone(Pow(a, i), Pow(b, j), Pow(a, i * (q - 1)), Pow(b, j * (q - 1)));
    }
  }

  lemma PowJoin(a: nat, b: nat, i: nat, j: nat, i': nat, j': nat)
    requires Pow(a, i) <= Pow(b, j) && Pow(a, i') <= Pow(b, j')
    ensures Pow(a, i + i') <= Pow(b, j + j')
  {
    PowAdd(a, i, i');
    PowAdd(b, j, j');
    ProductMonotone(Pow(a, i), Pow(b, j), Pow(a, i'), Pow(b, j'));
  }

  // ---------- 58^71 <= 256^52 ----------

  lemma Pow18()
    ensures Pow(58, 18) <= 697 * Pow(256, 12)
  {
    assert Pow(58, 9) == 7427658739644928;
    PowAdd(58, 9, 9);
    assert Pow(256, 12) == 79228162514264337593543950336;
  }

  lemma Pow36()
    ensures Pow(58, 36) <= 1898 * Pow(256, 25)
  {
    hide Pow;
    var p, q := Pow(58, 18), Pow(256, 12);
    Pow18();
    PowAdd(58, 18, 18);
    PowAdd(256, 12, 12);
    PowAdd(256, 24, 1);
    PowOne(256);
    ProductMonotone(p, 697 * q, p, 697 * q);
    assert 697 * q * (697 * q) == 485809 * (q * q);
    ProductMonotone(485809, 1898 * 256, q * q, q * q);
  }

  lemma PowOne(b: nat)
    ensures Pow(b, 1) == b && Pow(b, 2) == b * b
  {
    assert Pow(b, 0) == 1;
  }

  lemma Pow71()
    ensures Pow(58, 71) <= Pow(256, 52)
  {
    hide Pow;
    var p, q := Pow(58, 36), Pow(256, 25);
    Pow36();
    PowAdd(58, 36, 36);
    PowAdd(58, 1, 71);
    PowAdd(256, 25, 25);
    PowAdd(256, 50, 2);
    PowOne(58);
    PowOne(256);
    ProductMonotone(p, 1898 * q, p, 1898 * q);
    assert 1898 * q * (1898 * q) == 3602404 * (q * q);
    ProductMonotone(3602404, 58 * 65536, q * q, q * q);
    assert 58 * Pow(58, 71) <= 58 * 65536 * (q * q);
  }

  // ---------- The buffer sizes ----------

  /** Base-58 digits in the size DecodeBase58 allocates bytes for. */
  lemma DecodeRoom(n: nat)
    ensures Pow(58, n) <= Pow(256, n * 733 / 1000 + 1)
  {
    hide Pow;
    var q, r := n / 71, n % 71;
    var a, s := r / 15, r % 15;
    var b, t := s / 4, s % 4;
    Pow71();
    PowScale(58, 256, 71, 52, q);
    SmallDecode();
    PowScale(58, 256, 15, 11, a);
    PowScale(58, 256, 4, 3, b);
    PowScale(58, 256, 1, 1, t);
    PowJoin(58, 256, 71 * q, 52 * q, 15 * a, 11 * a);
    PowJoin(58, 256, 71 * q + 15 * a, 52 * q + 11 * a, 4 * b, 3 * b);
    PowJoin(58, 256, 71 * q + 15 * a + 4 * b, 52 * q + 11 * a + 3 * b, 1 * t, 1 * t);
    var m := 52 * q + 11 * a + 3 * b + t;
    assert n == 71 * q + 15 * a + 4 * b + t;
    DecodeExponent(q, a, b, t);
    PowMonotone(256, m, n * 733 / 1000 + 1);
  }

  lemma SmallDecode()
    ensures Pow(58, 15) <= Pow(256, 11) && Pow(58, 4) <= Pow(256, 3) && Pow(58, 1) <= Pow(256, 1)
  {
  }

  lemma DecodeExponent(q: nat, a: nat, b: nat, t: nat)
    requires a <= 4 && 4 * b + t <= 14 && t <= 3
    ensures 52 * q + 11 * a + 3 * b + t <= (71 * q + 15 * a + 4 * b + t) * 733 / 1000 + 1
  {
  }

  /** Bytes in the size EncodeBase58 allocates base-58 digits for. */
  lemma EncodeRoom(n: nat)
    ensures Pow(256, n) <= Pow(58, n * 138 / 100 + 1)
  {
    hide Pow;
    var q, r := n / 8, n % 8;
    SmallEncode();
    PowScale(256, 58, 8, 11, q);
    var m := r * 138 / 100 + 1;
    EncodeRest(r);
    PowJoin(256, 58, 8 * q, 11 * q, r, m);
    PowMonotone(58, 11 * q + m, n * 138 / 100 + 1);
  }

  lemma SmallEncode()
    ensures Pow(256, 8) <= Pow(58, 11)
  {
  }

  lemma EncodeRest(r: nat)
    requires r < 8
    ensures Pow(256, r) <= Pow(58, r * 138 / 100 + 1)
  {
    if r == 0 { assert Pow(256, 0) <= Pow(58, 1); }
    else if r == 1 { assert Pow(256, 1) <= Pow(58, 2); }
    else if r == 2 { assert Pow(256, 2) <= Pow(58, 3); }
    else if r == 3 { assert Pow(256, 3) <= Pow(58, 5); }
    else if r == 4 { assert Pow(256, 4) <= Pow(58, 6); }
    else if r == 5 { assert Pow(256, 5) <= Pow(58, 7); }
    else if r == 6 { assert Pow(256, 6) <= Pow(58, 9); }
    else { assert Pow(256, 7) <= Pow(58, 10); }
  }

  // ---------- Digits ----------

  predicate Valid(s: seq<nat>, base: nat) {
    forall i :: 0 <= i < |s| ==> s[i] < base
  }

  function Value(s: seq<nat>, base: nat): nat {
    if s == [] then 0 else Value(s[..|s| - 1], base) * base + s[|s| - 1]
  }

  /** The digits of v without leading zeros; none for zero. */
  function Digits(v: nat, base: nat): (s: seq<nat>)
    requires base > 1
    ensures Valid(s, base) && (s == [] <==> v == 0) && (s != [] ==> s[0] > 0)
  {
    if v == 0 then [] else
      Shrinks(v, base);
      Digits(v / base, base) + [v % base]
  }

  lemma {:induction false} ValueDigits(v: nat, base: nat)
    requires base > 1
    ensures Value(Digits(v, base), base) == v
    decreases v
  {
    if v > 0 {
      Shrinks(v, base);
      ValueDigits(v / base, base);
      var s := Digits(v, base);
      assert s[..|s| - 1] == Digits(v / base, base) && s[|s| - 1] == v % base;
      DivMod(v, base);
    }
  }

  lemma {:induction false} DigitsValue(s: seq<nat>, base: nat)
    requires base > 1 && Valid(s, base) && (s != [] ==> s[0] > 0)
    ensures Digits(Value(s, base), base) == s
  {
    if s != [] {
      var n := |s| - 1;
      var front := s[..n];
      DigitsValue(front, base);
      var v := Value(front, base);
      Divide(v, base, s[n]);
      assert s == front + [s[n]];
      if front == [] {
        assert v == 0 && s[n] > 0;
      }
    }
  }

  lemma {:induction false} ValueBound(s: seq<nat>, base: nat)
    requires base > 0 && Valid(s, base)
    ensures Value(s, base) < Pow(base, |s|)
  {
    if s != [] {
      var n := |s| - 1;
      ValueBound(s[..n], base);
      BoundStep(Value(s[..n], base), Pow(base, n), s[n], base);
    }
  }

  lemma BoundStep(v: nat, p: nat, d: nat, base: nat)
    requires v < p && d < base
    ensures v * base + d < base * p
  {
    assert (v + 1) * base <= p * base;
  }

  function Zeros(s: seq<nat>): (z: nat)
    ensures z <= |s| && (forall i :: 0 <= i < z ==> s[i] == 0) && (z < |s| ==> s[z] != 0)
  {
    if s == [] || s[0] != 0 then 0 else 1 + Zeros(s[1..])
  }

  /** Leading zeros do not matter. */
  lemma {:induction false} ValueSkipsZeros(s: seq<nat>, z: nat, base: nat)
    requires z <= |s| && forall i :: 0 <= i < z ==> s[i] == 0
    ensures Value(s, base) == Value(s[z..], base)
    decreases |s|
  {
    if z == |s| {
      AllZero(s, base);
    } else {
      var n := |s| - 1;
      ValueSkipsZeros(s[..n], z, base);
      assert s[z..][..n - z] == s[..n][z..];
    }
  }

  lemma {:induction false} AllZero(s: seq<nat>, base: nat)
    requires forall i :: 0 <= i < |s| ==> s[i] == 0
    ensures Value(s, base) == 0
  {
    if s != [] {
      AllZero(s[..|s| - 1], base);
    }
  }

  /** The digits of a buffer's value are the buffer without its leading zeros. */
  lemma BufferDigits(s: seq<nat>, base: nat)
    requires base > 1 && Valid(s, base)
    ensures s[Zeros(s)..] == Digits(Value(s, base), base)
  {
    ValueSkipsZeros(s, Zeros(s), base);
    DigitsValue(s[Zeros(s)..], base);
  }

  lemma {:induction false} ValueFront(d: nat, s: seq<nat>, base: nat)
    ensures Value([d] + s, base) == d * Pow(base, |s|) + Value(s, base)
  {
    var w := [d] + s;
    if s == [] {
      assert w[..0] == [];
    } else {
      var n := |s| - 1;
      ValueFront(d, s[..n], base);
      assert w[..|w| - 1] == [d] + s[..n];
      FrontStep(d, Pow(base, n), Value(s[..n], base), base);
    }
  }

  lemma FrontStep(d: nat, p: nat, v: nat, base: nat)
    ensures (d * p + v) * base == d * (base * p) + v * base
  {
  }

  /** One pass of the carry loop: the number in the buffer is multiplied and added to in place,
      and no carry is left over. */
  method MultiplyAdd(a: array<nat>, mult: nat, add: nat, base: nat)
    requires base > 1 && Valid(a[..], base) && Value(a[..], base) * mult + add < Pow(base, a.Length)
    modifies a
    ensures Valid(a[..], base) && Value(a[..], base) == Value(old(a[..]), base) * mult + add
  {
    hide Pow, Value;
    ghost var was := a[..];
    var n := a.Length;
    var i := n;
    var carry: nat := add;
    CarryStart(was, mult, add, base);
    assert a[n..] == [] && was[n..] == was[|was|..];
    while i > 0
      invariant 0 <= i <= n
      invariant a[..i] == was[..i] && Valid(a[..], base)
      invariant Value(a[i..], base) + carry * Pow(base, n - i) == Value(was[i..], base) * mult + add
    {
      i := i - 1;
      ghost var done := a[i + 1..];
      var x: nat := carry + mult * a[i];
      CarryStep(was, i, mult, add, base, done, carry);
      a[i] := x % base;
      carry := x / base;
      assert a[i..] == [a[i]] + done;
    }
    assert a[0..] == a[..] && was[0..] == was;
    NoCarry(Value(a[..], base), carry, Pow(base, n));
    assert carry == 0;
  }

  lemma CarryStart(was: seq<nat>, mult: nat, add: nat, base: nat)
    ensures Value(was[|was|..], base) * mult + add == Value([], base) + add * Pow(base, 0)
  {
  }

  lemma CarryStep(was: seq<nat>, i: nat, mult: nat, add: nat, base: nat, done: seq<nat>, carry: nat)
    requires base > 1 && i < |was| && |done| == |was| - i - 1
    requires Value(done, base) + carry * Pow(base, |done|) == Value(was[i + 1..], base) * mult + add
    ensures var x := carry + mult * was[i];
      && 0 <= x / base && x % base < base
      && Value([x % base] + done, base) + x / base * Pow(base, |was| - i) == Value(was[i..], base) * mult + add
  {
    hide Value, Pow;
    ProductSign(mult, was[i]);
    var x := carry + mult * was[i];
    DivMod(x, base);
    DivideShrinks(x, base);
    CarryDigit(was, i, mult, add, base, done, carry, x, x / base, x % base);
  }

  /** The same for any quotient and remainder. */
  lemma CarryDigit(was: seq<nat>, i: nat, mult: nat, add: nat, base: nat, done: seq<nat>, carry: nat, x: int, q: nat, r: nat)
    requires i < |was| && |done| == |was| - i - 1
    requires Value(done, base) + carry * Pow(base, |done|) == Value(was[i + 1..], base) * mult + add
    requires x == carry + mult * was[i] && x == q * base + r
    ensures Value([r] + done, base) + q * Pow(base, |was| - i) == Value(was[i..], base) * mult + add
  {
    hide Value;
    var p := Pow(base, |done|);
    assert was[i..] == [was[i]] + was[i + 1..];
    ValueFront(was[i], was[i + 1..], base);
    ValueFront(r, done, base);
    assert Pow(base, |was| - i) == base * p;
    CarryAlgebra(x, q, r, base, p, carry, mult, was[i], Value(done, base), Value(was[i + 1..], base), add);
  }

  lemma CarryAlgebra(x: int, q: int, r: int, base: int, p: int, carry: int, mult: int, d: int, vd: int, vw: int, add: int)
    requires x == carry + mult * d && x == q * base + r && vd + carry * p == vw * mult + add
    ensures r * p + vd + q * (base * p) == (d * p + vw) * mult + add
  {
    assert q * (base * p) == (q * base) * p;
    assert (q * base) * p + r * p == x * p;
    assert x * p == carry * p + (mult * d) * p;
    assert (d * p + vw) * mult == (mult * d) * p + vw * mult;
  }

  lemma NoCarry(v: nat, carry: nat, p: nat)
    requires v + carry * p < p
    ensures carry == 0
  {
    if carry > 0 {
      ProductMonotone(1, carry, p, p);
    }
  }
}
