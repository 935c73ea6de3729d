/** Variable-length integers, src/serialize.h: base-128 digits, one subtracted from every digit but the last. */
module VarInt {
  import opened Basics

  type Byte = b: int | 0 <= b < 256

  /** The lowest digit of n. */
  function Digit(n: nat, marked: bool): Byte {
    n % 128 + if marked then 128 else 0
  }

  /** The bytes of n; marked when more bytes follow. */
  function Digits(n: nat, marked: bool): (s: seq<Byte>)
    ensures 0 < |s|
    decreases n
  {
    if n <= 127 then [Digit(n, marked)] else Digits(n / 128 - 1, true) + [Digit(n, marked)]
  }

  /** What WriteVarInt emits for a value of a signed type: a negative value passes the test for
      the last digit at once and leaves one byte. */
  function Encode(n: int): (s: seq<Byte>)
    ensures 0 < |s|
  {
    if n < 0 then [n % 128] else Digits(n, false)
  }

  /** Reduction to an unsigned type of the given number of values. */
  function Wrap(n: nat, values: nat): (r: nat)
    requires values > 0
    ensures r < values
    ensures n < values ==> r == n
  {
    if n < values then n else n % values
  }

  /** ReadVarInt into an unsigned type of the given number of values, from the digits read so far. */
  function Read(s: seq<Byte>, n: nat, values: nat): Option<(nat, seq<Byte>)>
    requires values > 0
    decreases |s|
  {
    if s == [] then None
    else
      var m := Wrap(n * 128, values) + s[0] % 128;
      if s[0] >= 128 then Read(s[1..], Wrap(m + 1, values), values) else Some((m, s[1..]))
  }

  function Decode(s: seq<Byte>, values: nat): Option<(nat, seq<Byte>)>
    requires values > 0
  {
    Read(s, 0, values)
  }

  function Reverse(s: seq<Byte>): (r: seq<Byte>) {
    if s == [] then [] else [s[|s| - 1]] + Reverse(s[..|s| - 1])
  }

  lemma ReversePush(s: seq<Byte>, b: Byte)
    ensures Reverse(s + [b]) == [b] + Reverse(s)
  {
    assert (s + [b])[..|s|] == s;
  }

  /** WriteVarInt: digits are collected from the least significant one and written backwards. */
  method WriteVarInt(n: int) returns (out: seq<Byte>)
    ensures out == Encode(n)
  {
    if n < 0 {
      return [n % 128];
    }
    var tmp := Collect(n);
    out := [];
    var len := |tmp|;
    assert tmp[..len] == tmp;
    while len > 0
      invariant 0 <= len <= |tmp|
      invariant out + Reverse(tmp[..len]) == Reverse(tmp)
    {
      ReversePush(tmp[..len - 1], tmp[len - 1]);
      assert tmp[..len] == tmp[..len - 1] + [tmp[len - 1]];
      out := out + [tmp[len - 1]];
      len := len - 1;
    }
  }

  /** The first loop of WriteVarInt. */
  method Collect(n: nat) returns (tmp: seq<Byte>)
    ensures Reverse(tmp) == Digits(n, false)
  {
    tmp := [];
    var rest := n;
    while rest > 127
      invariant rest >= 0
      invariant Digits(n, false) == Digits(rest, tmp != []) + Reverse(tmp)
    {
      var digit := Digit(rest, tmp != []);
      ReversePush(tmp, digit);
      tmp := tmp + [digit];
      rest := rest / 128 - 1;
    }
    ReversePush(tmp, Digit(rest, tmp != []));
    tmp := tmp + [Digit(rest, tmp != [])];
  }

  method ReadVarInt(s: seq<Byte>, values: nat) returns (r: Option<(nat, seq<Byte>)>)
    requires values > 0
    ensures r == Decode(s, values)
  {
    var n: nat, i := 0, 0;
    while i < |s|
      invariant 0 <= i <= |s|
      invariant Decode(s, values) == Read(s[i..], n, values)
    {
      assert s[i..][1..] == s[i + 1..];
      n := Wrap(n * 128, values) + s[i] % 128;
      if s[i] >= 128 {
        n := Wrap(n + 1, values);
        i := i + 1;
      } else {
        return Some((n, s[i + 1..]));
      }
    }
    return None;
  }

  // ---------- Every number has one encoding, and it is read back ----------

  /** The width holds whole low digits, as every width from eight bits up does. */
  predicate Width(values: nat) {
    values >= 256 && values % 128 == 0
  }

  lemma ReadStep(b: Byte, rest: seq<Byte>, n: nat, values: nat)
    requires values > n * 128 + b % 128 + 1
    ensures Read([b] + rest, n, values)
      == if b >= 128 then Read(rest, n * 128 + b % 128 + 1, values) else Some((n * 128 + b % 128, rest))
  {
    assert ([b] + rest)[1..] == rest;
  }

  lemma ReadLast(b: Byte, rest: seq<Byte>, n: nat, values: nat)
    requires values > n * 128 + b && b < 128
    ensures Read([b] + rest, n, values) == Some((n * 128 + b, rest))
  {
    assert ([b] + rest)[1..] == rest;
  }

  /** Reading marked digits of m and then going on is going on from m + 1. */
  lemma {:induction false} ReadDigits(m: nat, rest: seq<Byte>, values: nat)
    requires Width(values) && m + 1 < values
    ensures Read(Digits(m, true) + rest, 0, values) == Read(rest, m + 1, values)
    decreases m
  {
    hide Read, Wrap;
    if m <= 127 {
      ReadStep(m + 128, rest, 0, values);
    } else {
      var q, last := m / 128 - 1, m % 128 + 128;
      assert Digits(m, true) + rest == Digits(q, true) + ([last] + rest);
      ReadDigits(q, [last] + rest, values);
      ReadStep(last, rest, q + 1, values);
    }
  }

  /** Encode and Decode are inverse on the numbers the type holds, whatever follows. */
  lemma {:induction false} DecodeEncode(n: nat, rest: seq<Byte>, values: nat)
    requires Width(values) && n < values
    ensures Decode(Encode(n) + rest, values) == Some((n, rest))
  {
    hide Read, Wrap;
    if n <= 127 {
      ReadLast(n, rest, 0, values);
    } else {
      var q, last := n / 128 - 1, n % 128;
      assert Encode(n) + rest == Digits(q, true) + ([last] + rest);
      ReadDigits(q, [last] + rest, values);
      ReadLast(last, rest, q + 1, values);
    }
  }

  /** A value of a signed type comes back exactly when it is not negative. */
  lemma SignedRoundTrip(n: int, rest: seq<Byte>, values: nat)
    requires Width(values) && n < values
    ensures Decode(Encode(n) + rest, values) == Some((n, rest)) <==> n >= 0
  {
    if n >= 0 {
      DecodeEncode(n, rest, values);
    } else {
      var s := Encode(n) + rest;
      assert s[1..] == rest && s[0] == n % 128;
      assert Decode(s, values) == Some((n % 128, rest));
    }
  }

  /** The value of the digits read from s, with no limit on the width. */
  function Value(s: seq<Byte>): nat {
    if s == [] then 0
    else Value(s[..|s| - 1]) * 128 + s[|s| - 1] % 128 + if s[|s| - 1] >= 128 then 1 else 0
  }

  predicate Marked(s: seq<Byte>, m: nat)
    requires m <= |s|
  {
    forall k :: 0 <= k < m ==> s[k] >= 128
  }

  /** Every byte sequence of marked digits is the encoding of its value: no redundancy. */
  lemma {:induction false} DigitsOfValue(s: seq<Byte>)
    requires 0 < |s| && Marked(s, |s|)
    ensures Value(s) > 0 && Digits(Value(s) - 1, true) == s
  {
    var front, last := s[..|s| - 1], s[|s| - 1];
    if front == [] {
      assert Value(front) == 0;
      assert s == [last];
    } else {
      DigitsOfValue(front);
      var v := Value(s) - 1;
      assert v == Value(front) * 128 + last % 128;
      assert v / 128 == Value(front) && v % 128 == last % 128;
      assert s == front + [last];
    }
  }

  /** Every encoded sequence - marked bytes and one unmarked byte - is the encoding of exactly one
      number, and that is the number read from it. */
  lemma {:induction false} EncodeDecode(s: seq<Byte>, rest: seq<Byte>, values: nat)
    requires Width(values) && 0 < |s| && Marked(s, |s| - 1) && s[|s| - 1] < 128 && Value(s) < values
    ensures Encode(Value(s)) == s
    ensures Decode(s + rest, values) == Some((Value(s), rest))
    ensures forall n: nat :: Encode(n) == s ==> n == Value(s)
  {
    var front, last := s[..|s| - 1], s[|s| - 1];
    if front == [] {
      assert Value(front) == 0;
      assert s == [last];
    } else {
      DigitsOfValue(front);
      var v := Value(s);
      assert v / 128 == Value(front) && v % 128 == last;
      assert s == front + [last];
    }
    DecodeEncode(Value(s), rest, values);
    forall n: nat | Encode(n) == s ensures n == Value(s) {
      var wide := 128 * (n + Value(s) + 2);
      DecodeEncode(n, rest, wide);
      DecodeEncode(Value(s), rest, wide);
    }
  }
}
