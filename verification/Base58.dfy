/** Base-58 text for byte strings, with and without a checksum: src/base58.cpp. Digits and the carry
    loop are in `Radix`. */
module Base58 {
  import opened Basics
  import opened Radix

  type Byte = b: nat | b < 256
  type Bytes = seq<Byte>

  // ---------- The alphabet ----------

  /** Alphanumeric characters without 0, I, O and l. */
  function CharOf(d: nat): (c: char)
    requires d < 58
    ensures DigitOf(c) == Some(d) && !Space(c) && (c == '1' <==> d == 0) && c != '\0'
  {
    if d < 9 then '1' + d as char
    else if d < 17 then 'A' + (d - 9) as char
    else if d < 22 then 'J' + (d - 17) as char
    else if d < 33 then 'P' + (d - 22) as char
    else if d < 44 then 'a' + (d - 33) as char
    else 'm' + (d - 44) as char
  }

  function DigitOf(c: char): (d: Option<nat>)
    ensures d.Some? ==> d.value < 58
  {
    if '1' <= c <= '9' then Some((c - '1') as nat)
    else if 'A' <= c <= 'H' then Some(9 + (c - 'A') as nat)
    else if 'J' <= c <= 'N' then Some(17 + (c - 'J') as nat)
    else if 'P' <= c <= 'Z' then Some(22 + (c - 'P') as nat)
    else if 'a' <= c <= 'k' then Some(33 + (c - 'a') as nat)
    else if 'm' <= c <= 'z' then Some(44 + (c - 'm') as nat)
    else None
  }

  /** isspace. */
  predicate Space(c: char) {
    c == ' ' || '\t' <= c <= '\r'
  }

  lemma SpaceChars(c: char)
    ensures Space(c) <==> c in " \t\n\U{000B}\U{000C}\r"
  {
  }

  lemma CharOfDigit(c: char)
    ensures DigitOf(c).Some? ==> CharOf(DigitOf(c).value) == c
  {
  }

  /** The characters in the order of their values. */
  lemma Alphabet(d: nat)
    requires d < 58
    ensures CharOf(d) ==
      if d < 9 then "123456789"[d]
      else if d < 17 then "ABCDEFGH"[d - 9]
      else if d < 22 then "JKLMN"[d - 17]
      else if d < 33 then "PQRSTUVWXYZ"[d - 22]
      else if d < 44 then "abcdefghijk"[d - 33]
      else "mnopqrstuvwxyz"[d - 44]
  {
  }

  function Chars(d: seq<nat>): (s: string)
    requires Valid(d, 58)
    ensures |s| == |d|
  {
    seq(|d|, i requires 0 <= i < |d| => CharOf(d[i]))
  }

  predicate Alphabetic(s: string) {
    forall i :: 0 <= i < |s| ==> DigitOf(s[i]).Some?
  }

  function DigitsOf(s: string): (d: seq<nat>)
    requires Alphabetic(s)
    ensures |d| == |s| && Valid(d, 58)
  {
    seq(|s|, i requires 0 <= i < |s| => DigitOf(s[i]).value)
  }

  lemma CharsDigits(d: seq<nat>)
    requires Valid(d, 58)
    ensures Alphabetic(Chars(d)) && DigitsOf(Chars(d)) == d
  {
  }

  lemma DigitsChars(s: string)
    requires Alphabetic(s)
    ensures Chars(DigitsOf(s)) == s
  {
    forall i | 0 <= i < |s| ensures Chars(DigitsOf(s))[i] == s[i] {
      CharOfDigit(s[i]);
    }
  }

  function Repeat<T>(c: T, n: nat): (s: seq<T>)
    ensures |s| == n
  {
    seq(n, _ => c)
  }

  // ---------- Encoding and decoding ----------

  function Encode(b: Bytes): string {
    Repeat('1', Zeros(b)) + Chars(Digits(Value(b, 256), 58))
  }

  /** How many characters from the start satisfy the test. */
  function Spaces(s: string): (n: nat)
    ensures n <= |s| && (forall i :: 0 <= i < n ==> Space(s[i])) && (n < |s| ==> !Space(s[n]))
  {
    if s == [] || !Space(s[0]) then 0 else 1 + Spaces(s[1..])
  }

  function Ones(s: string): (n: nat)
    ensures n <= |s| && (forall i :: 0 <= i < n ==> s[i] == '1') && (n < |s| ==> s[n] != '1')
  {
    if s == [] || s[0] != '1' then 0 else 1 + Ones(s[1..])
  }

  function Token(s: string): (n: nat)
    ensures n <= |s| && (forall i :: 0 <= i < n ==> !Space(s[i])) && (n < |s| ==> Space(s[n]))
  {
    if s == [] || Space(s[0]) then 0 else 1 + Token(s[1..])
  }

  /** The characters up to the terminating zero. */
  function CString(s: string): (r: string)
    ensures r <= s && '\0' !in r
    ensures '\0' !in s ==> r == s
  {
    if s == [] || s[0] == '\0' then [] else [s[0]] + CString(s[1..])
  }

  function AsBytes(d: seq<nat>): (b: Bytes)
    requires Valid(d, 256)
    ensures |b| == |d| && b == d
  {
    seq(|d|, i requires 0 <= i < |d| => d[i])
  }

  /** DecodeBase58 after the leading spaces. */
  function DecodeWord(t: string): Option<Bytes> {
    var z := Ones(t);
    var u := t[z..];
    var n := Token(u);
    if !Alphabetic(u[..n]) || Spaces(u[n..]) != |u| - n then None
    else Some(Repeat(0, z) + AsBytes(Digits(Value(DigitsOf(u[..n]), 58), 256)))
  }

  function Decode(s: string): Option<Bytes> {
    var t := CString(s);
    DecodeWord(t[Spaces(t)..])
  }

  /** The bytes after the leading zeros are the digits of the whole. */
  lemma BytesOfValue(b: Bytes)
    ensures AsBytes(Digits(Value(b, 256), 256)) == b[Zeros(b)..]
  {
    BufferDigits(b, 256);
  }

  lemma {:induction false} OnesOf(z: nat, s: string)
    requires s == [] || s[0] != '1'
    ensures Ones(Repeat('1', z) + s) == z
    decreases z
  {
    var t := Repeat('1', z) + s;
    if z == 0 {
      assert t == s;
    } else {
      assert t[1..] == Repeat('1', z - 1) + s;
      OnesOf(z - 1, s);
    }
  }

  lemma TokenAll(s: string)
    requires forall i :: 0 <= i < |s| ==> !Space(s[i])
    ensures Token(s) == |s| && Spaces(s) == 0
  {
  }

  lemma EncodedParts(b: Bytes)
    ensures var t, z, d := Encode(b), Zeros(b), Digits(Value(b, 256), 58);
      && CString(t) == t && Spaces(t) == 0
      && Ones(t) == z && t[z..] == Chars(d) && Token(Chars(d)) == |d|
      && Alphabetic(Chars(d)) && DigitsOf(Chars(d)) == d
  {
    hide Digits, Value, Ones, Token, Spaces, CString, Zeros;
    var z, d := Zeros(b), Digits(Value(b, 256), 58);
    var t := Encode(b);
    CharsDigits(d);
    FirstNotOne(d);
    OnesOf(z, Chars(d));
    TokenAll(t);
    TokenAll(Chars(d));
  }

  /** Decoding what was encoded gives the bytes back, for every byte string. */
  lemma DecodeEncode(b: Bytes)
    ensures Decode(Encode(b)) == Some(b)
  {
    hide Digits, Value, Ones, Token, Spaces, CString, Encode, Zeros, Chars, DigitsOf, Alphabetic;
    var z, d := Zeros(b), Digits(Value(b, 256), 58);
    var t := Encode(b);
    EncodedParts(b);
    assert t[0..] == t && Chars(d)[..|d|] == Chars(d) && Chars(d)[|d|..] == [];
    TokenAll([]);
    ValueDigits(Value(b, 256), 58);
    BytesOfValue(b);
    assert Repeat(0, z) + b[z..] == b;
  }

  lemma FirstNotOne(d: seq<nat>)
    requires Valid(d, 58) && (d != [] ==> d[0] > 0)
    ensures Chars(d) != [] ==> Chars(d)[0] != '1'
  {
  }

  /** The text that is decoded: leading and trailing spaces taken off. */
  function Stripped(s: string): string {
    var t := CString(s);
    var w := t[Spaces(t)..];
    w[..Token(w)]
  }

  lemma {:induction false} ZerosUnique(b: seq<nat>, z: nat)
    requires z <= |b| && (forall i :: 0 <= i < z ==> b[i] == 0) && (z < |b| ==> b[z] != 0)
    ensures Zeros(b) == z
    decreases z
  {
    if z > 0 {
      ZerosUnique(b[1..], z - 1);
    }
  }

  lemma {:induction false} TokenOfOnes(t: string)
    ensures Token(t) == Ones(t) + Token(t[Ones(t)..])
    ensures t[..Token(t)] == Repeat('1', Ones(t)) + t[Ones(t)..][..Token(t[Ones(t)..])]
    decreases |t|
  {
    if t != [] && t[0] == '1' {
      TokenOfOnes(t[1..]);
      assert t[1..][Ones(t[1..])..] == t[Ones(t)..];
    }
  }

  /** Encoding what was decoded gives the text back without the spaces around it; so it gives the
      very text exactly when that has no space and no terminating zero. */
  lemma EncodeDecode(s: string)
    requires Decode(s).Some?
    ensures Encode(Decode(s).value) == Stripped(s)
    ensures Encode(Decode(s).value) == s <==> forall c :: c in s ==> !Space(c) && c != '\0'
  {
    var t := CString(s);
    var w := t[Spaces(t)..];
    EncodeWord(w);
    StrippedExact(s);
  }

  lemma EncodeWord(w: string)
    requires DecodeWord(w).Some?
    ensures Encode(DecodeWord(w).value) == w[..Token(w)]
  {
    hide Digits, Value, Ones, Token, Spaces, Zeros;
    var z := Ones(w);
    var u := w[z..];
    var x := u[..Token(u)];
    var d := DigitsOf(x);
    var v := Value(d, 58);
    var rest := AsBytes(Digits(v, 256));
    var b := DecodeWord(w).value;
    assert b == Repeat(0, z) + rest;
    ZerosUnique(b, z);
    ValueSkipsZeros(b, z, 256);
    assert b[z..] == rest;
    ValueDigits(v, 256);
    assert d != [] ==> d[0] > 0;
    DigitsValue(d, 58);
    DigitsChars(x);
    TokenOfOnes(w);
  }

  lemma StrippedExact(s: string)
    ensures Stripped(s) == s <==> forall c :: c in s ==> !Space(c) && c != '\0'
  {
    var t := CString(s);
    var w := t[Spaces(t)..];
    if forall c :: c in s ==> !Space(c) && c != '\0' {
      assert t == s;
      TokenAll(s);
      assert s[0..] == s && s[..|s|] == s;
    }
    if Stripped(s) == s {
      assert |t| == |s| && |w| == |t| && Token(w) == |w|;
      assert t == s && w == s;
      forall c | c in s ensures !Space(c) && c != '\0' {
        var i :| 0 <= i < |s| && s[i] == c;
        assert !Space(w[i]);
      }
    }
  }

  // ---------- The methods ----------

  method EncodeBase58(b: Bytes) returns (str: string)
    ensures str == Encode(b)
  {
    hide Value, Digits;
    var zeroes := 0;
    while zeroes < |b| && b[zeroes] == 0
      invariant 0 <= zeroes <= |b| && forall i :: 0 <= i < zeroes ==> b[i] == 0
    {
      zeroes := zeroes + 1;
    }
    ZerosUnique(b, zeroes);
    var rest := b[zeroes..];
    var b58 := new nat[|rest| * 138 / 100 + 1](_ => 0);
    EncodeRoom(|rest|);
    var k := 0;
    EmptyValue(b58[..], 58);
    while k < |rest|
      invariant 0 <= k <= |rest|
      invariant Valid(b58[..], 58) && Value(b58[..], 58) == Value(rest[..k], 256)
    {
      PrefixFits(rest, k, 256, Pow(58, b58.Length));
      MultiplyAdd(b58, 256, rest[k], 58);
      k := k + 1;
    }
    assert rest[..k] == rest;
    ValueSkipsZeros(b, zeroes, 256);
    var digits := SkipZeros(b58, 58);
    str := Translate(zeroes, digits);
  }

  lemma EmptyValue(s: seq<nat>, base: nat)
    requires forall i :: 0 <= i < |s| ==> s[i] == 0
    ensures Value(s, base) == Value([], 256) == 0
  {
    AllZero(s, base);
  }

  /** The number read so far and the next digit stay below the bound for the whole input. */
  lemma PrefixFits(s: seq<nat>, k: nat, base: nat, bound: nat)
    requires base > 0 && Valid(s, base) && k < |s| && Pow(base, |s|) <= bound
    ensures Value(s[..k], base) * base + s[k] == Value(s[..k + 1], base) < bound
  {
    assert s[..k + 1][..k] == s[..k];
    ValueBound(s[..k + 1], base);
    PowMonotone(base, k + 1, |s|);
  }

  /** The buffer from its first non-zero digit. */
  method SkipZeros(a: array<nat>, base: nat) returns (digits: seq<nat>)
    requires base > 1 && Valid(a[..], base)
    ensures digits == Digits(Value(a[..], base), base)
  {
    var it := 0;
    while it < a.Length && a[it] == 0
      invariant 0 <= it <= a.Length && forall i :: 0 <= i < it ==> a[i] == 0
    {
      it := it + 1;
    }
    ZerosUnique(a[..], it);
    BufferDigits(a[..], base);
    digits := a[it..];
  }

  method Translate(zeroes: nat, digits: seq<nat>) returns (str: string)
    requires Valid(digits, 58)
    ensures str == Repeat('1', zeroes) + Chars(digits)
  {
    str := Repeat('1', zeroes);
    var i := 0;
    while i < |digits|
      invariant 0 <= i <= |digits| && str == Repeat('1', zeroes) + Chars(digits)[..i]
    {
      str := str + [CharOf(digits[i])];
      i := i + 1;
    }
  }

  lemma {:induction false} SpacesUnique(s: string, n: nat)
    requires n <= |s| && (forall i :: 0 <= i < n ==> Space(s[i])) && (n < |s| ==> !Space(s[n]))
    ensures Spaces(s) == n
    decreases n
  {
    if n > 0 {
      SpacesUnique(s[1..], n - 1);
    }
  }

  lemma {:induction false} OnesUnique(s: string, n: nat)
    requires n <= |s| && (forall i :: 0 <= i < n ==> s[i] == '1') && (n < |s| ==> s[n] != '1')
    ensures Ones(s) == n
    decreases n
  {
    if n > 0 {
      OnesUnique(s[1..], n - 1);
    }
  }

  lemma {:induction false} TokenAtLeast(s: string, n: nat)
    requires n <= |s| && forall i :: 0 <= i < n ==> !Space(s[i])
    ensures Token(s) >= n && (n == |s| || Space(s[n]) ==> Token(s) == n)
    decreases n
  {
    if n > 0 {
      TokenAtLeast(s[1..], n - 1);
    }
  }

  method DecodeBase58(str: string) returns (vch: Option<Bytes>)
    ensures vch == Decode(str)
  {
    hide Value, Digits, Ones, Token, Spaces, CString, Alphabetic, DigitsOf;
    var psz := CString(str);
    var i := 0;
    while i < |psz| && Space(psz[i])
      invariant 0 <= i <= |psz| && forall j :: 0 <= j < i ==> Space(psz[j])
    {
      i := i + 1;
    }
    SpacesUnique(psz, i);
    var word := psz[i..];
    var zeroes := 0;
    while zeroes < |word| && word[zeroes] == '1'
      invariant 0 <= zeroes <= |word| && forall j :: 0 <= j < zeroes ==> word[j] == '1'
    {
      zeroes := zeroes + 1;
    }
    OnesUnique(word, zeroes);
    var u := word[zeroes..];
    var n, digits := DecodeDigits(u);
    if digits.None? {
      return None;
    }
    var end := n;
    while end < |u| && Space(u[end])
      invariant n <= end <= |u| && forall j :: n <= j < end ==> Space(u[j])
    {
      end := end + 1;
    }
    SpacesUnique(u[n..], end - n);
    if end != |u| {
      return None;
    }
    return Some(Repeat(0, zeroes) + AsBytes(digits.value));
  }

  /** The conversion loop: how far it got, and the bytes of the number, None at a character outside
      the alphabet. */
  method DecodeDigits(u: string) returns (n: nat, digits: Option<seq<nat>>)
    ensures digits.None? <==> !Alphabetic(u[..Token(u)])
    ensures digits.Some? ==> n == Token(u) && digits.value == Digits(Value(DigitsOf(u[..n]), 58), 256)
  {
    hide Value, Digits, Token;
    var b256 := new nat[|u| * 733 / 1000 + 1](_ => 0);
    DecodeRoom(|u|);
    n := 0;
    EmptyValue(b256[..], 256);
    EmptyValue([], 58);
    assert DigitsOf(u[..0]) == [];
    while n < |u| && !Space(u[n])
      invariant 0 <= n <= |u| && Alphabetic(u[..n]) && forall j :: 0 <= j < n ==> !Space(u[j])
      invariant Valid(b256[..], 256) && Value(b256[..], 256) == Value(DigitsOf(u[..n]), 58)
    {
      TokenAtLeast(u, n + 1);
      var ch := DigitOf(u[n]);
      if ch.None? {
        assert DigitOf(u[..Token(u)][n]) == None;
        return n, None;
      }
      var so := DigitsOf(u[..n + 1]);
      assert so[..n] == DigitsOf(u[..n]);
      PowMonotone(58, n + 1, |u|);
      PrefixFits(so, n, 58, Pow(256, b256.Length));
      assert so[..n + 1] == so;
      MultiplyAdd(b256, 58, ch.value, 256);
      n := n + 1;
    }
    TokenAtLeast(u, n);
    var tail := SkipZeros(b256, 256);
    return n, Some(tail);
  }

  // ---------- With a checksum ----------

  /** A hash of at least four bytes; nothing else is needed of it. */
  ghost predicate HashOk(hash: Bytes -> Bytes) {
    forall b: Bytes :: |hash(b)| >= 4
  }

  function EncodeCheck(hash: Bytes -> Bytes, b: Bytes): string
    requires |hash(b)| >= 4
  {
    Encode(b + hash(b)[..4])
  }

  function DecodeCheck(hash: Bytes -> Bytes, s: string): Option<Bytes>
    requires forall b: Bytes :: |hash(b)| >= 4
  {
    match Decode(s)
    case None => None
    case Some(v) =>
      if |v| < 4 then None
      else
        var body := v[..|v| - 4];
        if hash(body)[..4] != v[|v| - 4..] then None else Some(body)
  }

  /** Decoding takes off exactly the checksum that encoding put on, for any hash. */
  lemma CheckRoundTrip(hash: Bytes -> Bytes, b: Bytes)
    requires HashOk(hash)
    ensures DecodeCheck(hash, EncodeCheck(hash, b)) == Some(b)
  {
    hide Encode, Decode;
    var v := b + hash(b)[..4];
    DecodeEncode(v);
    assert v[..|v| - 4] == b && v[|v| - 4..] == hash(b)[..4];
  }

  /** What is accepted is the encoding of the bytes returned, but for the spaces around it; the rest
      of the decodable text is refused. */
  lemma CheckExact(hash: Bytes -> Bytes, s: string, b: Bytes)
    requires HashOk(hash)
    ensures DecodeCheck(hash, s) == Some(b) <==> Decode(s).Some? && EncodeCheck(hash, b) == Stripped(s)
  {
    hide Encode, Decode, Stripped;
    var v := b + hash(b)[..4];
    if Decode(s).Some? {
      EncodeDecode(s);
      var w := Decode(s).value;
      if DecodeCheck(hash, s) == Some(b) {
        assert w == v;
      }
      if Encode(v) == Encode(w) {
        DecodeEncode(v);
        DecodeEncode(w);
        assert v[..|v| - 4] == b && v[|v| - 4..] == hash(b)[..4];
      }
    }
  }

  method EncodeBase58Check(hash: Bytes -> Bytes, b: Bytes) returns (str: string)
    requires |hash(b)| >= 4
    ensures str == EncodeCheck(hash, b)
  {
    var vch := b + hash(b)[..4];
    str := EncodeBase58(vch);
  }

  method DecodeBase58Check(hash: Bytes -> Bytes, str: string) returns (vch: Option<Bytes>)
    requires HashOk(hash)
    ensures vch == DecodeCheck(hash, str)
  {
    hide Decode;
    vch := DecodeBase58(str);
    if vch.None? || |vch.value| < 4 {
      return None;
    }
    var v := vch.value;
    if hash(v[..|v| - 4])[..4] != v[|v| - 4..] {
      return None;
    }
    return Some(v[..|v| - 4]);
  }
}
