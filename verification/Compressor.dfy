/** Compact encodings of amounts, scripts and outputs: src/compressor.cpp and src/compressor.h. */
module Compressor {
  import opened Basics
  import opened VarInt

  const U64 := 0x1_0000_0000_0000_0000
  const U32 := 0x1_0000_0000
  const COIN := 100_000_000
  const MAX_MONEY_OUT := 21148191990 * COIN

  // ---------- Amounts ----------

  /** n without its trailing decimal zeros, at most 9 - e of them, and e plus their number. */
  function Strip(n: nat, e: nat): (r: (nat, nat))
    requires n > 0 && e <= 9
    ensures r.0 > 0 && e <= r.1 <= 9
    ensures r.1 < 9 ==> r.0 % 10 != 0
  {
    if n % 10 == 0 && e < 9 then Strip(n / 10, e + 1) else (n, e)
  }

  /** The code for a stripped amount m with e zeros taken off. */
  function Code(m: nat, e: nat): nat
    requires m > 0
  {
    if e < 9 then 1 + (m / 10 * 9 + m % 10 - 1) * 10 + e else 1 + (m - 1) * 10 + 9
  }

  function Compress(n: nat): nat {
    if n == 0 then 0 else var (m, e) := Strip(n, 0); Code(m, e)
  }

  /** The stripped amount a code stands for, and its number of zeros. */
  function Parts(x: nat): (r: (nat, nat))
    requires x > 0
    ensures r.0 > 0 && r.1 <= 9
  {
    var y := (x - 1) / 10;
    var e := (x - 1) % 10;
    (if e < 9 then y / 9 * 10 + y % 9 + 1 else y + 1, e)
  }

  function Scale(n: nat, e: nat): (r: nat)
    ensures n > 0 ==> r > 0
    decreases e
  {
    if e == 0 then n else Scale(n * 10, e - 1)
  }

  function Decompress(x: nat): nat {
    if x == 0 then 0 else var (m, e) := Parts(x); Scale(m, e)
  }

  /** Reduction to 64 bits. */
  function Wrap64(n: nat): (r: nat)
    ensures r < U64
    ensures n < U64 ==> r == n
  {
    n % U64
  }

  lemma WrapPlus(n: nat, k: nat)
    ensures Wrap64(Wrap64(n) + k) == Wrap64(n + k)
  {
  }

  /** CompressAmount on 64-bit words. */
  method CompressAmount(amount: nat) returns (x: nat)
    requires amount < U64
    ensures x == Wrap64(Compress(amount))
  {
    if amount == 0 {
      return 0;
    }
    var n, e := amount, 0;
    while n % 10 == 0 && e < 9
      invariant 0 < n <= amount && 0 <= e <= 9
      invariant Strip(n, e) == Strip(amount, 0)
    {
      n := n / 10;
      e := e + 1;
    }
    if e < 9 {
      var d := n % 10;
      assert 1 <= d <= 9;
      n := n / 10;
      WrapPlus((n * 9 + d - 1) * 10, 1 + e);
      x := Wrap64(Wrap64((n * 9 + d - 1) * 10) + 1 + e);
    } else {
      WrapPlus((n - 1) * 10, 10);
      x := Wrap64(Wrap64((n - 1) * 10) + 10);
    }
  }

  /** DecompressAmount on 64-bit words. */
  method DecompressAmount(code: nat) returns (n: nat)
    requires code < U64
    ensures n == Wrap64(Decompress(code))
  {
    if code == 0 {
      return 0;
    }
    var x := code - 1;
    var e := x % 10;
    x := x / 10;
    if e < 9 {
      var d := x % 9 + 1;
      x := x / 9;
      n := x * 10 + d;
    } else {
      n := x + 1;
    }
    assert (n, e) == Parts(code);
    ghost var exact := n;
    while e > 0
      invariant 0 <= e <= 9
      invariant Scale(exact, e) == Decompress(code)
      invariant n == Wrap64(exact)
    {
      WrapTimesTen(exact);
      n := Wrap64(n * 10);
      exact := exact * 10;
      e := e - 1;
    }
  }

  lemma WrapTimesTen(n: nat)
    ensures Wrap64(Wrap64(n) * 10) == Wrap64(n * 10)
  {
    var q := n / U64;
    assert n * 10 == n % U64 * 10 + q * 10 * U64;
    WrapPeriod(n % U64 * 10, q * 10);
  }

  lemma WrapPeriod(n: nat, k: nat)
    ensures (n + k * U64) % U64 == n % U64
  {
  }

  lemma {:induction false} StripScale(n: nat, e: nat)
    requires n > 0 && e <= 9
    ensures var (m, f) := Strip(n, e); Scale(m, f - e) == n
  {
    if n % 10 == 0 && e < 9 {
      StripScale(n / 10, e + 1);
      var (m, f) := Strip(n / 10, e + 1);
      ScaleStep(m, f - e - 1);
    }
  }

  lemma {:induction false} ScaleStep(n: nat, e: nat)
    ensures Scale(n, e + 1) == Scale(n, e) * 10
    decreases e
  {
    if e > 0 {
      ScaleStep(n * 10, e - 1);
    }
  }

  lemma StripStep(n: nat, e: nat)
    requires n > 0 && e < 9
    ensures Strip(n * 10, e) == Strip(n, e + 1)
  {
    assert n * 10 % 10 == 0 && n * 10 / 10 == n;
  }

  lemma {:induction false} ScaleStrip(m: nat, k: nat, e: nat)
    requires m > 0 && e + k <= 9 && (e + k < 9 ==> m % 10 != 0)
    ensures Strip(Scale(m, k), e) == (m, e + k)
  {
    if k > 0 {
      ScaleStep(m, k - 1);
      ScaleStrip(m, k - 1, e + 1);
      StripStep(Scale(m, k - 1), e);
    }
  }

  lemma CodeParts(m: nat, e: nat)
    requires m > 0 && e <= 9 && (e < 9 ==> m % 10 != 0)
    ensures Code(m, e) > 0 && Parts(Code(m, e)) == (m, e)
  {
    if e < 9 {
      var y := m / 10 * 9 + m % 10 - 1;
      assert y / 9 == m / 10 && y % 9 == m % 10 - 1;
      assert Code(m, e) - 1 == y * 10 + e;
    }
  }

  lemma PartsCode(x: nat)
    requires x > 0
    ensures var (m, e) := Parts(x); (e < 9 ==> m % 10 != 0) && Code(m, e) == x
  {
  }

  /** Decompress undoes Compress on every natural number, */
  lemma DecompressCompress(n: nat)
    ensures Decompress(Compress(n)) == n
  {
    if n > 0 {
      var (m, e) := Strip(n, 0);
      CodeParts(m, e);
      StripScale(n, 0);
    }
  }

  /** and Compress undoes Decompress: the two are bijections of the natural numbers. */
  lemma CompressDecompress(x: nat)
    ensures Compress(Decompress(x)) == x
  {
    if x > 0 {
      var (m, e) := Parts(x);
      PartsCode(x);
      ScaleStrip(m, e, 0);
    }
  }

  // ---------- Amounts in 64 bits ----------

  /** Code and back in 64-bit words, as an output stored and read again goes. */
  function ThereAndBack(n: nat): nat {
    Wrap64(Decompress(Wrap64(Compress(n))))
  }

  lemma {:induction false} StripShrinks(n: nat, e: nat)
    requires n > 0 && e <= 9
    ensures var (m, f) := Strip(n, e); m <= n && (f > e ==> m * 10 <= n)
  {
    if n % 10 == 0 && e < 9 {
      StripShrinks(n / 10, e + 1);
    }
  }

  lemma CompressBound(n: nat)
    ensures Compress(n) <= 9 * n + 1
    ensures n % 10 == 0 ==> Compress(n) <= n + 10
  {
    if n > 0 {
      StripShrinks(n, 0);
      var (m, e) := Strip(n, 0);
      assert m > 0;
    }
  }

  /** No 64-bit wrap-around while nine times the amount fits. */
  lemma NoWrap(n: nat)
    requires 9 * n < U64 - 1
    ensures Compress(n) < U64 && ThereAndBack(n) == n
  {
    CompressBound(n);
    DecompressCompress(n);
  }

  /** The amounts up to the supply limit whose code fits in 64 bits. */
  predicate AmountFits(n: nat) {
    n % 10 == 0 || n <= 2049638230412172402
  }

  /** For amounts up to the supply limit, storing and reading gives the amount back exactly when it
      is a multiple of ten or at most 20496382304.12172402 coins: the limit itself lies above. */
  lemma AmountRoundTrip(n: nat)
    requires n <= MAX_MONEY_OUT
    ensures Compress(n) < U64 <==> AmountFits(n)
    ensures ThereAndBack(n) == n <==> AmountFits(n)
  {
    DecompressCompress(n);
    CompressBound(n);
    if n % 10 != 0 {
      assert Strip(n, 0) == (n, 0);
      assert Compress(n) == 1 + (n / 10 * 9 + n % 10 - 1) * 10;
      if !AmountFits(n) {
        WrappedAmountDiffers(n);
      }
    }
  }

  /** Above the bound the wrapped code belongs to another amount, also after wrapping that one. */
  lemma WrappedAmountDiffers(n: nat)
    requires n <= MAX_MONEY_OUT && n % 10 != 0 && !AmountFits(n)
    ensures ThereAndBack(n) != n
  {
    var q, d := n / 10, n % 10;
    var code := 1 + (q * 9 + d - 1) * 10;
    assert Strip(n, 0) == (n, 0) && Compress(n) == code;
    assert U64 <= code < 2 * U64;
    var x := code - U64;
    assert Wrap64(code) == x;
    assert (x - 1) % 10 == 4 && (x - 1) / 10 == 9 * q + d - 1 - 1844674407370955162;
    var m := Parts(x).0;
    assert m == n - 2049638230412172402 || m == n - 2049638230412172403;
    assert Decompress(x) == Scale(m, 4);
    assert Scale(m, 4) == Scale(m * 10, 3) == Scale(m * 100, 2) == Scale(m * 1000, 1) == m * 10000;
    var k := m * 10000 / U64;
    if m * 10000 == k * U64 + n {
      NoSuchAmount(n, m, k);
    }
  }

  lemma NoSuchAmount(n: nat, m: nat, k: nat)
    requires 2049638230412172402 < n <= MAX_MONEY_OUT
    requires m == n - 2049638230412172402 || m == n - 2049638230412172403
    ensures m * 10000 != k * U64 + n
  {
  }

  // ---------- Scripts ----------

  const OP_DUP: Byte := 0x76
  const OP_EQUAL: Byte := 0x87
  const OP_EQUALVERIFY: Byte := 0x88
  const OP_HASH160: Byte := 0xa9
  const OP_CHECKSIG: Byte := 0xac
  const SPECIAL_SCRIPTS := 6

  type Bytes = seq<Byte>

  /** Public-key arithmetic, not modelled: which full keys are valid, and the full key of a
      compressed one. */
  datatype Curve = Curve(valid: Bytes -> bool, expand: Bytes -> Option<Bytes>)

  /** A valid full key is what its compressed form expands to. */
  ghost predicate Lawful(curve: Curve) {
    forall key: Bytes :: |key| == 65 && key[0] == 4 && curve.valid(key)
      ==> curve.expand([2 + key[64] % 2] + key[1..33]) == Some(key)
  }

  predicate PaysKeyHash(s: Bytes) {
    |s| == 25 && s[0] == OP_DUP && s[1] == OP_HASH160 && s[2] == 20 && s[23] == OP_EQUALVERIFY && s[24] == OP_CHECKSIG
  }

  predicate PaysScriptHash(s: Bytes) {
    |s| == 23 && s[0] == OP_HASH160 && s[1] == 20 && s[22] == OP_EQUAL
  }

  predicate PaysShortKey(s: Bytes) {
    |s| == 35 && s[0] == 33 && s[34] == OP_CHECKSIG && (s[1] == 2 || s[1] == 3)
  }

  predicate PaysFullKey(curve: Curve, s: Bytes) {
    |s| == 67 && s[0] == 65 && s[66] == OP_CHECKSIG && s[1] == 4 && curve.valid(s[1..66])
  }

  /** CScriptCompressor::Compress: 21 or 33 bytes for the special scripts, None for all others. */
  function CompressScript(curve: Curve, s: Bytes): Option<Bytes> {
    if PaysKeyHash(s) then Some([0] + s[3..23])
    else if PaysScriptHash(s) then Some([1] + s[2..22])
    else if PaysShortKey(s) then Some([s[1]] + s[2..34])
    else if PaysFullKey(curve, s) then Some([4 + s[65] % 2] + s[2..34])
    else None
  }

  /** A payment to a key hash or to a script hash takes 21 bytes on the stream, and one to a public key, in
      either form, 33 bytes. */
  lemma SpecialForms(curve: Curve, hash: Bytes, key: Bytes)
    requires |hash| == 20 && |key| == 65 && key[0] == 4
    ensures ScriptBytes(curve, [0x76, 0xa9, 20] + hash + [0x88, 0xac]) == [0] + hash
    ensures ScriptBytes(curve, [0xa9, 20] + hash + [0x87]) == [1] + hash
    ensures ScriptBytes(curve, [33, 2] + key[1..33] + [0xac]) == [2] + key[1..33]
    ensures ScriptBytes(curve, [33, 3] + key[1..33] + [0xac]) == [3] + key[1..33]
    ensures curve.valid(key) ==> ScriptBytes(curve, [65] + key + [0xac]) == [4 + key[64] % 2] + key[1..33]
  {
    var a, b, c := [0x76, 0xa9, 20] + hash + [0x88, 0xac], [0xa9, 20] + hash + [0x87], [65] + key + [0xac];
    assert PaysKeyHash(a) && a[3..23] == hash;
    assert PaysScriptHash(b) && b[2..22] == hash;
    ShortForm(curve, 2, key[1..33]);
    ShortForm(curve, 3, key[1..33]);
    assert c[1..66] == key && c[2..34] == key[1..33] && c[65] == key[64];
  }

  lemma ShortForm(curve: Curve, parity: Byte, data: Bytes)
    requires (parity == 2 || parity == 3) && |data| == 32
    ensures ScriptBytes(curve, [33, parity] + data + [0xac]) == [parity] + data
  {
    var s: Bytes := [33, parity] + data + [0xac];
    assert PaysShortKey(s) && s[2..34] == data;
  }

  function SpecialSize(kind: nat): nat {
    if kind == 0 || kind == 1 then 20 else if kind <= 5 then 32 else 0
  }

  /** CScriptCompressor::Decompress; None leaves the script as it was. */
  function DecompressScript(curve: Curve, kind: nat, data: Bytes): Option<Bytes>
    requires kind < SPECIAL_SCRIPTS && |data| == SpecialSize(kind)
  {
    if kind == 0 then Some([OP_DUP, OP_HASH160, 20] + data + [OP_EQUALVERIFY, OP_CHECKSIG])
    else if kind == 1 then Some([OP_HASH160, 20] + data + [OP_EQUAL])
    else if kind <= 3 then Some([33, kind] + data + [OP_CHECKSIG])
    else match curve.expand([kind - 2] + data)
      case None => None
      case Some(key) => Some([65] + key + [OP_CHECKSIG])
  }

  /** Compression followed by decompression gives the script back, for all four special forms. */
  lemma DecompressCompressScript(curve: Curve, s: Bytes)
    requires Lawful(curve) && CompressScript(curve, s).Some?
    ensures var c := CompressScript(curve, s).value;
      0 < |c| && c[0] < SPECIAL_SCRIPTS && |c| == 1 + SpecialSize(c[0])
      && DecompressScript(curve, c[0], c[1..]) == Some(s)
  {
    var c := CompressScript(curve, s).value;
    var data := c[1..];
    if PaysKeyHash(s) {
      assert data == s[3..23] && s == [OP_DUP, OP_HASH160, 20] + data + [OP_EQUALVERIFY, OP_CHECKSIG];
    } else if PaysScriptHash(s) {
      assert data == s[2..22] && s == [OP_HASH160, 20] + data + [OP_EQUAL];
    } else if PaysShortKey(s) {
      assert data == s[2..34] && s == [33, c[0]] + data + [OP_CHECKSIG];
    } else {
      var key := s[1..66];
      assert data == s[2..34] == key[1..33] && key[64] == s[65];
      assert [c[0] - 2] + data == [2 + key[64] % 2] + key[1..33];
      assert s == [65] + key + [OP_CHECKSIG];
    }
  }

  /** A script on the stream. */
  function ScriptBytes(curve: Curve, s: Bytes): Bytes {
    match CompressScript(curve, s)
    case Some(c) => c
    case None => Encode(|s| + SPECIAL_SCRIPTS) + s
  }

  function Split(s: Bytes, n: nat): Option<(Bytes, Bytes)> {
    if n <= |s| then Some((s[..n], s[n..])) else None
  }

  /** Reads a script over the one held before, which stays when the key does not expand. */
  function ReadScript(curve: Curve, held: Bytes, s: Bytes): Option<(Bytes, Bytes)> {
    match Decode(s, U32)
    case None => None
    case Some((size, rest)) =>
      if size < SPECIAL_SCRIPTS then
        match Split(rest, SpecialSize(size))
        case None => None
        case Some((data, tail)) =>
          match DecompressScript(curve, size, data)
          case None => Some((held, tail))
          case Some(script) => Some((script, tail))
      else Split(rest, size - SPECIAL_SCRIPTS)
  }

  lemma SplitJoin(a: Bytes, rest: Bytes)
    ensures Split(a + rest, |a|) == Some((a, rest))
  {
  }

  lemma EncodeSmall(c: Bytes)
    ensures 0 < |c| && c[0] < 128 ==> c == Encode(c[0]) + c[1..]
  {
  }

  /** A script of any kind is read back, and exactly the bytes written are consumed. */
  lemma ScriptRoundTrip(curve: Curve, s: Bytes, held: Bytes, rest: Bytes)
    requires Lawful(curve) && |s| + SPECIAL_SCRIPTS < U32
    ensures ReadScript(curve, held, ScriptBytes(curve, s) + rest) == Some((s, rest))
  {
    hide Encode, Decode, CompressScript, DecompressScript, Lawful;
    match CompressScript(curve, s)
    case Some(c) =>
      DecompressCompressScript(curve, s);
      EncodeSmall(c);
      DecodeEncode(c[0], c[1..] + rest, U32);
      assert c + rest == Encode(c[0]) + (c[1..] + rest);
      SplitJoin(c[1..], rest);
    case None =>
      DecodeEncode(|s| + SPECIAL_SCRIPTS, s + rest, U32);
      assert Encode(|s| + SPECIAL_SCRIPTS) + s + rest == Encode(|s| + SPECIAL_SCRIPTS) + (s + rest);
      SplitJoin(s, rest);
  }

  // ---------- Outputs ----------

  /** A transaction output. */
  datatype TxOut = TxOut(value: int, script: Bytes, rounds: int, kind: Byte)

  /** What SetNull leaves, and what a new output holds. */
  function NullOut(): TxOut {
    TxOut(-1, [], -10, 0)
  }

  predicate Null(o: TxOut) {
    o.value == -1
  }

  /** Outputs whose amount, type and script sizes the stream can carry. */
  predicate Storable(o: TxOut) {
    && 0 <= o.value <= MAX_MONEY_OUT && AmountFits(o.value)
    && |o.script| + SPECIAL_SCRIPTS < U32
  }

  function OutBytes(curve: Curve, o: TxOut): Bytes
    requires 0 <= o.value < U64
  {
    Encode(Wrap64(Compress(o.value))) + (Encode(o.kind) + ScriptBytes(curve, o.script))
  }

  /** CTxOutCompressor read into a new output; the number of mixing rounds is not on the stream. */
  function ReadOut(curve: Curve, s: Bytes): Option<(TxOut, Bytes)> {
    match Decode(s, U64)
    case None => None
    case Some((amount, s1)) =>
      match Decode(s1, 256)
      case None => None
      case Some((kind, s2)) =>
        match ReadScript(curve, NullOut().script, s2)
        case None => None
        case Some((script, s3)) =>
          Some((TxOut(Wrap64(Decompress(amount)), script, NullOut().rounds, kind % 256), s3))
  }

  /** An output is read back, all but its mixing rounds. */
  lemma OutRoundTrip(curve: Curve, o: TxOut, rest: Bytes)
    requires Lawful(curve) && Storable(o)
    ensures ReadOut(curve, OutBytes(curve, o) + rest) == Some((o.(rounds := NullOut().rounds), rest))
  {
    hide Encode, Decode, ScriptBytes, ReadScript, Compress, Decompress, Wrap64, Lawful, AmountFits;
    var amount := Wrap64(Compress(o.value));
    var script := ScriptBytes(curve, o.script);
    var s2 := script + rest;
    var s1 := Encode(o.kind) + s2;
    assert OutBytes(curve, o) + rest == Encode(amount) + s1;
    DecodeEncode(amount, s1, U64);
    DecodeEncode(o.kind, s2, 256);
    ScriptRoundTrip(curve, o.script, NullOut().script, rest);
    AmountRoundTrip(o.value);
  }
}
