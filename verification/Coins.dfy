/** The record of one transaction's unspent outputs: CCoins, src/coins.h and src/coins.cpp. */
module Coins {
  import opened Basics
  import opened VarInt
  import opened Compressor

  datatype Coins = Coins(coinBase: bool, coinStake: bool, outs: seq<TxOut>, height: int, version: int)

  function Empty(): Coins {
    Coins(false, false, [], 0, 0)
  }

  /** Output i, with the null output beyond the end. */
  function At(outs: seq<TxOut>, i: nat): TxOut {
    if i < |outs| then outs[i] else NullOut()
  }

  /** Whether output i exists and is unspent. */
  predicate Avail(outs: seq<TxOut>, i: nat) {
    !Null(At(outs, i))
  }

  predicate Pruned(c: Coins) {
    forall o :: o in c.outs ==> Null(o)
  }

  /** The outputs without the spent ones at the end. */
  function Trim(outs: seq<TxOut>): (r: seq<TxOut>)
    ensures |r| <= |outs| && r == outs[..|r|]
    ensures r == [] || !Null(r[|r| - 1])
    ensures forall i :: |r| <= i < |outs| ==> Null(outs[i])
  {
    if outs != [] && Null(outs[|outs| - 1]) then Trim(outs[..|outs| - 1]) else outs
  }

  function Cleanup(c: Coins): Coins {
    c.(outs := Trim(c.outs))
  }

  /** As Cleanup leaves a record. */
  predicate Clean(c: Coins) {
    c.outs == [] || !Null(c.outs[|c.outs| - 1])
  }

  lemma CleanupKeeps(c: Coins)
    ensures Clean(Cleanup(c)) && (Clean(c) ==> Cleanup(c) == c)
    ensures forall i: nat :: Avail(Cleanup(c).outs, i) <==> Avail(c.outs, i)
    ensures Pruned(Cleanup(c)) <==> Pruned(c)
    ensures Pruned(c) <==> Cleanup(c).outs == []
  {
    var r := Trim(c.outs);
    if r == [] {
      assert forall o :: o in c.outs ==> Null(o);
    } else {
      assert r[|r| - 1] == c.outs[|r| - 1] && r[|r| - 1] in c.outs && r[|r| - 1] in r;
    }
  }

  lemma TrimShorter(a: seq<TxOut>, b: seq<TxOut>)
    requires forall i: nat :: At(a, i) == At(b, i)
    ensures |Trim(a)| <= |Trim(b)|
  {
    var r := Trim(a);
    if r != [] {
      assert At(b, |r| - 1) == At(a, |r| - 1) == r[|r| - 1];
    }
  }

  /** Two lists that agree once padded with null outputs have the same trimmed list. */
  lemma TrimAgree(a: seq<TxOut>, b: seq<TxOut>)
    requires forall i: nat :: At(a, i) == At(b, i)
    ensures Trim(a) == Trim(b)
  {
    TrimShorter(a, b);
    TrimShorter(b, a);
    var r, s := Trim(a), Trim(b);
    forall i | 0 <= i < |r| ensures r[i] == s[i] {
      assert r[i] == At(a, i) == At(b, i) == s[i];
    }
  }

  // ---------- The availability mask ----------

  function Bit(b: nat, p: nat): bool {
    if p == 0 then b % 2 == 1 else Bit(b / 2, p - 1)
  }

  /** The number whose bit p tells whether output i + p is available, for p < k. */
  function Pack(outs: seq<TxOut>, i: nat, k: nat): (b: nat)
    ensures b < Pow(2, k)
    decreases k
  {
    if k == 0 then 0 else (if Avail(outs, i) then 1 else 0) + 2 * Pack(outs, i + 1, k - 1)
  }

  lemma {:induction false} BitOfPack(outs: seq<TxOut>, i: nat, k: nat, p: nat)
    requires p < k
    ensures Bit(Pack(outs, i, k), p) == Avail(outs, i + p)
    decreases k
  {
    assert Pack(outs, i, k) / 2 == Pack(outs, i + 1, k - 1);
    if p > 0 {
      BitOfPack(outs, i + 1, k - 1, p - 1);
    }
  }

  lemma {:induction false} PackZero(outs: seq<TxOut>, i: nat, k: nat)
    ensures Pack(outs, i, k) == 0 <==> forall j: nat :: i <= j < i + k ==> !Avail(outs, j)
    decreases k
  {
    if k > 0 {
      PackZero(outs, i + 1, k - 1);
    }
  }

  /** Mask byte b covers outputs 2 + 8b and the seven after it. */
  function MaskByte(outs: seq<TxOut>, b: nat): Byte {
    assert Pow(2, 8) == 256 by {
      assert Pow(2, 4) == 16;
    }
    Pack(outs, 2 + 8 * b, 8)
  }

  /** One more than the last non-zero byte among the first b. */
  function LastUsed(outs: seq<TxOut>, b: nat): (n: nat)
    ensures n <= b && (n > 0 ==> MaskByte(outs, n - 1) != 0)
    ensures forall k: nat :: n <= k < b ==> MaskByte(outs, k) == 0
  {
    if b == 0 then 0 else if MaskByte(outs, b - 1) != 0 then b else LastUsed(outs, b - 1)
  }

  /** How many of the first b bytes are not zero. */
  function NonZero(outs: seq<TxOut>, b: nat): (n: nat)
    ensures n <= b
  {
    if b == 0 then 0 else NonZero(outs, b - 1) + if MaskByte(outs, b - 1) != 0 then 1 else 0
  }

  /** How many mask bytes the outputs from the third on spread over. */
  function Blocks(outs: seq<TxOut>): nat {
    if |outs| <= 2 then 0 else (|outs| - 2 + 7) / 8
  }

  function MaskSize(outs: seq<TxOut>): nat {
    LastUsed(outs, Blocks(outs))
  }

  function MaskCode(outs: seq<TxOut>): nat {
    NonZero(outs, Blocks(outs))
  }

  lemma {:induction false} NonZeroPast(outs: seq<TxOut>, m: nat, b: nat)
    requires m <= b && forall k: nat :: m <= k < b ==> MaskByte(outs, k) == 0
    ensures NonZero(outs, b) == NonZero(outs, m)
    decreases b
  {
    hide MaskByte;
    if m < b {
      assert MaskByte(outs, b - 1) == 0;
      NonZeroPast(outs, m, b - 1);
    }
  }

  lemma {:induction false} NonZeroGrows(outs: seq<TxOut>, m: nat, b: nat)
    requires m <= b
    ensures NonZero(outs, m) <= NonZero(outs, b)
    ensures m < b && MaskByte(outs, b - 1) != 0 ==> NonZero(outs, m) < NonZero(outs, b)
    decreases b
  {
    hide MaskByte;
    if m < b {
      NonZeroGrows(outs, m, b - 1);
    }
  }

  /** No output is available past the mask. */
  lemma MaskCovers(outs: seq<TxOut>, i: nat)
    requires i >= 2 + 8 * MaskSize(outs)
    ensures !Avail(outs, i)
  {
    if i < |outs| {
      var b := (i - 2) / 8;
      assert MaskSize(outs) <= b < Blocks(outs);
      assert MaskByte(outs, b) == 0;
      PackZero(outs, 2 + 8 * b, 8);
    }
  }

  // ---------- The stream ----------

  const I32 := 0x8000_0000

  function B(x: bool, weight: nat): nat {
    if x then weight else 0
  }

  /** The header code; the source asserts that some output is available. */
  function Code(c: Coins): nat
    requires Avail(c.outs, 0) || Avail(c.outs, 1) || MaskCode(c.outs) > 0
  {
    16 * (MaskCode(c.outs) - B(!Avail(c.outs, 0) && !Avail(c.outs, 1), 1))
      + B(c.coinBase, 1) + B(c.coinStake, 2) + B(Avail(c.outs, 0), 4) + B(Avail(c.outs, 1), 8)
  }

  function MaskBytes(outs: seq<TxOut>, b: nat, n: nat): Bytes
    decreases n - b
  {
    if b >= n then [] else [MaskByte(outs, b)] + MaskBytes(outs, b + 1, n)
  }

  predicate AllStorable(outs: seq<TxOut>) {
    forall o :: o in outs && !Null(o) ==> Storable(o)
  }

  function OutsBytes(curve: Curve, outs: seq<TxOut>, i: nat): Bytes
    requires AllStorable(outs)
    decreases |outs| - i
  {
    if i >= |outs| then []
    else (if Null(outs[i]) then [] else OutBytes(curve, outs[i])) + OutsBytes(curve, outs, i + 1)
  }

  predicate Serializable(c: Coins) {
    && !Pruned(c) && AllStorable(c.outs) && MaskCode(c.outs) < 0x1000_0000
    && c.height < I32 && c.version < I32
  }

  /** A record that is not pruned has something for the header code to announce. */
  lemma CodeDefined(c: Coins)
    requires !Pruned(c)
    ensures Avail(c.outs, 0) || Avail(c.outs, 1) || MaskCode(c.outs) > 0
  {
    hide NonZero, Pack;
    var i :| 0 <= i < |c.outs| && !Null(c.outs[i]);
    if i >= 2 {
      var b := (i - 2) / 8;
      assert b < Blocks(c.outs) && 2 + 8 * b <= i < 2 + 8 * b + 8 && Avail(c.outs, i);
      PackZero(c.outs, 2 + 8 * b, 8);
      NonZeroGrows(c.outs, b, b + 1);
      NonZeroGrows(c.outs, b + 1, Blocks(c.outs));
    }
  }

  function Body(curve: Curve, outs: seq<TxOut>): Bytes
    requires AllStorable(outs)
  {
    MaskBytes(outs, 0, MaskSize(outs)) + OutsBytes(curve, outs, 0)
  }

  function Serialize(curve: Curve, c: Coins): Bytes
    requires Serializable(c)
  {
    CodeDefined(c);
    Encode(c.version) + (Encode(Code(c)) + (Body(curve, c.outs) + Encode(c.height)))
  }

  function Bits(m: Byte): (r: seq<bool>)
    ensures |r| == 8
  {
    seq(8, p requires 0 <= p < 8 => Bit(m, p))
  }

  /** Reads mask bytes until count of them were not zero. */
  function ReadMask(s: Bytes, count: nat): Option<(seq<bool>, Bytes)>
    decreases |s|
  {
    if count == 0 then Some(([], s))
    else if s == [] then None
    else match ReadMask(s[1..], count - if s[0] != 0 then 1 else 0)
      case None => None
      case Some((avail, rest)) => Some((Bits(s[0]) + avail, rest))
  }

  function ReadOuts(curve: Curve, avail: seq<bool>, s: Bytes): (r: Option<(seq<TxOut>, Bytes)>)
    ensures r.Some? ==> |r.value.0| == |avail|
  {
    if avail == [] then Some(([], s))
    else match if avail[0] then ReadOut(curve, s) else Some((NullOut(), s))
      case None => None
      case Some((o, s1)) =>
        match ReadOuts(curve, avail[1..], s1)
        case None => None
        case Some((outs, rest)) => Some(([o] + outs, rest))
  }

  /** Reads the mask a header code announces and the outputs the mask announces. */
  function ReadBody(curve: Curve, code: nat, s: Bytes): Option<(seq<TxOut>, Bytes)> {
    match ReadMask(s, code / 16 + B(!Bit(code, 2) && !Bit(code, 3), 1))
    case None => None
    case Some((mask, s3)) => ReadOuts(curve, [Bit(code, 2), Bit(code, 3)] + mask, s3)
  }

  function Unserialize(curve: Curve, s: Bytes): Option<(Coins, Bytes)> {
    match Decode(s, I32)
    case None => None
    case Some((version, s1)) =>
      match Decode(s1, U32)
      case None => None
      case Some((code, s2)) =>
        match ReadBody(curve, code, s2)
        case None => None
        case Some((outs, s4)) =>
          match Decode(s4, I32)
          case None => None
          case Some((height, rest)) =>
            Some((Cleanup(Coins(Bit(code, 0), Bit(code, 1), outs, height, version)), rest))
  }

  // ---------- Reading gives back what was written ----------

  function AvailFrom(outs: seq<TxOut>, i: nat, n: nat): (r: seq<bool>)
    requires i <= n
  {
    seq(n - i, j requires 0 <= j < n - i => Avail(outs, i + j))
  }

  lemma {:induction false} ReadMaskWritten(outs: seq<TxOut>, b: nat, n: nat, rest: Bytes)
    requires b <= n && (n > 0 ==> MaskByte(outs, n - 1) != 0)
    ensures NonZero(outs, b) <= NonZero(outs, n)
    ensures ReadMask(MaskBytes(outs, b, n) + rest, NonZero(outs, n) - NonZero(outs, b))
      == Some((AvailFrom(outs, 2 + 8 * b, 2 + 8 * n), rest))
    decreases n - b
  {
    hide MaskByte;
    NonZeroGrows(outs, b, n);
    var s := MaskBytes(outs, b, n) + rest;
    if b == n {
      assert s == rest;
      assert AvailFrom(outs, 2 + 8 * b, 2 + 8 * n) == [];
    } else {
      assert s[1..] == MaskBytes(outs, b + 1, n) + rest;
      ReadMaskWritten(outs, b + 1, n, rest);
      BitsWritten(outs, b, n);
    }
  }

  lemma BitsWritten(outs: seq<TxOut>, b: nat, n: nat)
    requires b < n
    ensures Bits(MaskByte(outs, b)) + AvailFrom(outs, 2 + 8 * (b + 1), 2 + 8 * n) == AvailFrom(outs, 2 + 8 * b, 2 + 8 * n)
  {
    forall p: nat | p < 8 ensures Bits(MaskByte(outs, b))[p] == Avail(outs, 2 + 8 * b + p) {
      BitOfPack(outs, 2 + 8 * b, 8, p);
    }
  }

  /** An output as the stream returns it: null outputs in their standard form, no mixing rounds. */
  function Stored(o: TxOut): TxOut {
    if Null(o) then NullOut() else o.(rounds := NullOut().rounds)
  }

  function StoredFrom(outs: seq<TxOut>, i: nat, n: nat): (r: seq<TxOut>)
    requires i <= n
  {
    seq(n - i, j requires 0 <= j < n - i => Stored(At(outs, i + j)))
  }

  lemma {:induction false} NoOutsLeft(curve: Curve, outs: seq<TxOut>, i: nat)
    requires AllStorable(outs) && forall j: nat :: i <= j ==> !Avail(outs, j)
    ensures OutsBytes(curve, outs, i) == []
    decreases |outs| - i
  {
    if i < |outs| {
      assert !Avail(outs, i);
      NoOutsLeft(curve, outs, i + 1);
    }
  }

  lemma {:induction false} ReadOutsWritten(curve: Curve, outs: seq<TxOut>, i: nat, n: nat, rest: Bytes)
    requires Lawful(curve) && AllStorable(outs)
    requires i <= n && forall j: nat :: n <= j ==> !Avail(outs, j)
    ensures ReadOuts(curve, AvailFrom(outs, i, n), OutsBytes(curve, outs, i) + rest)
      == Some((StoredFrom(outs, i, n), rest))
    decreases n - i
  {
    hide Lawful, ReadOut, OutBytes, AmountFits;
    if i == n {
      NoOutsLeft(curve, outs, i);
      assert OutsBytes(curve, outs, i) + rest == rest;
      assert AvailFrom(outs, i, n) == [] && StoredFrom(outs, i, n) == [];
    } else {
      var avail := AvailFrom(outs, i, n);
      assert avail[0] == Avail(outs, i);
      assert avail[1..] == AvailFrom(outs, i + 1, n);
      assert StoredFrom(outs, i, n) == [Stored(At(outs, i))] + StoredFrom(outs, i + 1, n);
      ReadOutsWritten(curve, outs, i + 1, n, rest);
      var more := OutsBytes(curve, outs, i + 1) + rest;
      if Avail(outs, i) {
        assert OutsBytes(curve, outs, i) + rest == OutBytes(curve, outs[i]) + more;
        OutRoundTrip(curve, outs[i], more);
        assert Some((Stored(outs[i]), more)) == ReadOut(curve, OutsBytes(curve, outs, i) + rest);
      } else {
        assert OutsBytes(curve, outs, i) + rest == more;
        assert Stored(At(outs, i)) == NullOut();
      }
    }
  }

  /** A signed number as the stream returns it. */
  function ReadBack(n: int): nat {
    if n < 0 then n % 128 else n
  }

  /** What reading a written record returns. */
  function StoredCoins(c: Coins): Coins {
    Cleanup(Coins(c.coinBase, c.coinStake, StoredFrom(c.outs, 0, |c.outs|),
                  ReadBack(c.height), ReadBack(c.version)))
  }

  lemma CodeBits(c: Coins)
    requires Serializable(c) && (Avail(c.outs, 0) || Avail(c.outs, 1) || MaskCode(c.outs) > 0)
    ensures var k := Code(c);
      && k < U32 && Bit(k, 0) == c.coinBase && Bit(k, 1) == c.coinStake
      && Bit(k, 2) == Avail(c.outs, 0) && Bit(k, 3) == Avail(c.outs, 1)
      && k / 16 + B(!Bit(k, 2) && !Bit(k, 3), 1) == MaskCode(c.outs)
  {
    hide Bit, MaskCode, Avail, AllStorable;
    var first, second := Avail(c.outs, 0), Avail(c.outs, 1);
    HeaderBits(MaskCode(c.outs) - B(!first && !second, 1), c.coinBase, c.coinStake, first, second);
  }

  lemma HeaderBits(m: nat, a: bool, b: bool, c: bool, d: bool)
    ensures var k := 16 * m + B(a, 1) + B(b, 2) + B(c, 4) + B(d, 8);
      Bit(k, 0) == a && Bit(k, 1) == b && Bit(k, 2) == c && Bit(k, 3) == d && k / 16 == m
  {
    var k3 := 2 * m + B(d, 1);
    var k2 := 2 * k3 + B(c, 1);
    var k1 := 2 * k2 + B(b, 1);
    var k := 2 * k1 + B(a, 1);
    assert k / 2 == k1 && k1 / 2 == k2 && k2 / 2 == k3 && k3 / 2 == m;
    assert Bit(k, 3) == Bit(k1, 2) == Bit(k2, 1) == Bit(k3, 0) == d;
    assert Bit(k, 2) == Bit(k1, 1) == Bit(k2, 0) == c;
    assert Bit(k, 1) == Bit(k1, 0) == b;
  }

  lemma IntRoundTrip(n: int, rest: Bytes)
    requires n < I32
    ensures Decode(Encode(n) + rest, I32) == Some((ReadBack(n), rest))
  {
    if n < 0 {
      assert (Encode(n) + rest)[1..] == rest;
    } else {
      DecodeEncode(n, rest, I32);
    }
  }

  /** Unserialize consumes exactly the bytes Serialize wrote and returns every available output at
      its own index, with the flags; negative heights and versions are truncated. */
  lemma SerializeRoundTrip(curve: Curve, c: Coins, rest: Bytes)
    requires Lawful(curve) && Serializable(c)
    ensures Unserialize(curve, Serialize(curve, c) + rest) == Some((StoredCoins(c), rest))
  {
    hide Lawful, Encode, Decode, Body, ReadBody, Code, Bit, MaskSize, MaskCode, Avail, Stored, Trim, AllStorable;
    CodeDefined(c);
    var s4 := Encode(c.height) + rest;
    var s3 := Body(curve, c.outs) + s4;
    var s2 := Encode(Code(c)) + s3;
    assert Serialize(curve, c) + rest == Encode(c.version) + s2;
    IntRoundTrip(c.version, s2);
    CodeBits(c);
    DecodeEncode(Code(c), s3, U32);
    BodyWritten(curve, c, s4);
    IntRoundTrip(c.height, rest);
    SameTrim(c.outs);
  }

  lemma BodyWritten(curve: Curve, c: Coins, rest: Bytes)
    requires Lawful(curve) && Serializable(c)
    requires Avail(c.outs, 0) || Avail(c.outs, 1) || MaskCode(c.outs) > 0
    ensures ReadBody(curve, Code(c), Body(curve, c.outs) + rest)
      == Some((StoredFrom(c.outs, 0, 2 + 8 * MaskSize(c.outs)), rest))
  {
    hide Lawful, ReadMask, ReadOuts, OutsBytes, Code, Bit, MaskBytes, MaskCode, MaskSize, Avail, Stored, AllStorable, AvailFrom;
    CodeBits(c);
    var n := MaskSize(c.outs);
    var s3 := OutsBytes(curve, c.outs, 0) + rest;
    assert Body(curve, c.outs) + rest == MaskBytes(c.outs, 0, n) + s3;
    MaskWritten(c.outs, s3);
    FirstTwo(c.outs, 2 + 8 * n);
    OutsWritten(curve, c.outs, rest);
  }

  lemma NonZeroNone(outs: seq<TxOut>)
    ensures NonZero(outs, 0) == 0
  {
  }

  lemma MaskWritten(outs: seq<TxOut>, rest: Bytes)
    ensures var n := MaskSize(outs);
      ReadMask(MaskBytes(outs, 0, n) + rest, MaskCode(outs)) == Some((AvailFrom(outs, 2, 2 + 8 * n), rest))
  {
    hide ReadMask, NonZero, AvailFrom, LastUsed;
    NonZeroNone(outs);
    var n := MaskSize(outs);
    NonZeroPast(outs, n, Blocks(outs));
    ReadMaskWritten(outs, 0, n, rest);
  }

  lemma FirstTwo(outs: seq<TxOut>, n: nat)
    requires n >= 2
    ensures [Avail(outs, 0), Avail(outs, 1)] + AvailFrom(outs, 2, n) == AvailFrom(outs, 0, n)
  {
  }

  lemma OutsWritten(curve: Curve, outs: seq<TxOut>, rest: Bytes)
    requires Lawful(curve) && AllStorable(outs)
    ensures var n := 2 + 8 * MaskSize(outs);
      ReadOuts(curve, AvailFrom(outs, 0, n), OutsBytes(curve, outs, 0) + rest) == Some((StoredFrom(outs, 0, n), rest))
  {
    var n := 2 + 8 * MaskSize(outs);
    forall j: nat | n <= j ensures !Avail(outs, j) {
      MaskCovers(outs, j);
    }
    ReadOutsWritten(curve, outs, 0, n, rest);
  }

  lemma SameTrim(outs: seq<TxOut>)
    ensures Trim(StoredFrom(outs, 0, 2 + 8 * MaskSize(outs)))
      == Trim(StoredFrom(outs, 0, |outs|))
  {
    var n := 2 + 8 * MaskSize(outs);
    var a, b := StoredFrom(outs, 0, n), StoredFrom(outs, 0, |outs|);
    forall i: nat ensures At(a, i) == At(b, i) {
      if i >= n {
        MaskCovers(outs, i);
      }
    }
    TrimAgree(a, b);
  }

  /** The record itself comes back exactly when it is in the form the code keeps records in: no
      spent output at the end, standard null outputs, no mixing rounds, and no negative number. */
  lemma SerializeExact(curve: Curve, c: Coins, rest: Bytes)
    requires Lawful(curve) && Serializable(c)
    ensures Unserialize(curve, Serialize(curve, c) + rest) == Some((c, rest))
      <==> Clean(c) && c.height >= 0 && c.version >= 0 && forall o :: o in c.outs ==> Stored(o) == o
  {
    hide Lawful, Unserialize, Serialize, Serializable;
    SerializeRoundTrip(curve, c, rest);
    var all := StoredFrom(c.outs, 0, |c.outs|);
    var t := Trim(all);
    if Clean(c) && forall o :: o in c.outs ==> Stored(o) == o {
      forall i | 0 <= i < |all| ensures all[i] == c.outs[i] {
        assert c.outs[i] in c.outs && all[i] == Stored(At(c.outs, i));
      }
      assert all == c.outs;
    }
    if StoredCoins(c) == c {
      assert t == c.outs && |all| == |c.outs| && t == all;
      forall o | o in c.outs ensures Stored(o) == o {
        var i :| 0 <= i < |c.outs| && c.outs[i] == o;
        assert At(c.outs, i) == o && all[i] == Stored(At(c.outs, i));
      }
    }
  }

  // ---------- Spending an output and putting it back ----------

  /** What a spent input leaves behind: the metadata only when it was the last output. */
  datatype Undo = Undo(out: TxOut, coinBase: bool, coinStake: bool, height: int, version: int)

  /** CCoins::Spend; None when there is no such output or it is spent. */
  function Spend(c: Coins, n: nat): Option<(Coins, Undo)> {
    if !Avail(c.outs, n) then None
    else
      var spent := Cleanup(c.(outs := c.outs[n := NullOut()]));
      var last := spent.outs == [];
      Some((spent,
            Undo(c.outs[n], last && c.coinBase, last && c.coinStake, if last then c.height else 0, if last then c.version else 0)))
  }

  function Resize(outs: seq<TxOut>, n: nat): seq<TxOut> {
    if |outs| < n then outs + seq(n - |outs|, _ => NullOut()) else outs
  }

  /** The undo step of DisconnectBlock on one record, and whether it found what it expected. The
      availability test there also rejects mints; minted tells them. */
  function Restore(c: Coins, undo: Undo, n: nat, minted: bool): (Coins, bool) {
    var base := if undo.height != 0 then Coins(undo.coinBase, false, [], undo.height, undo.version) else c;
    var outs := Resize(base.outs, n + 1);
    (base.(outs := outs[n := undo.out]), (Pruned(c) <==> undo.height != 0) && (!Avail(base.outs, n) || minted))
  }

  /** A record that lost its last output may have been dropped and be found empty later. */
  function Dropped(c: Coins): Coins {
    if Pruned(c) then Empty() else c
  }

  predicate Canonical(c: Coins) {
    Clean(c) && forall o :: o in c.outs && Null(o) ==> o == NullOut()
  }

  /** Output n is the only unspent one. */
  ghost predicate OnlyOne(c: Coins, n: nat) {
    forall i: nat :: Avail(c.outs, i) ==> i == n
  }

  lemma SpendAt(c: Coins, n: nat)
    requires Canonical(c) && Avail(c.outs, n)
    ensures var c1 := Spend(c, n).value.0;
      && |c1.outs| <= |c.outs| && (|c1.outs| < |c.outs| ==> n == |c.outs| - 1)
      && forall i: nat :: At(c1.outs, i) == if i == n then NullOut() else At(c.outs, i)
  {
    var holed := c.outs[n := NullOut()];
    var kept := Trim(holed);
    if n < |c.outs| - 1 {
      assert holed[|c.outs| - 1] == c.outs[|c.outs| - 1];
    }
    forall i: nat ensures At(kept, i) == if i == n then NullOut() else At(c.outs, i) {
      if |kept| <= i < |c.outs| {
        assert Null(holed[i]) && (i != n ==> c.outs[i] in c.outs);
      }
    }
  }

  lemma SpendEmpties(c: Coins, n: nat)
    requires Canonical(c) && Avail(c.outs, n)
    ensures var c1 := Spend(c, n).value.0;
      (c1.outs == [] <==> OnlyOne(c, n)) && (Pruned(c1) <==> OnlyOne(c, n))
  {
    hide Trim, Canonical;
    SpendAt(c, n);
    var c1 := Spend(c, n).value.0;
    CleanupKeeps(c.(outs := c.outs[n := NullOut()]));
    if c1.outs != [] {
      var i := |c1.outs| - 1;
      assert At(c1.outs, i) == c1.outs[i];
      assert Avail(c.outs, i);
    } else {
      forall i: nat | Avail(c.outs, i) ensures i == n {
        assert At(c1.outs, i) == NullOut();
      }
    }
  }

  lemma RestoredOuts(a: seq<TxOut>, b: seq<TxOut>, n: nat)
    requires n < |b| && |a| <= |b| && (|a| < |b| ==> n == |b| - 1)
    requires forall i: nat :: At(a, i) == if i == n then NullOut() else At(b, i)
    ensures !Avail(a, n) && Resize(a, n + 1)[n := b[n]] == b
  {
    var r := Resize(a, n + 1)[n := b[n]];
    forall i | 0 <= i < |r| ensures r[i] == b[i] {
      assert At(a, i) == if i == n then NullOut() else At(b, i);
    }
    assert At(a, n) == NullOut();
  }

  /** When the spend left other outputs, putting the output back gives the record exactly; when it
      took the last one, the coin-stake flag is lost, whether the emptied record was kept or
      dropped. At height zero the undo data has no metadata to give back. */
  lemma SpendRestore(c: Coins, n: nat, drop: bool)
    requires Canonical(c) && Avail(c.outs, n)
    ensures var (c1, undo) := Spend(c, n).value;
      var (c2, expected) := Restore(if drop then Dropped(c1) else c1, undo, n, false);
      && (c2 == c <==> (!OnlyOne(c, n)
                       || (c.height != 0 && !c.coinStake)
                       || (c.height == 0 && (!drop || c.(outs := []) == Empty()))))
      && (expected <==> (!OnlyOne(c, n) || c.height != 0))
      && c2.outs == c.outs
  {
    hide Trim, Canonical, OnlyOne, Resize;
    SpendAt(c, n);
    SpendEmpties(c, n);
    var c1 := Spend(c, n).value.0;
    RestoredOuts(c1.outs, c.outs, n);
    assert c1 == c.(outs := c1.outs);
  }
}
