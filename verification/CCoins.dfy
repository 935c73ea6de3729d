/** The record CCoins as an object updated in place, src/coins.h and src/coins.cpp. */
module CCoinsRecord {
  import opened Basics
  import opened VarInt
  import opened Compressor
  import C = Coins

  class CCoins {
    var coinBase: bool
    var coinStake: bool
    var vout: seq<TxOut>
    var height: int
    var version: int

    ghost function Model(): C.Coins
      reads this
    {
      C.Coins(coinBase, coinStake, vout, height, version)
    }

    constructor ()
      ensures Model() == C.Empty()
    {
      coinBase, coinStake, vout, height, version := false, false, [], 0, 0;
    }

    method Cleanup()
      modifies this
      ensures Model() == C.Cleanup(old(Model()))
    {
      while |vout| > 0 && Null(vout[|vout| - 1])
        invariant C.Trim(vout) == C.Trim(old(vout))
        invariant Model() == old(Model()).(outs := vout)
        decreases |vout|
      {
        vout := vout[..|vout| - 1];
      }
    }

    method IsPruned() returns (pruned: bool)
      ensures pruned <==> C.Pruned(Model())
    {
      var i := 0;
      while i < |vout|
        invariant 0 <= i <= |vout|
        invariant forall k :: 0 <= k < i ==> Null(vout[k])
      {
        if !Null(vout[i]) {
          return false;
        }
        i := i + 1;
      }
      return true;
    }

    method CalcMaskSize() returns (bytes: nat, nonzeroBytes: nat)
      ensures bytes == C.MaskSize(vout) && nonzeroBytes == C.MaskCode(vout)
    {
      hide C.MaskByte;
      bytes, nonzeroBytes := 0, 0;
      var b := 0;
      while 2 + b * 8 < |vout|
        invariant 0 <= b <= C.Blocks(vout)
        invariant bytes == C.LastUsed(vout, b) && nonzeroBytes == C.NonZero(vout, b)
        decreases |vout| - b
      {
        var zero := ByteIsZero(b);
        if !zero {
          bytes := b + 1;
          nonzeroBytes := nonzeroBytes + 1;
        }
        b := b + 1;
      }
    }

    method ByteIsZero(b: nat) returns (zero: bool)
      ensures zero <==> C.MaskByte(vout, b) == 0
    {
      zero := true;
      var i := 0;
      while i < 8 && 2 + b * 8 + i < |vout|
        invariant 0 <= i <= 8
        invariant zero <==> forall j: nat :: 2 + 8 * b <= j < 2 + 8 * b + i ==> !C.Avail(vout, j)
      {
        if !Null(vout[2 + b * 8 + i]) {
          assert C.Avail(vout, 2 + 8 * b + i);
          zero := false;
        }
        i := i + 1;
      }
      C.PackZero(vout, 2 + 8 * b, 8);
    }

    method Spend(n: nat) returns (undo: Option<C.Undo>)
      modifies this
      ensures match C.Spend(old(Model()), n)
              case None => undo == None && Model() == old(Model())
              case Some((spent, u)) => undo == Some(u) && Model() == spent
    {
      if n >= |vout| {
        return None;
      }
      if Null(vout[n]) {
        return None;
      }
      var u := C.Undo(vout[n], false, false, 0, 0);
      vout := vout[n := NullOut()];
      Cleanup();
      if |vout| == 0 {
        u := u.(height := height, coinBase := coinBase, coinStake := coinStake, version := version);
      }
      return Some(u);
    }

    /** One byte of the mask, bit by bit. */
    method AvailByte(b: nat) returns (avail: Byte)
      ensures avail == C.MaskByte(vout, b)
    {
      hide C.Pack, Pow;
      var sum: nat := 0;
      var i := 0;
      Weights();
      while i < 8 && 2 + b * 8 + i < |vout|
        invariant 0 <= i <= 8
        invariant sum + Pow(2, i) * C.Pack(vout, 2 + 8 * b + i, 8 - i) == C.Pack(vout, 2 + 8 * b, 8)
      {
        BitStep(vout, 2 + 8 * b + i, i);
        if !Null(vout[2 + b * 8 + i]) {
          sum := sum + Pow(2, i);
        }
        i := i + 1;
      }
      C.PackZero(vout, 2 + 8 * b + i, 8 - i);
      assert C.Pack(vout, 2 + 8 * b + i, 8 - i) == 0;
      avail := sum;
    }

    static lemma Weights()
      ensures Pow(2, 0) == 1 && Pow(2, 8) == 256 && forall outs, i :: C.Pack(outs, i, 0) == 0
    {
      assert Pow(2, 4) == 16;
    }

    static lemma BitStep(outs: seq<TxOut>, start: nat, i: nat)
      requires i < 8
      ensures Pow(2, i) * C.Pack(outs, start, 8 - i)
        == (if C.Avail(outs, start) then Pow(2, i) else 0) + Pow(2, i + 1) * C.Pack(outs, start + 1, 7 - i)
    {
      var p, rest := Pow(2, i), C.Pack(outs, start + 1, 7 - i);
      assert Pow(2, i + 1) == 2 * p;
      Distribute(p, rest);
      assert C.Pack(outs, start, 8 - i) == C.B(C.Avail(outs, start), 1) + 2 * rest;
    }

    static lemma Distribute(p: nat, rest: nat)
      ensures p * (0 + 2 * rest) == 2 * p * rest && p * (1 + 2 * rest) == p + 2 * p * rest
    {
    }

    method Serialize(curve: Curve) returns (s: Bytes)
      requires C.Serializable(Model())
      ensures s == C.Serialize(curve, Model())
    {
      hide Encode, C.Blocks, C.NonZero, C.LastUsed, C.AllStorable, C.MaskBytes, C.OutsBytes;
      C.CodeDefined(Model());
      var maskSize, maskCode := CalcMaskSize();
      var first, second := |vout| > 0 && !Null(vout[0]), |vout| > 1 && !Null(vout[1]);
      assert first || second || maskCode > 0;
      var code := 16 * (maskCode - if first || second then 0 else 1)
        + (if coinBase then 1 else 0) + (if coinStake then 2 else 0) + (if first then 4 else 0) + (if second then 8 else 0);
      assert code == C.Code(Model());
      var mask := SerializeMask(maskSize);
      var outs := SerializeOuts(curve);
      s := Encode(version) + (Encode(code) + ((mask + outs) + Encode(height)));
    }

    method SerializeMask(maskSize: nat) returns (s: Bytes)
      ensures s == C.MaskBytes(vout, 0, maskSize)
    {
      hide C.MaskByte;
      s := [];
      var b := 0;
      while b < maskSize
        invariant 0 <= b <= maskSize
        invariant s + C.MaskBytes(vout, b, maskSize) == C.MaskBytes(vout, 0, maskSize)
      {
        var avail := AvailByte(b);
        assert C.MaskBytes(vout, b, maskSize) == [avail] + C.MaskBytes(vout, b + 1, maskSize);
        s := s + [avail];
        b := b + 1;
      }
    }

    method SerializeOuts(curve: Curve) returns (s: Bytes)
      requires C.AllStorable(vout)
      ensures s == C.OutsBytes(curve, vout, 0)
    {
      hide OutBytes, AmountFits;
      s := [];
      var i := 0;
      while i < |vout|
        invariant 0 <= i <= |vout|
        invariant s + C.OutsBytes(curve, vout, i) == C.OutsBytes(curve, vout, 0)
      {
        assert vout[i] in vout;
        if !Null(vout[i]) {
          assert C.OutsBytes(curve, vout, i) == OutBytes(curve, vout[i]) + C.OutsBytes(curve, vout, i + 1);
          assert s + (OutBytes(curve, vout[i]) + C.OutsBytes(curve, vout, i + 1))
            == (s + OutBytes(curve, vout[i])) + C.OutsBytes(curve, vout, i + 1);
          s := s + OutBytes(curve, vout[i]);
        } else {
          assert C.OutsBytes(curve, vout, i) == [] + C.OutsBytes(curve, vout, i + 1);
        }
        i := i + 1;
      }
    }

    /** Reads a record; on None the stream ended or broke off and the object is half written. */
    method Unserialize(curve: Curve, s: Bytes) returns (rest: Option<Bytes>)
      modifies this
      ensures match C.Unserialize(curve, s)
              case None => rest == None
              case Some((coins, r)) => rest == Some(r) && Model() == coins
    {
      hide Decode, C.Bit, C.Trim, C.ReadMask, C.ReadOuts;
      var v := Decode(s, C.I32);
      if v.None? { return None; }
      version := v.value.0;
      var k := Decode(v.value.1, U32);
      if k.None? { return None; }
      var code := k.value.0;
      coinBase := C.Bit(code, 0);
      coinStake := C.Bit(code, 1);
      var avail := [C.Bit(code, 2), C.Bit(code, 3)];
      var mask := UnserializeMask(k.value.1, code / 16 + if C.Bit(code, 2) || C.Bit(code, 3) then 0 else 1);
      if mask.None? { return None; }
      avail := avail + mask.value.0;
      var outs := UnserializeOuts(curve, avail, mask.value.1);
      if outs.None? { return None; }
      vout := outs.value.0;
      var h := Decode(outs.value.1, C.I32);
      if h.None? { return None; }
      height := h.value.0;
      Cleanup();
      return Some(h.value.1);
    }

    method UnserializeMask(s: Bytes, count: nat) returns (r: Option<(seq<bool>, Bytes)>)
      ensures r == C.ReadMask(s, count)
    {
      hide C.Bits;
      var avail, left, i := [], count, 0;
      assert s[0..] == s;
      ghost var whole := C.ReadMask(s, count);
      if whole.Some? {
        assert [] + whole.value.0 == whole.value.0;
      }
      while left > 0
        invariant 0 <= i <= |s| && 0 <= left
        invariant C.ReadMask(s, count) ==
          match C.ReadMask(s[i..], left)
          case None => None
          case Some((more, rest)) => Some((avail + more, rest))
        decreases |s| - i
      {
        if i == |s| {
          return None;
        }
        assert s[i..][1..] == s[i + 1..] && s[i..][0] == s[i];
        ghost var rest := C.ReadMask(s[i + 1..], left - if s[i] != 0 then 1 else 0);
        if rest.Some? {
          assert avail + (C.Bits(s[i]) + rest.value.0) == (avail + C.Bits(s[i])) + rest.value.0;
        }
        var bits := ReadBits(s[i]);
        avail := avail + bits;
        if s[i] != 0 {
          left := left - 1;
        }
        i := i + 1;
      }
      assert avail + [] == avail;
      return Some((avail, s[i..]));
    }

    method ReadBits(m: Byte) returns (bits: seq<bool>)
      ensures bits == C.Bits(m)
    {
      bits := [];
      var p := 0;
      while p < 8
        invariant 0 <= p <= 8 && |bits| == p
        invariant forall q :: 0 <= q < p ==> bits[q] == C.Bit(m, q)
      {
        bits := bits + [C.Bit(m, p)];
        p := p + 1;
      }
    }

    method UnserializeOuts(curve: Curve, avail: seq<bool>, s: Bytes) returns (r: Option<(seq<TxOut>, Bytes)>)
      ensures r == C.ReadOuts(curve, avail, s)
    {
      hide ReadOut;
      var outs, i, left := [], 0, s;
      assert avail[0..] == avail;
      ghost var whole := C.ReadOuts(curve, avail, s);
      if whole.Some? {
        assert [] + whole.value.0 == whole.value.0;
      }
      while i < |avail|
        invariant 0 <= i <= |avail|
        invariant C.ReadOuts(curve, avail, s) ==
          match C.ReadOuts(curve, avail[i..], left)
          case None => None
          case Some((more, rest)) => Some((outs + more, rest))
      {
        assert avail[i..][1..] == avail[i + 1..] && avail[i..][0] == avail[i];
        var o := NullOut();
        var after := left;
        if avail[i] {
          var read := ReadOut(curve, left);
          if read.None? {
            return None;
          }
          o, after := read.value.0, read.value.1;
        }
        ghost var rest := C.ReadOuts(curve, avail[i + 1..], after);
        if rest.Some? {
          assert outs + ([o] + rest.value.0) == (outs + [o]) + rest.value.0;
        }
        outs, left := outs + [o], after;
        i := i + 1;
      }
      assert outs + [] == outs;
      return Some((outs, left));
    }
  }
}
