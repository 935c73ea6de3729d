/** Block index entries, skip pointers and the active chain: src/chain.cpp, src/chain.h, src/main.cpp. */
module Chain {
  import opened Basics

  /** n & (n - 1): the lowest one bit cleared. */
  function InvertLowestOne(n: nat): (r: nat)
    ensures n > 0 ==> r < n
    ensures n == 0 ==> r == 0
  {
    if n == 0 then 0 else if n % 2 == 1 then n - 1 else 2 * InvertLowestOne(n / 2)
  }

  /** Of an odd multiple of a power of two the power is taken off. */
  lemma {:induction false} LowestOneCleared(n: nat) returns (m: nat, k: nat)
    requires n > 0
    ensures n == (2 * m + 1) * Pow(2, k) && InvertLowestOne(n) == 2 * m * Pow(2, k)
  {
    if n % 2 == 1 {
      m, k := n / 2, 0;
      assert Pow(2, 0) == 1;
    } else {
      m, k := LowestOneCleared(n / 2);
      Associate(2, 2 * m + 1, Pow(2, k));
      Associate(2, 2 * m, Pow(2, k));
      k := k + 1;
      Associate(2 * m + 1, 2, Pow(2, k - 1));
      Associate(2 * m, 2, Pow(2, k - 1));
    }
  }

  /** GetSkipHeight: lower than the height, from height one up. */
  function SkipHeight(height: nat): (s: nat)
    ensures height > 0 ==> s < height
    ensures height == 0 ==> s == 0
  {
    if height < 2 then 0
    else if height % 2 == 1 then InvertLowestOne(InvertLowestOne(height - 1)) + 1
    else InvertLowestOne(height)
  }

  /** CBlockIndex: path lists the ancestors from the genesis block up to this one. */
  class BlockIndex {
    const pprev: BlockIndex?
    const pskip: BlockIndex?
    const height: nat
    ghost const path: seq<BlockIndex>

    ghost predicate Valid() {
      && |path| == height + 1 && path[height] == this && path[0].pprev == null
      && (forall i :: 0 <= i <= height ==> path[i].height == i && path[i].path == path[..i + 1])
      && (forall i :: 0 < i <= height ==> path[i].pprev == path[i - 1])
      && forall i :: 0 < i <= height ==> path[i].pskip == path[SkipHeight(i)]
    }

    lemma AncestorValid(i: nat)
      requires Valid() && i <= height
      ensures path[i].Valid() && path[i].height == i && path[i].path == path[..i + 1]
    {
      var b := path[i];
      forall k | 0 <= k <= i ensures b.path[k] == path[k] && path[..i + 1][..k + 1] == path[..k + 1] {
      }
    }

    /** A new block on another one; the skip pointer is built from the previous block. */
    constructor (previous: BlockIndex?)
      requires previous != null ==> previous.Valid()
      ensures Valid() && pprev == previous
      ensures path == (if previous == null then [] else previous.path) + [this]
    {
      var h := if previous == null then 0 else previous.height + 1;
      var skip: BlockIndex? := null;
      if previous != null {
        skip := previous.GetAncestor(SkipHeight(h));
      }
      pprev := previous;
      pskip := skip;
      height := h;
      path := (if previous == null then [] else previous.path) + [this];
      new;
      if previous != null {
        ValidOnTop(previous);
      }
    }

    lemma ValidOnTop(previous: BlockIndex)
      requires previous.Valid() && pprev == previous && height == previous.height + 1
      requires path == previous.path + [this] && pskip == previous.path[SkipHeight(height)]
      ensures Valid()
    {
      forall i | 0 <= i <= height ensures path[i].height == i && path[i].path == path[..i + 1] {
        if i < height {
          assert path[i] == previous.path[i] && path[..i + 1] == previous.path[..i + 1];
        } else {
          assert path[..i + 1] == path;
        }
      }
    }

    /** The ancestor at a height, by skip pointers where they do not overshoot. */
    method GetAncestor(target: int) returns (r: BlockIndex?)
      requires Valid()
      ensures r == if target < 0 || target > height then null else path[target]
    {
      if target > height || target < 0 {
        return null;
      }
      var walk, heightWalk := this, height;
      while heightWalk > target
        invariant target <= heightWalk <= height && walk == path[heightWalk]
      {
        assert path[heightWalk].pprev == path[heightWalk - 1] && path[heightWalk].pskip == path[SkipHeight(heightWalk)];
        var heightSkip, heightSkipPrev := SkipHeight(heightWalk), SkipHeight(heightWalk - 1);
        if heightSkip == target
          || (heightSkip > target && !(heightSkipPrev < heightSkip - 2 && heightSkipPrev >= target)) {
          walk := walk.pskip;
          heightWalk := heightSkip;
        } else {
          walk := walk.pprev;
          heightWalk := heightWalk - 1;
        }
      }
      return walk;
    }
  }

  /** Whether two paths meet at height i. */
  ghost predicate Meet(a: seq<BlockIndex>, b: seq<BlockIndex>, i: nat) {
    i < |a| && i < |b| && a[i] == b[i]
  }

  /** The highest block of both paths; null when they have none in common. */
  ghost predicate HighestCommon(a: seq<BlockIndex>, b: seq<BlockIndex>, r: BlockIndex?) {
    if r == null then forall i: nat :: !Meet(a, b, i)
    else Meet(a, b, r.height) && a[r.height] == r && forall i: nat :: i > r.height ==> !Meet(a, b, i)
  }

  /** LastCommonAncestor of src/main.cpp: its assert cannot fail. */
  method LastCommonAncestor(a: BlockIndex, b: BlockIndex) returns (r: BlockIndex?)
    requires a.Valid() && b.Valid()
    ensures HighestCommon(a.path, b.path, r)
  {
    var pa: BlockIndex?, pb: BlockIndex? := a, b;
    if a.height > b.height {
      pa := a.GetAncestor(b.height);
    } else if b.height > a.height {
      pb := b.GetAncestor(a.height);
    }
    ghost var h := if a.height < b.height then a.height else b.height;
    while pa != pb && pa != null && pb != null
      invariant -1 <= h < |a.path| && h < |b.path|
      invariant pa == (if h < 0 then null else a.path[h]) && pb == (if h < 0 then null else b.path[h])
      invariant forall i: nat :: i > h ==> !Meet(a.path, b.path, i)
      decreases h
    {
      assert a.path[h].height == h && b.path[h].height == h;
      assert h > 0 ==> a.path[h].pprev == a.path[h - 1] && b.path[h].pprev == b.path[h - 1];
      pa := pa.pprev;
      pb := pb.pprev;
      h := h - 1;
    }
    assert pa == pb;
    assert h >= 0 ==> a.path[h].height == h;
    return pa;
  }

  class ActiveChain {
    var vChain: seq<BlockIndex?>

    /** Empty, or the full path of the block at the end. */
    ghost predicate Valid()
      reads this
    {
      vChain == [] || (vChain[|vChain| - 1] != null && vChain[|vChain| - 1].Valid() && vChain == vChain[|vChain| - 1].path)
    }

    ghost function Path(): (p: seq<BlockIndex>)
      reads this
      requires Valid()
      ensures |p| == |vChain| && forall i :: 0 <= i < |p| ==> p[i] == vChain[i] && p[i].height == i && p[i].Valid()
    {
      if vChain == [] then []
      else
        var tip: BlockIndex := vChain[|vChain| - 1];
        assert forall i :: 0 <= i < |tip.path| ==> tip.path[i].height == i && tip.path[i].Valid() by {
          forall i | 0 <= i < |tip.path| ensures tip.path[i].height == i && tip.path[i].Valid() {
            tip.AncestorValid(i);
          }
        }
        tip.path
    }

    constructor ()
      ensures vChain == [] && Valid()
    {
      vChain := [];
    }

    function Tip(): (t: BlockIndex?)
      reads this
    {
      if |vChain| < 1 then null else vChain[|vChain| - 1]
    }

    function Height(): int
      reads this
    {
      |vChain| - 1
    }

    function Entry(h: int): BlockIndex?
      reads this
    {
      if h < 0 || h >= |vChain| then null else vChain[h]
    }

    predicate Contains(b: BlockIndex)
      reads this
    {
      Entry(b.height) == b
    }

    /** Overwrites entries from the new tip down and stops at the first that is right already. */
    method SetTip(tip: BlockIndex?)
      requires Valid() && (tip != null ==> tip.Valid())
      modifies this
      ensures Valid() && vChain == if tip == null then [] else tip.path
    {
      if tip == null {
        vChain := [];
        return;
      }
      ghost var was := vChain;
      vChain := Resized(vChain, tip.height + 1);
      var pindex: BlockIndex? := tip;
      ghost var h: int := tip.height;
      while pindex != null && vChain[pindex.height] != pindex
        invariant -1 <= h <= tip.height && |vChain| == tip.height + 1
        invariant pindex == if h < 0 then null else tip.path[h]
        invariant forall i :: h < i <= tip.height ==> vChain[i] == tip.path[i]
        invariant forall i :: 0 <= i <= h ==> vChain[i] == Resized(was, tip.height + 1)[i]
        decreases h
      {
        assert tip.path[h].height == h;
        assert h > 0 ==> tip.path[h].pprev == tip.path[h - 1];
        vChain := vChain[pindex.height := pindex];
        pindex := pindex.pprev;
        h := h - 1;
      }
      if h >= 0 {
        assert tip.path[h].height == h;
        tip.AncestorValid(h);
        var before: BlockIndex := was[|was| - 1];
        before.AncestorValid(h);
        forall i | 0 <= i <= h ensures vChain[i] == tip.path[i] {
          assert before.path[..h + 1][i] == tip.path[..h + 1][i];
        }
      }
      assert vChain == tip.path;
    }

    /** The last block this chain and a block's own path have in common. */
    method FindFork(b: BlockIndex) returns (fork: BlockIndex?)
      requires Valid() && b.Valid()
      ensures HighestCommon(Path(), b.path, fork)
    {
      var pindex: BlockIndex? := b;
      if b.height > Height() {
        pindex := b.GetAncestor(Height());
      }
      ghost var h: int := if b.height > Height() then Height() else b.height;
      while pindex != null && !Contains(pindex)
        invariant -1 <= h <= b.height && h < |vChain|
        invariant pindex == if h < 0 then null else b.path[h]
        invariant forall i: nat :: i > h ==> !Meet(Path(), b.path, i)
        decreases h
      {
        assert b.path[h].height == h;
        assert h > 0 ==> b.path[h].pprev == b.path[h - 1];
        pindex := pindex.pprev;
        h := h - 1;
      }
      if h >= 0 {
        assert b.path[h].height == h && Meet(Path(), b.path, h);
      }
      return pindex;
    }

    /** The locator from a block, or from the tip: that block first, then ancestors at strictly
        falling heights, the genesis block last: the first twelve one apart, then at doubling steps. */
    method GetLocator(b: BlockIndex?) returns (have: seq<BlockIndex>)
      requires Valid() && (b != null ==> b.Valid())
      ensures b == null && vChain == [] ==> have == []
      ensures b != null || vChain != [] ==>
        var start := if b != null then b else Path()[|Path()| - 1];
        && have != [] && have[0] == start && have[|have| - 1].height == 0
        && Descends(start, have)
        && (|have| > 12 ==> Pow(2, |have| - 12) < start.height)
        && forall k :: 0 <= k < |have| ==>
             var down := if k <= 11 then k else 9 + Pow(2, k - 10);
             have[k].height == if down < start.height then start.height - down else 0
    {
      have := [];
      var pindex := if b != null then b else Tip();
      if pindex != null {
        have := Locate(pindex);
      }
    }

    method Locate(start: BlockIndex) returns (have: seq<BlockIndex>)
      requires Valid() && start.Valid()
      ensures have != [] && have[0] == start && have[|have| - 1].height == 0 && Descends(start, have)
      ensures |have| > 12 ==> Pow(2, |have| - 12) < start.height
      ensures forall k :: 0 <= k < |have| ==> have[k].height == Left(start.height, k)
    {
      hide Pow, Left;
      var nStep, pindex := 1, start;
      have := [];
      StepZero(start.height);
      while true
        invariant pindex.height <= start.height && pindex == start.path[pindex.height] && pindex.height == Left(start.height, |have|)
        invariant nStep == if |have| <= 10 then 1 else Pow(2, |have| - 10)
        invariant Descends(start, have)
        invariant forall k :: 0 <= k < |have| ==> have[k].height == Left(start.height, k)
        invariant if have == [] then pindex == start else have[0] == start && pindex.height < have[|have| - 1].height
        invariant |have| >= 12 ==> Pow(2, |have| - 11) < start.height
        decreases pindex.height
      {
        StepBack(start.height, |have|);
        have := have + [pindex];
        if pindex.height == 0 {
          break;
        }
        var nHeight := if pindex.height - nStep > 0 then pindex.height - nStep else 0;
        pindex := Ancestor(start, pindex, nHeight);
        if |have| > 10 {
          nStep := nStep * 2;
        }
      }
    }

    /** One step down, by the chain's index where the block is in the chain. */
    method Ancestor(ghost start: BlockIndex, pindex: BlockIndex, h: nat) returns (r: BlockIndex)
      requires Valid() && start.Valid() && pindex.height <= start.height && pindex == start.path[pindex.height]
      requires h <= pindex.height
      ensures h <= start.height && r == start.path[h] && r.height == h
    {
      start.AncestorValid(pindex.height);
      if Contains(pindex) {
        MeetBelowChain(pindex, h);
        r := Entry(h);
      } else {
        r := pindex.GetAncestor(h);
      }
      assert start.path[..pindex.height + 1][h] == start.path[h];
    }

    lemma MeetBelowChain(b: BlockIndex, h: nat)
      requires Valid() && b.Valid() && Contains(b) && h <= b.height
      ensures Entry(h) == b.path[h]
    {
      var tip: BlockIndex := vChain[|vChain| - 1];
      tip.AncestorValid(b.height);
      assert tip.path[..b.height + 1][h] == b.path[h];
    }
  }

  /** Ancestors of the start at strictly falling heights. */
  ghost predicate Descends(start: BlockIndex, have: seq<BlockIndex>) {
    && (forall k :: 0 <= k < |have| ==> have[k].height < |start.path| && have[k] == start.path[have[k].height])
    && forall j, k :: 0 <= j < k < |have| ==> have[k].height < have[j].height
  }

  /** The height the locator has come down to before its entry number k. */
  function Left(height: nat, k: nat): nat {
    var down := if k <= 11 then k else 9 + Pow(2, k - 10);
    if down < height then height - down else 0
  }

  lemma StepZero(height: nat)
    ensures Left(height, 0) == height
  {
  }

  lemma StepBack(height: nat, k: nat)
    ensures var step := if k + 1 <= 11 then 1 else Pow(2, k - 10);
      Left(height, k + 1) == if Left(height, k) > step then Left(height, k) - step else 0
    ensures k + 1 > 10 ==> Pow(2, k + 1 - 10) == 2 * if k <= 10 then 1 else Pow(2, k - 10)
    ensures k >= 11 && Left(height, k) > 0 ==> Pow(2, k - 10) < height
  {
    if k >= 11 {
      assert Pow(2, k - 9) == 2 * Pow(2, k - 10);
    }
  }

  function Resized(s: seq<BlockIndex?>, n: nat): (r: seq<BlockIndex?>)
    ensures |r| == n
  {
    if n <= |s| then s[..n] else s + seq(n - |s|, _ => null)
  }
}
