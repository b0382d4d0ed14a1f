/** The block index (src/chain.h, src/chain.cpp): skip-list ancestor search against the plain walk along pprev, the
    active chain, forks, common ancestors and locators. The index is a set of blocks closed under pprev. */
module Chain {
  import opened Basics
  import opened Powers

  /* ---- Skip heights ---- */

  /** Bitwise and. */
  function And(x: nat, y: nat): nat
    decreases x + y
  {
    if x == 0 || y == 0 then 0 else 2 * And(x / 2, y / 2) + if x % 2 == 1 && y % 2 == 1 then 1 else 0
  }

  lemma {:induction false} AndBound(x: nat, y: nat)
    ensures And(x, y) <= x && And(x, y) <= y
    decreases x + y
  {
    if x > 0 && y > 0 {
      AndBound(x / 2, y / 2);
    }
  }

  function InvertLowestOne(n: nat): nat { if n == 0 then 0 else And(n, n - 1) }

  function GetSkipHeight(height: nat): nat {
    if height < 2 then 0
    else if height % 2 == 1 then InvertLowestOne(InvertLowestOne(height - 1)) + 1
    else InvertLowestOne(height)
  }

  /** A skip always goes down. */
  lemma SkipDown(height: nat)
    requires height > 0
    ensures GetSkipHeight(height) < height
  {
    hide And;
    if height >= 2 {
      if height % 2 == 1 {
        AndBound(height - 1, height - 2);
        var n := InvertLowestOne(height - 1);
        if n > 0 {
          AndBound(n, n - 1);
        }
      } else {
        AndBound(height, height - 1);
      }
    }
  }

  /* ---- Blocks ---- */

  class BlockIndex {
    const pprev: BlockIndex?
    const nHeight: nat
    var pskip: BlockIndex?

    constructor (pprev: BlockIndex?)
      ensures this.pprev == pprev && nHeight == (if pprev == null then 0 else pprev.nHeight + 1) && pskip == null
    {
      this.pprev := pprev;
      nHeight := if pprev == null then 0 else pprev.nHeight + 1;
      pskip := null;
    }
  }

  /** A set of blocks closed under pprev, with heights counted from a root. */
  ghost predicate Linked(S: set<BlockIndex>) {
    forall b | b in S :: if b.pprev == null then b.nHeight == 0 else b.pprev in S && b.nHeight == b.pprev.nHeight + 1
  }

  /** n steps along pprev. */
  function Walk(b: BlockIndex?, n: nat): BlockIndex? { if n == 0 || b == null then b else Walk(b.pprev, n - 1) }

  /** The ancestor at a height, by the plain walk. */
  function Ancestor(b: BlockIndex, h: int): BlockIndex? { if 0 <= h <= b.nHeight then Walk(b, b.nHeight - h) else null }

  /** Every skip pointer that is set leads to the ancestor at the skip height. */
  ghost predicate Skips(S: set<BlockIndex>)
    reads S
  {
    forall b | b in S && b.pskip != null :: b.pskip == Ancestor(b, GetSkipHeight(b.nHeight))
  }

  lemma {:induction false} WalkIn(S: set<BlockIndex>, b: BlockIndex, n: nat)
    requires Linked(S) && b in S && n <= b.nHeight
    ensures var w := Walk(b, n); w != null && w in S && w.nHeight == b.nHeight - n
    decreases n
  {
    if n > 0 {
      WalkIn(S, b.pprev, n - 1);
    }
  }

  lemma {:induction false} WalkAdd(S: set<BlockIndex>, b: BlockIndex, m: nat, n: nat)
    requires Linked(S) && b in S && m + n <= b.nHeight
    ensures Walk(b, m + n) == Walk(Walk(b, m), n)
    decreases m
  {
    if m > 0 {
      WalkAdd(S, b.pprev, m - 1, n);
    }
  }

  lemma AncestorIn(S: set<BlockIndex>, b: BlockIndex, h: int)
    requires Linked(S) && b in S && 0 <= h <= b.nHeight
    ensures var a := Ancestor(b, h); a != null && a in S && a.nHeight == h
  {
    WalkIn(S, b, b.nHeight - h);
  }

  /** An ancestor's ancestors are the block's. */
  lemma AncestorOf(S: set<BlockIndex>, b: BlockIndex, m: int, h: int)
    requires Linked(S) && b in S && 0 <= h <= m <= b.nHeight
    ensures Ancestor(b, m) != null && Ancestor(Ancestor(b, m), h) == Ancestor(b, h)
  {
    WalkIn(S, b, b.nHeight - m);
    WalkAdd(S, b, b.nHeight - m, m - h);
  }

  lemma AncestorPrev(S: set<BlockIndex>, b: BlockIndex)
    requires Linked(S) && b in S && b.nHeight > 0
    ensures b.pprev != null && b.pprev in S && b.pprev == Ancestor(b, b.nHeight - 1)
  {
    assert Walk(b, 1) == Walk(b.pprev, 0);
  }

  /** GetAncestor: follows skip pointers where they do not overshoot. Equals the plain walk. */
  method GetAncestor(b: BlockIndex, height: int, ghost S: set<BlockIndex>) returns (r: BlockIndex?)
    requires Linked(S) && Skips(S) && b in S
    ensures r == Ancestor(b, height)
  {
    hide Walk, GetSkipHeight;
    if height > b.nHeight || height < 0 {
      return null;
    }
    var pindexWalk, heightWalk := b, b.nHeight;
    SelfAncestor(b);
    while heightWalk > height
      invariant height <= heightWalk <= b.nHeight && pindexWalk in S && pindexWalk.nHeight == heightWalk
      invariant pindexWalk == Ancestor(b, heightWalk)
    {
      var heightSkip := GetSkipHeight(heightWalk);
      var heightSkipPrev := GetSkipHeight(heightWalk - 1);
      SkipDown(heightWalk);
      if pindexWalk.pskip != null
          && (heightSkip == height
          || (heightSkip > height && !(heightSkipPrev < heightSkip - 2 && heightSkipPrev >= height))) {
        AncestorOf(S, b, heightWalk, heightSkip);
        AncestorIn(S, b, heightSkip);
        pindexWalk := pindexWalk.pskip;
        heightWalk := heightSkip;
      } else {
        AncestorPrev(S, pindexWalk);
        AncestorOf(S, b, heightWalk, heightWalk - 1);
        pindexWalk := pindexWalk.pprev;
        heightWalk := heightWalk - 1;
      }
    }
    r := pindexWalk;
  }

  lemma SelfAncestor(b: BlockIndex)
    ensures Ancestor(b, b.nHeight) == b
  {
  }

  /** BuildSkip: sets the skip pointer and keeps the law of skips for every block. */
  method BuildSkip(b: BlockIndex, ghost S: set<BlockIndex>)
    requires Linked(S) && Skips(S) && b in S
    modifies b`pskip
    ensures Skips(S)
    ensures b.pskip == if b.pprev != null then Ancestor(b, GetSkipHeight(b.nHeight)) else old(b.pskip)
  {
    hide Walk, GetSkipHeight;
    if b.pprev != null {
      SkipDown(b.nHeight);
      AncestorPrev(S, b);
      AncestorOf(S, b, b.nHeight - 1, GetSkipHeight(b.nHeight));
      b.pskip := GetAncestor(b.pprev, GetSkipHeight(b.nHeight), S);
    }
  }

  /** Adds a block on top of another one (or a root) with its skip pointer built. */
  method AddBlock(pprev: BlockIndex?, ghost S: set<BlockIndex>) returns (b: BlockIndex, ghost S': set<BlockIndex>)
    requires Linked(S) && Skips(S) && (pprev == null || pprev in S)
    ensures fresh(b) && b.pprev == pprev && S' == S + {b} && Linked(S') && Skips(S')
    ensures pprev != null ==> b.pskip == Ancestor(b, GetSkipHeight(b.nHeight))
  {
    b := new BlockIndex(pprev);
    S' := S + {b};
    BuildSkip(b, S');
  }

  /** The chain agrees with the ancestors of one of its blocks. */
  lemma {:induction false} ChainAncestors(c: seq<BlockIndex?>, S: set<BlockIndex>, k: nat, i: nat)
    requires Linked(S) && OnePath(c, S) && i <= k < |c|
    ensures c[k] != null && Ancestor(c[k], i) == c[i]
    decreases k
  {
    if i < k {
      ChainAncestors(c, S, k - 1, i);
      AncestorPrev(S, c[k]);
      AncestorOf(S, c[k], k - 1, i);
    }
  }

  /** Entry i is the block at height i on one path from a root. */
  ghost predicate OnePath(c: seq<BlockIndex?>, S: set<BlockIndex>) {
    && (forall i | 0 <= i < |c| :: c[i] != null && c[i] in S && c[i].nHeight == i)
    && (forall i | 0 < i < |c| :: c[i].pprev == c[i - 1])
  }

  /** Entries from k up are the ancestors of the tip; below k they are still those of the old chain, resized. */
  ghost predicate Replacing(old': seq<BlockIndex?>, c: seq<BlockIndex?>, tip: BlockIndex, k: int) {
    && |c| == tip.nHeight + 1 && 0 <= k <= |c|
    && (forall i | k <= i < |c| :: c[i] == Ancestor(tip, i))
    && (forall i | 0 <= i < k :: c[i] == if i < |old'| then old'[i] else null)
  }

  /** Meeting a block of the old chain ends the replacement: everything below it is already right. */
  lemma Met(old': seq<BlockIndex?>, c: seq<BlockIndex?>, S: set<BlockIndex>, tip: BlockIndex, h: nat)
    requires Linked(S) && OnePath(old', S) && tip in S && h < |c| && Replacing(old', c, tip, h + 1)
    requires c[h] != null && c[h] == Ancestor(tip, h)
    ensures forall i | 0 <= i < |c| :: c[i] == Ancestor(tip, i)
  {
    hide Walk;
    forall i | 0 <= i <= h ensures c[i] == Ancestor(tip, i) {
      ChainAncestors(old', S, h, i);
      AncestorOf(S, tip, h, i);
    }
  }

  lemma AncestorsArePath(c: seq<BlockIndex?>, S: set<BlockIndex>, tip: BlockIndex)
    requires Linked(S) && tip in S && |c| == tip.nHeight + 1 && forall i | 0 <= i < |c| :: c[i] == Ancestor(tip, i)
    ensures OnePath(c, S)
  {
    hide Walk, Linked;
    forall i | 0 <= i < |c| ensures c[i] != null && c[i] in S && c[i].nHeight == i {
      AncestorIn(S, tip, i);
    }
    forall i | 0 < i < |c| ensures c[i].pprev == c[i - 1] {
      AncestorPrev(S, c[i]);
      AncestorOf(S, tip, i, i - 1);
    }
  }

  function Resized(c: seq<BlockIndex?>, n: nat): seq<BlockIndex?> {
    if n <= |c| then c[..n] else c + seq(n - |c|, _ => null)
  }

  class ActiveChain {
    var vChain: seq<BlockIndex?>

    ghost predicate Valid(S: set<BlockIndex>) reads this { Linked(S) && OnePath(vChain, S) }

    constructor ()
      ensures vChain == []
    {
      vChain := [];
    }

    function At(nHeight: int): BlockIndex? reads this { if 0 <= nHeight < |vChain| then vChain[nHeight] else null }

    predicate Contains(b: BlockIndex) reads this { At(b.nHeight) == b }

    function Height(): int reads this { |vChain| - 1 }

    function Tip(): BlockIndex? reads this { if |vChain| > 0 then vChain[|vChain| - 1] else null }

    /** The block after b on this chain, if b is on it and is not the tip. */
    function Next(b: BlockIndex): (r: BlockIndex?)
      reads this
    {
      if Contains(b) then At(b.nHeight + 1) else null
    }

    /** Stops at the first block already in place, and yet every entry is the tip's ancestor at that height. */
    method SetTip(tip: BlockIndex?, ghost S: set<BlockIndex>)
      requires Valid(S) && (tip == null || tip in S)
      modifies this
      ensures Valid(S) && Tip() == tip
      ensures tip == null ==> vChain == []
      ensures tip != null ==>
              |vChain| == tip.nHeight + 1 && forall i | 0 <= i < |vChain| :: vChain[i] == Ancestor(tip, i)
    {
      hide Walk, Linked;
      if tip == null {
        vChain := [];
        return;
      }
      ghost var before := vChain;
      vChain := Resized(vChain, tip.nHeight + 1);
      var pindex: BlockIndex? := tip;
      SelfAncestor(tip);
      ghost var k := tip.nHeight + 1;
      while pindex != null && vChain[pindex.nHeight] != pindex
        invariant 0 <= k <= tip.nHeight + 1 && Replacing(before, vChain, tip, k)
        invariant if k == 0 then pindex == null
                  else pindex == Ancestor(tip, k - 1) && pindex != null && pindex in S && pindex.nHeight == k - 1
        decreases k
      {
        vChain := vChain[pindex.nHeight := pindex];
        StepDown(S, tip, pindex);
        pindex := pindex.pprev;
        k := k - 1;
      }
      if k > 0 {
        Met(before, vChain, S, tip, k - 1);
      }
      AncestorsArePath(vChain, S, tip);
    }

    /** The last block of b's branch that is on this chain. */
    method FindFork(b: BlockIndex?, ghost S: set<BlockIndex>) returns (r: BlockIndex?)
      requires Valid(S) && Skips(S) && (b == null || b in S)
      ensures b == null ==> r == null
      ensures b != null && r != null ==> r == Ancestor(b, r.nHeight) && Contains(r)
      ensures b != null ==>
              forall h | (if r == null then 0 else r.nHeight + 1) <= h <= b.nHeight
              && Ancestor(b, h) != null :: !Contains(Ancestor(b, h))
    {
      hide Walk, Linked, Skips;
      if b == null {
        return null;
      }
      SelfAncestor(b);
      r := b;
      if b.nHeight > Height() {
        r := GetAncestor(b, Height(), S);
        if Height() >= 0 {
          AncestorIn(S, b, Height());
        }
      }
      ghost var k := if r == null then -1 else r.nHeight;
      forall h | k < h <= b.nHeight && Ancestor(b, h) != null ensures !Contains(Ancestor(b, h)) {
        AncestorIn(S, b, h);
      }
      while r != null && !Contains(r)
        invariant -1 <= k <= b.nHeight
        invariant if k == -1 then r == null else r == Ancestor(b, k) && r != null && r in S && r.nHeight == k
        invariant forall h | k < h <= b.nHeight && Ancestor(b, h) != null :: !Contains(Ancestor(b, h))
        decreases k
      {
        StepDown(S, b, r);
        r := r.pprev;
        k := k - 1;
      }
    }

    lemma TipIn(S: set<BlockIndex>)
      requires Valid(S)
      ensures Tip() == null || Tip() in S
    {
    }

    /** The ancestor, read off the chain when the block is on it. */
    method AncestorFor(b: BlockIndex, nHeight: nat, ghost S: set<BlockIndex>) returns (r: BlockIndex?)
      requires Valid(S) && Skips(S) && b in S && nHeight <= b.nHeight
      ensures r == Ancestor(b, nHeight)
    {
      hide Ancestor, Linked, Skips;
      if Contains(b) {
        ChainAncestors(vChain, S, b.nHeight, nHeight);
        r := At(nHeight);
      } else {
        r := GetAncestor(b, nHeight, S);
      }
    }

    /** Blocks from the given one (or the tip) down to the root, strictly descending, in ever larger steps. */
    method GetLocator(start: BlockIndex?, ghost S: set<BlockIndex>) returns (vHave: seq<BlockIndex>)
      requires Valid(S) && Skips(S) && (start == null || start in S)
      ensures var top := if start != null then start else Tip();
              if top == null then vHave == []
              else && |vHave| > 0 && vHave[0] == top && vHave[|vHave| - 1].nHeight == 0 && Descends(vHave, top)
                   && (|vHave| >= 12 ==> Pow2(|vHave| - 12) + 9 < top.nHeight)
    {
      hide Ancestor, Linked, Skips, Pow2, Descends, StepAfter, Moved, OnePath;
      var nStep := 1;
      vHave := [];
      ghost var top := if start != null then start else Tip();
      var pindex := if start == null then Tip() else start;
      if pindex == null {
        return;
      }
      SelfAncestor(top);
      TipIn(S);
      PowStart();
      NoneYet(top);
      while true
        invariant pindex != null && pindex in S && pindex == Ancestor(top, pindex.nHeight)
                  && pindex.nHeight <= top.nHeight
        invariant Descends(vHave, top) && (vHave == [] ==> pindex == top)
        invariant vHave != [] ==> vHave[0] == top && OneStep(vHave[|vHave| - 1], pindex, |vHave| - 1)
        invariant nStep == StepAfter(|vHave|)
        invariant pindex.nHeight > 0 ==> pindex.nHeight + Moved(|vHave|) == top.nHeight
        invariant |vHave| >= 1 ==> Moved(|vHave| - 1) < top.nHeight
        decreases pindex.nHeight
      {
        Extend(vHave, top, pindex);
        vHave := vHave + [pindex];
        if pindex.nHeight == 0 {
          if |vHave| >= 12 {
            MovedIs(|vHave| - 2);
            UnitPow();
          }
          break;
        }
        StepPositive(|vHave| - 1);
        var nHeight := Max(pindex.nHeight - nStep, 0);
        AncestorOf(S, top, pindex.nHeight, nHeight);
        AncestorIn(S, top, nHeight);
        pindex := AncestorFor(pindex, nHeight, S);
        StepNext(|vHave| - 1);
        if |vHave| > 10 {
          nStep := nStep * 2;
        }
      }
    }
  }

  lemma StepDown(S: set<BlockIndex>, b: BlockIndex, a: BlockIndex)
    requires Linked(S) && b in S && a in S && a.nHeight <= b.nHeight && a == Ancestor(b, a.nHeight)
    ensures if a.nHeight == 0 then a.pprev == null
            else && a.pprev != null && a.pprev in S && a.pprev.nHeight == a.nHeight - 1
                 && a.pprev == Ancestor(b, a.nHeight - 1)
  {
    hide Walk;
    if a.nHeight > 0 {
      AncestorPrev(S, a);
      AncestorOf(S, b, a.nHeight, a.nHeight - 1);
    }
  }

  /* ---- Locator length ---- */

  /** The step in use after n blocks have been recorded. */
  function StepAfter(n: nat): nat { if n <= 10 then 1 else Pow2(n - 10) }

  /** How far the first n moves go, while they are not cut off at the root. */
  function Moved(n: nat): nat { if n == 0 then 0 else Moved(n - 1) + StepAfter(n - 1) }

  lemma PowStart()
    ensures StepAfter(0) == 1
  {
  }

  lemma StepPositive(n: nat)
    ensures StepAfter(n) >= 1
  {
  }

  lemma StepNext(n: nat)
    ensures StepAfter(n + 1) == if n + 1 > 10 then 2 * StepAfter(n) else StepAfter(n)
    ensures Moved(n + 1) == Moved(n) + StepAfter(n)
  {
  }

  lemma {:induction false} MovedIs(n: nat)
    ensures Moved(n) == if n <= 10 then n else 9 + Pow2(n - 10)
    decreases n
  {
    if n > 0 {
      MovedIs(n - 1);
    }
  }

  /** From entry i to the next: down by the current step, or to the root. */
  predicate OneStep(a: BlockIndex, b: BlockIndex, i: nat) { b.nHeight == Max(a.nHeight - StepAfter(i), 0) < a.nHeight }

  /** Recorded blocks are ancestors of the first, each one step below the one before. */
  ghost predicate Descends(have: seq<BlockIndex>, top: BlockIndex) {
    && (forall i | 0 <= i < |have| :: have[i] == Ancestor(top, have[i].nHeight) && have[i].nHeight <= top.nHeight)
    && (forall i | 0 <= i < |have| - 1 :: OneStep(have[i], have[i + 1], i))
  }

  lemma NoneYet(top: BlockIndex)
    ensures Descends([], top) && Moved(0) == 0
  {
  }

  lemma Extend(have: seq<BlockIndex>, top: BlockIndex, b: BlockIndex)
    requires Descends(have, top) && b == Ancestor(top, b.nHeight) && b.nHeight <= top.nHeight
    requires have != [] ==> OneStep(have[|have| - 1], b, |have| - 1)
    ensures Descends(have + [b], top)
  {
    hide Ancestor, OneStep;
    var h := have + [b];
    forall i | 0 <= i < |h| - 1 ensures OneStep(h[i], h[i + 1], i) {
      assert i < |have| - 1 ==> OneStep(have[i], have[i + 1], i);
    }
  }

  /** Below a height of 2^30 a locator has at most 41 entries, and the step stays within 31 bits. */
  lemma LocatorLength(n: nat, height: nat)
    requires 0 < n && height < Pow2(30) && (n >= 12 ==> Pow2(n - 12) + 9 < height)
    ensures n <= 41 && StepAfter(n - 1) <= Pow2(30)
  {
    if n > 41 {
      Pow2Mono(30, n - 12);
    }
    if n > 11 {
      Pow2Mono(n - 11, 30);
    }
  }

  /** The last block two branches have in common; null when they have different roots. */
  method LastCommonAncestor(pa: BlockIndex, pb: BlockIndex, ghost S: set<BlockIndex>) returns (r: BlockIndex?)
    requires Linked(S) && Skips(S) && pa in S && pb in S
    ensures r != null ==> r == Ancestor(pa, r.nHeight) == Ancestor(pb, r.nHeight)
    ensures forall h | (if r == null then 0 else r.nHeight + 1) <= h <= pa.nHeight
            && h <= pb.nHeight :: Ancestor(pa, h) != Ancestor(pb, h)
  {
    hide Walk, Linked, Skips;
    var a: BlockIndex?, b: BlockIndex? := pa, pb;
    SelfAncestor(pa);
    SelfAncestor(pb);
    ghost var k: int := if pa.nHeight < pb.nHeight then pa.nHeight else pb.nHeight;
    AncestorIn(S, pa, k);
    AncestorIn(S, pb, k);
    if pa.nHeight > pb.nHeight {
      a := GetAncestor(pa, pb.nHeight, S);
    } else if pb.nHeight > pa.nHeight {
      b := GetAncestor(pb, pa.nHeight, S);
    }
    while a != b && a != null && b != null
      invariant -1 <= k <= pa.nHeight && k <= pb.nHeight
      invariant if k == -1 then a == null && b == null
                else && a == Ancestor(pa, k) && b == Ancestor(pb, k) && a != null && b != null
                     && a in S && b in S && a.nHeight == b.nHeight == k
      invariant forall h | k < h <= pa.nHeight && h <= pb.nHeight :: Ancestor(pa, h) != Ancestor(pb, h)
      decreases k
    {
      StepDown(S, pa, a);
      StepDown(S, pb, b);
      a := a.pprev;
      b := b.pprev;
      k := k - 1;
    }
    assert a == b;
    r := a;
  }
}
