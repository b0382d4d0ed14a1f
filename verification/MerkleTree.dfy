/** Partial Merkle trees as values (src/merkleblock.h, src/merkleblock.cpp): the tree over the
    transaction ids of a block, the depth-first encoding of a matched subset and its decoding. The pair
    hash is a parameter. */
module MerkleTree {
  import opened Powers

  type Hash = int
  const ZERO_HASH: Hash := 0
  type Hasher = (Hash, Hash) -> Hash

  ghost predicate Injective(hash: Hasher) {
    forall a, b, c, d :: hash(a, b) == hash(c, d) ==> a == c && b == d
  }

  /** CalcTreeWidth: the number of nodes at a height. */
  function Width(n: nat, height: nat): nat { (n + Pow2(height) - 1) / Pow2(height) }

  /** First leaf under a node, and the end of its leaves. */
  function First(height: nat, pos: nat): nat { pos * Pow2(height) }
  function End(n: nat, height: nat, pos: nat): nat {
    if First(height, pos + 1) < n then First(height, pos + 1) else n
  }

  lemma WidthLeaf(n: nat)
    ensures Width(n, 0) == n
  {
  }

  /** A position is in the tree exactly when its first leaf is. */
  lemma InTree(n: nat, height: nat, pos: nat)
    ensures pos < Width(n, height) <==> First(height, pos) < n
  {
    var p := Pow2(height);
    var x := n + p - 1;
    DivBounds(x, p);
    var w := x / p;
    if pos < w {
      MulMonoInt(pos + 1, w, p);
    } else {
      MulMonoInt(w, pos, p);
    }
  }

  /** The children of a node split its leaves. */
  lemma Children(n: nat, height: nat, pos: nat)
    requires height > 0 && pos < Width(n, height)
    ensures 2 * pos < Width(n, height - 1)
    ensures First(height - 1, 2 * pos) == First(height, pos)
    ensures First(height - 1, 2 * pos + 2) == First(height, pos + 1)
    ensures 2 * pos + 1 < Width(n, height - 1) <==> First(height - 1, 2 * pos + 1) < n
    ensures 2 * pos + 1 < Width(n, height - 1) ==> End(n, height - 1, 2 * pos) == First(height - 1, 2 * pos + 1)
    ensures !(2 * pos + 1 < Width(n, height - 1)) ==> End(n, height - 1, 2 * pos) == n == End(n, height, pos)
    ensures End(n, height - 1, 2 * pos + 1) == End(n, height, pos)
  {
    InTree(n, height, pos);
    InTree(n, height - 1, 2 * pos);
    InTree(n, height - 1, 2 * pos + 1);
    var q := Pow2(height - 1);
    assert Pow2(height) == 2 * q;
    assert (2 * pos) * q == pos * (2 * q);
    assert (2 * pos + 2) * q == (pos + 1) * (2 * q);
    assert (2 * pos + 1) * q + q == (2 * pos + 2) * q;
  }

  /** CalcHash. */
  function CalcHash(hash: Hasher, txids: seq<Hash>, height: nat, pos: nat): Hash
    requires pos < Width(|txids|, height)
    decreases height
  {
    if height == 0 then WidthLeaf(|txids|); txids[pos]
    else
      Children(|txids|, height, pos);
      var left := CalcHash(hash, txids, height - 1, 2 * pos);
      var right := if 2 * pos + 1 < Width(|txids|, height - 1) then CalcHash(hash, txids, height - 1, 2 * pos + 1)
          else left;
      hash(left, right)
  }

  /* ---- Decoding ---- */

  /** A claimed proof. */
  datatype Proof = Proof(n: nat, bits: seq<bool>, hashes: seq<Hash>)

  /** What TraverseAndExtract returns, adds and leaves behind. */
  datatype Extract = Extract(root: Hash, nBitsUsed: nat, nHashUsed: nat, bad: bool, matches: seq<(Hash, nat)>)

  function Extracted(hash: Hasher, p: Proof, height: nat, pos: nat, b: nat, k: nat): Extract
    decreases height
  {
    if b >= |p.bits| then Extract(ZERO_HASH, b, k, true, [])
    else if height == 0 || !p.bits[b] then
      if k >= |p.hashes| then Extract(ZERO_HASH, b + 1, k, true, [])
      else Extract(p.hashes[k], b + 1, k + 1, false, if height == 0 && p.bits[b] then [(p.hashes[k], pos)] else [])
    else
      var l := Extracted(hash, p, height - 1, 2 * pos, b + 1, k);
      if 2 * pos + 1 < Width(p.n, height - 1) then
        var r := Extracted(hash, p, height - 1, 2 * pos + 1, l.nBitsUsed, l.nHashUsed);
        Extract(hash(l.root, r.root), r.nBitsUsed, r.nHashUsed, l.bad || r.bad || r.root == l.root,
                l.matches + r.matches)
      else
        l.(root := hash(l.root, l.root))
  }

  /** One level of the decoding. */
  lemma ExtractedOnce(hash: Hasher, p: Proof, height: nat, pos: nat, b: nat, k: nat)
    ensures var x := Extracted(hash, p, height, pos, b, k);
            if b >= |p.bits| then x == Extract(ZERO_HASH, b, k, true, [])
            else if height == 0 || !p.bits[b] then
              if k >= |p.hashes| then x == Extract(ZERO_HASH, b + 1, k, true, [])
              else x == Extract(p.hashes[k], b + 1, k + 1, false,
                                if height == 0 && p.bits[b] then [(p.hashes[k], pos)] else [])
            else
              var l := Extracted(hash, p, height - 1, 2 * pos, b + 1, k);
              if 2 * pos + 1 < Width(p.n, height - 1) then
                var r := Extracted(hash, p, height - 1, 2 * pos + 1, l.nBitsUsed, l.nHashUsed);
                x == Extract(hash(l.root, r.root), r.nBitsUsed, r.nHashUsed, l.bad || r.bad || r.root == l.root,
                             l.matches + r.matches)
              else x == l.(root := hash(l.root, l.root))
  {
    hide Width;
  }

  /** Matches lie in a range, are real, and come in increasing order. */
  ghost predicate Genuine(txids: seq<Hash>, m: seq<(Hash, nat)>, lo: nat, hi: nat) {
    && (forall i | 0 <= i < |m| :: lo <= m[i].1 < hi <= |txids| && m[i].0 == txids[m[i].1])
    && (forall i, j | 0 <= i < j < |m| :: m[i].1 < m[j].1)
  }

  lemma GenuineConcat(txids: seq<Hash>, a: seq<(Hash, nat)>, b: seq<(Hash, nat)>, lo: nat, mid: nat, hi: nat)
    requires Genuine(txids, a, lo, mid) && Genuine(txids, b, mid, hi) && lo <= mid <= hi <= |txids|
    ensures Genuine(txids, a + b, lo, hi)
  {
  }

  /** With an injective pair hash, a subtree that hashes to the block's own node reports only transactions
      of the block, whatever bits and hashes it is made of. */
  lemma {:induction false} ExtractSound(hash: Hasher, txids: seq<Hash>, p: Proof, height: nat, pos: nat, b: nat, k: nat)
    requires Injective(hash) && p.n == |txids| && pos < Width(|txids|, height)
    requires var x := Extracted(hash, p, height, pos, b, k); !x.bad && x.root == CalcHash(hash, txids, height, pos)
    ensures Genuine(txids, Extracted(hash, p, height, pos, b, k).matches, First(height, pos), End(|txids|, height, pos))
    decreases height
  {
    InTree(|txids|, height, pos);
    if height > 0 && p.bits[b] {
      Children(|txids|, height, pos);
      var l := Extracted(hash, p, height - 1, 2 * pos, b + 1, k);
      ExtractSound(hash, txids, p, height - 1, 2 * pos, b + 1, k);
      if 2 * pos + 1 < Width(p.n, height - 1) {
        var r := Extracted(hash, p, height - 1, 2 * pos + 1, l.nBitsUsed, l.nHashUsed);
        ExtractSound(hash, txids, p, height - 1, 2 * pos + 1, l.nBitsUsed, l.nHashUsed);
        GenuineConcat(txids, l.matches, r.matches, First(height, pos), First(height - 1, 2 * pos + 1),
            End(|txids|, height, pos));
      }
    }
  }

  /* ---- Encoding ---- */

  predicate Any(vMatch: seq<bool>, lo: nat, hi: nat)
    requires hi <= |vMatch|
  {
    exists p | lo <= p < hi :: vMatch[p]
  }

  function Bits(vMatch: seq<bool>, height: nat, pos: nat): seq<bool>
    requires pos < Width(|vMatch|, height)
    decreases height
  {
    var m := Any(vMatch, First(height, pos), End(|vMatch|, height, pos));
    if height == 0 || !m then [m]
    else
      Children(|vMatch|, height, pos);
      [m] + Bits(vMatch, height - 1, 2 * pos)
          + if 2 * pos + 1 < Width(|vMatch|, height - 1) then Bits(vMatch, height - 1, 2 * pos + 1) else []
  }

  function Hashes(hash: Hasher, txids: seq<Hash>, vMatch: seq<bool>, height: nat, pos: nat): seq<Hash>
    requires |txids| == |vMatch| && pos < Width(|txids|, height)
    decreases height
  {
    var m := Any(vMatch, First(height, pos), End(|txids|, height, pos));
    if height == 0 || !m then [CalcHash(hash, txids, height, pos)]
    else
      Children(|txids|, height, pos);
      Hashes(hash, txids, vMatch, height - 1, 2 * pos)
      + if 2 * pos + 1 < Width(|txids|, height - 1) then Hashes(hash, txids, vMatch, height - 1, 2 * pos + 1) else []
  }

  /** The matched transactions of a range, in order. */
  function MatchList(txids: seq<Hash>, vMatch: seq<bool>, lo: nat, hi: nat): seq<(Hash, nat)>
    requires hi <= |txids| == |vMatch|
    decreases hi
  {
    if hi <= lo then []
    else MatchList(txids, vMatch, lo, hi - 1) + if vMatch[hi - 1] then [(txids[hi - 1], hi - 1)] else []
  }

  lemma {:induction false} MatchListSplit(txids: seq<Hash>, vMatch: seq<bool>, lo: nat, mid: nat, hi: nat)
    requires lo <= mid <= hi <= |txids| == |vMatch|
    ensures MatchList(txids, vMatch, lo, hi) == MatchList(txids, vMatch, lo, mid) + MatchList(txids, vMatch, mid, hi)
    decreases hi
  {
    if mid < hi {
      MatchListSplit(txids, vMatch, lo, mid, hi - 1);
    }
  }

  lemma {:induction false} MatchListNone(txids: seq<Hash>, vMatch: seq<bool>, lo: nat, hi: nat)
    requires hi <= |txids| == |vMatch| && !Any(vMatch, lo, hi)
    ensures MatchList(txids, vMatch, lo, hi) == []
    decreases hi
  {
    if lo < hi {
      MatchListNone(txids, vMatch, lo, hi - 1);
    }
  }

  ghost predicate Distinct(txids: seq<Hash>) { forall i, j | 0 <= i < j < |txids| :: txids[i] != txids[j] }

  /** Equal nodes of one height have equal first leaves. */
  lemma {:induction false} SameNodeSameLeaf(hash: Hasher, txids: seq<Hash>, height: nat, p: nat, q: nat)
    requires Injective(hash) && p < Width(|txids|, height) && q < Width(|txids|, height)
    requires CalcHash(hash, txids, height, p) == CalcHash(hash, txids, height, q)
    ensures First(height, p) < |txids| && First(height, q) < |txids|
            && txids[First(height, p)] == txids[First(height, q)]
    decreases height
  {
    InTree(|txids|, height, p);
    InTree(|txids|, height, q);
    if height > 0 {
      Children(|txids|, height, p);
      Children(|txids|, height, q);
      SameNodeSameLeaf(hash, txids, height - 1, 2 * p, 2 * q);
    }
  }

  lemma SiblingsDiffer(hash: Hasher, txids: seq<Hash>, height: nat, pos: nat)
    requires Injective(hash) && Distinct(txids) && pos + 1 < Width(|txids|, height)
    ensures CalcHash(hash, txids, height, pos) != CalcHash(hash, txids, height, pos + 1)
  {
    assert First(height, pos) < First(height, pos + 1) by {
      assert (pos + 1) * Pow2(height) == pos * Pow2(height) + Pow2(height);
    }
    if CalcHash(hash, txids, height, pos) == CalcHash(hash, txids, height, pos + 1) {
      SameNodeSameLeaf(hash, txids, height, pos, pos + 1);
    }
  }

  /** `part` stands in `whole` from index `at` on. */
  ghost predicate Holds<T>(whole: seq<T>, at: nat, part: seq<T>) {
    at + |part| <= |whole| && whole[at..at + |part|] == part
  }

  lemma HoldsParts<T>(whole: seq<T>, at: nat, a: seq<T>, b: seq<T>)
    requires Holds(whole, at, a + b)
    ensures Holds(whole, at, a) && Holds(whole, at + |a|, b)
  {
    assert whole[at..at + |a|] == (a + b)[..|a|] == a;
    assert whole[at + |a|..at + |a + b|] == (a + b)[|a|..] == b;
  }

  lemma HoldsFirst<T>(whole: seq<T>, at: nat, part: seq<T>)
    requires Holds(whole, at, part) && |part| > 0
    ensures at < |whole| && whole[at] == part[0]
  {
    assert whole[at] == whole[at..at + |part|][0];
  }

  ghost function Expected(hash: Hasher, txids: seq<Hash>, vMatch: seq<bool>, height: nat, pos: nat, b: nat,
                          k: nat): Extract
    requires |txids| == |vMatch| && pos < Width(|txids|, height)
  {
    Extract(CalcHash(hash, txids, height, pos), b + |Bits(vMatch, height, pos)|,
        k + |Hashes(hash, txids, vMatch, height, pos)|,
            false, MatchList(txids, vMatch, First(height, pos), End(|txids|, height, pos)))
  }

  /** Decoding reads back exactly what encoding wrote. */
  lemma {:induction false} ExtractBuilt(hash: Hasher, txids: seq<Hash>, vMatch: seq<bool>, p: Proof, height: nat,
                                        pos: nat, b: nat, k: nat)
    requires Injective(hash) && Distinct(txids) && p.n == |txids| == |vMatch| && pos < Width(|txids|, height)
    requires Holds(p.bits, b, Bits(vMatch, height, pos)) && Holds(p.hashes, k, Hashes(hash, txids, vMatch, height, pos))
    ensures Extracted(hash, p, height, pos, b, k) == Expected(hash, txids, vMatch, height, pos, b, k)
    decreases height
  {
    hide Injective, Distinct;
    var n := |txids|;
    InTree(n, height, pos);
    var lo, hi := First(height, pos), End(n, height, pos);
    HoldsFirst(p.bits, b, Bits(vMatch, height, pos));
    if height == 0 || !Any(vMatch, lo, hi) {
      HoldsFirst(p.hashes, k, Hashes(hash, txids, vMatch, height, pos));
      if height == 0 {
        LeafMatches(txids, vMatch, pos);
      } else {
        MatchListNone(txids, vMatch, lo, hi);
      }
    } else {
      ExtractInner(hash, txids, vMatch, p, height, pos, b, k);
    }
  }

  lemma LeafMatches(txids: seq<Hash>, vMatch: seq<bool>, pos: nat)
    requires |txids| == |vMatch| && pos < |txids|
    ensures First(0, pos) == pos && End(|txids|, 0, pos) == pos + 1
    ensures Any(vMatch, pos, pos + 1) == vMatch[pos]
    ensures MatchList(txids, vMatch, pos, pos + 1) == if vMatch[pos] then [(txids[pos], pos)] else []
  {
    assert MatchList(txids, vMatch, pos, pos) == [];
  }

  /** The encoding of an inner node over a match: a set bit, then its children's encodings. */
  lemma InnerEncoding(hash: Hasher, txids: seq<Hash>, vMatch: seq<bool>, height: nat, pos: nat)
    requires |txids| == |vMatch| && pos < Width(|txids|, height) && height > 0
    requires Any(vMatch, First(height, pos), End(|txids|, height, pos))
    ensures 2 * pos < Width(|txids|, height - 1)
    ensures var two := 2 * pos + 1 < Width(|txids|, height - 1);
            && Bits(vMatch, height, pos) ==
               [true] + (Bits(vMatch, height - 1, 2 * pos) + if two then Bits(vMatch, height - 1, 2 * pos + 1) else [])
            && Hashes(hash, txids, vMatch, height, pos) ==
               Hashes(hash, txids, vMatch, height - 1, 2 * pos)
               + if two then Hashes(hash, txids, vMatch, height - 1, 2 * pos + 1) else []
  {
    hide Any, CalcHash;
    Children(|txids|, height, pos);
  }

  lemma CutEncoding(hash: Hasher, txids: seq<Hash>, vMatch: seq<bool>, height: nat, pos: nat)
    requires |txids| == |vMatch| && pos < Width(|txids|, height)
    requires height == 0 || !Any(vMatch, First(height, pos), End(|txids|, height, pos))
    ensures Bits(vMatch, height, pos) == [Any(vMatch, First(height, pos), End(|txids|, height, pos))]
    ensures Hashes(hash, txids, vMatch, height, pos) == [CalcHash(hash, txids, height, pos)]
  {
  }

  lemma {:induction false} ExtractInner(hash: Hasher, txids: seq<Hash>, vMatch: seq<bool>, p: Proof, height: nat,
                                        pos: nat, b: nat, k: nat)
    requires Injective(hash) && Distinct(txids) && p.n == |txids| == |vMatch| && pos < Width(|txids|, height)
             && height > 0
    requires Any(vMatch, First(height, pos), End(|txids|, height, pos))
    requires Holds(p.bits, b, Bits(vMatch, height, pos)) && Holds(p.hashes, k, Hashes(hash, txids, vMatch, height, pos))
    ensures Extracted(hash, p, height, pos, b, k) == Expected(hash, txids, vMatch, height, pos, b, k)
    decreases height, 1
  {
    hide Injective, Distinct, Any, Holds, MatchList, Width, First, End, Bits, Hashes, Extracted;
    ExtractedOnce(hash, p, height, pos, b, k);
    var n := |txids|;
    InnerEncoding(hash, txids, vMatch, height, pos);
    Children(n, height, pos);
    var lb, lh := Bits(vMatch, height - 1, 2 * pos), Hashes(hash, txids, vMatch, height - 1, 2 * pos);
    HoldsFirst(p.bits, b, Bits(vMatch, height, pos));
    if 2 * pos + 1 < Width(n, height - 1) {
      ExtractPair(hash, txids, vMatch, p, height, pos, b, k);
    } else {
      assert lb + [] == lb && lh + [] == lh;
      HoldsParts(p.bits, b, [true], lb);
      ExtractBuilt(hash, txids, vMatch, p, height - 1, 2 * pos, b + 1, k);
    }
  }

  lemma {:induction false} ExtractPair(hash: Hasher, txids: seq<Hash>, vMatch: seq<bool>, p: Proof, height: nat,
                                       pos: nat, b: nat, k: nat)
    requires Injective(hash) && Distinct(txids) && p.n == |txids| == |vMatch| && pos < Width(|txids|, height)
             && height > 0
    requires Any(vMatch, First(height, pos), End(|txids|, height, pos)) && 2 * pos + 1 < Width(|txids|, height - 1)
    requires Holds(p.bits, b, Bits(vMatch, height, pos)) && Holds(p.hashes, k, Hashes(hash, txids, vMatch, height, pos))
    ensures Extracted(hash, p, height, pos, b, k) == Expected(hash, txids, vMatch, height, pos, b, k)
    decreases height, 0
  {
    hide Injective, Distinct, Any, Holds, MatchList, Width, First, End, Bits, Hashes, Extracted;
    ExtractedOnce(hash, p, height, pos, b, k);
    var n := |txids|;
    InnerEncoding(hash, txids, vMatch, height, pos);
    Children(n, height, pos);
    var lb, lh := Bits(vMatch, height - 1, 2 * pos), Hashes(hash, txids, vMatch, height - 1, 2 * pos);
    var rb, rh := Bits(vMatch, height - 1, 2 * pos + 1), Hashes(hash, txids, vMatch, height - 1, 2 * pos + 1);
    HoldsFirst(p.bits, b, Bits(vMatch, height, pos));
    HoldsParts(p.bits, b, [true], lb + rb);
    HoldsParts(p.bits, b + 1, lb, rb);
    HoldsParts(p.hashes, k, lh, rh);
    ExtractBuilt(hash, txids, vMatch, p, height - 1, 2 * pos, b + 1, k);
    ExtractBuilt(hash, txids, vMatch, p, height - 1, 2 * pos + 1, b + 1 + |lb|, k + |lh|);
    SiblingsDiffer(hash, txids, height - 1, 2 * pos);
    Leaves(n, height, pos);
    MatchListSplit(txids, vMatch, First(height, pos), First(height - 1, 2 * pos + 1), End(n, height, pos));
  }

  lemma Leaves(n: nat, height: nat, pos: nat)
    requires height > 0 && pos < Width(n, height) && 2 * pos + 1 < Width(n, height - 1)
    ensures First(height, pos) <= First(height - 1, 2 * pos + 1) <= End(n, height, pos) <= n
  {
    Children(n, height, pos);
    assert (2 * pos + 1) * Pow2(height - 1) == 2 * pos * Pow2(height - 1) + Pow2(height - 1);
  }

  /** A node is encoded with at most one hash per leaf and at least one bit per hash. */
  lemma {:induction false} SizeBounds(hash: Hasher, txids: seq<Hash>, vMatch: seq<bool>, height: nat, pos: nat)
    requires |txids| == |vMatch| && pos < Width(|txids|, height)
    ensures 1 <= |Hashes(hash, txids, vMatch, height, pos)| <= End(|txids|, height, pos) - First(height, pos)
    ensures |Hashes(hash, txids, vMatch, height, pos)| <= |Bits(vMatch, height, pos)|
    decreases height
  {
    hide Any;
    InTree(|txids|, height, pos);
    FirstBelowEnd(|txids|, height, pos);
    if height > 0 && Any(vMatch, First(height, pos), End(|txids|, height, pos)) {
      Children(|txids|, height, pos);
      SizeBounds(hash, txids, vMatch, height - 1, 2 * pos);
      if 2 * pos + 1 < Width(|txids|, height - 1) {
        SizeBounds(hash, txids, vMatch, height - 1, 2 * pos + 1);
      }
    }
  }

  lemma FirstBelowEnd(n: nat, height: nat, pos: nat)
    requires First(height, pos) < n
    ensures First(height, pos) < End(n, height, pos) <= n
  {
    assert (pos + 1) * Pow2(height) == pos * Pow2(height) + Pow2(height);
  }
}
