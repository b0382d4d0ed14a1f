/** CPartialMerkleTree (src/merkleblock.h, src/merkleblock.cpp): building, byte packing and extraction as
    methods, and the two laws of a Merkle proof: nothing false can be proved, and every matched
    transaction is recovered. */
module MerkleBlock {
  import opened Basics
  import opened Powers
  import opened MerkleTree
  import opened Words

  const MIN_TRANSACTION_WEIGHT := WITNESS_SCALE_FACTOR_PART * 60
  const MAX_TRANSACTIONS := MAX_BLOCK_WEIGHT / MIN_TRANSACTION_WEIGHT

  /* ---- Tree height ---- */

  lemma WidthShrinks(n: nat, h: nat)
    requires Width(n, h) > 1
    ensures Width(n, h + 1) < Width(n, h)
  {
    var w := Width(n, h);
    InTree(n, h + 1, w - 1);
    InTree(n, h, 2 * (w - 1));
    assert (w - 1) * (2 * Pow2(h)) == (2 * (w - 1)) * Pow2(h);
  }

  /** The height reached by counting up from h until one node is left. */
  function HeightFrom(n: nat, h: nat): (r: nat)
    ensures Width(n, r) <= 1
    decreases Width(n, h)
  {
    if Width(n, h) <= 1 then h else WidthShrinks(n, h); HeightFrom(n, h + 1)
  }

  function Height(n: nat): (r: nat) ensures Width(n, r) <= 1 { HeightFrom(n, 0) }

  /** The root spans exactly the transactions. */
  lemma RootSpan(n: nat)
    requires n > 0
    ensures 0 < Width(n, Height(n)) && First(Height(n), 0) == 0 && End(n, Height(n), 0) == n
  {
    hide Height, Width;
    InTree(n, Height(n), 0);
    InTree(n, Height(n), 1);
  }

  ghost function Root(hash: Hasher, txids: seq<Hash>): Hash
    requires |txids| > 0
  {
    RootSpan(|txids|);
    CalcHash(hash, txids, Height(|txids|), 0)
  }

  /* ---- Bytes ---- */

  /** Flag bits packed eight to a byte, least significant first, padded with zeros. */
  ghost predicate PackedTo(bytes: seq<bv8>, bits: seq<bool>, done: nat) {
    && |bytes| == (|bits| + 7) / 8 && done <= |bits|
    && forall p | 0 <= p < 8 * |bytes| :: Bit(bytes[p / 8], p % 8) == (p < done && bits[p])
  }

  function Unpacked(bytes: seq<bv8>): seq<bool> {
    seq(8 * |bytes|, p requires 0 <= p < 8 * |bytes| => Bit(bytes[p / 8], p % 8))
  }

  function Padded(bits: seq<bool>): seq<bool> {
    bits + seq((|bits| + 7) / 8 * 8 - |bits|, _ => false)
  }

  lemma NothingPacked(bytes: seq<bv8>, bits: seq<bool>)
    requires |bytes| == (|bits| + 7) / 8 && forall i | 0 <= i < |bytes| :: bytes[i] == 0
    ensures PackedTo(bytes, bits, 0)
  {
    forall p | 0 <= p < 8 * |bytes| ensures !Bit(bytes[p / 8], p % 8) {
      assert bytes[p / 8] == 0;
    }
  }

  lemma PackOne(bytes: seq<bv8>, bits: seq<bool>, p: nat)
    requires PackedTo(bytes, bits, p) && p < |bits|
    ensures PackedTo(bytes[p / 8 := WithBit(bytes[p / 8], bits[p], p % 8)], bits, p + 1)
  {
    hide Bit, WithBit;
    var b' := bytes[p / 8 := WithBit(bytes[p / 8], bits[p], p % 8)];
    forall q | 0 <= q < 8 * |b'| ensures Bit(b'[q / 8], q % 8) == (q < p + 1 && bits[q]) {
      if q / 8 == p / 8 {
        SetBit(bytes[p / 8], bits[p], p % 8, q % 8);
      }
    }
  }

  /** Unpacking a packed list gives the list back, padded with false to whole bytes. */
  lemma UnpackPacked(bytes: seq<bv8>, bits: seq<bool>)
    requires PackedTo(bytes, bits, |bits|)
    ensures Unpacked(bytes) == Padded(bits)
  {
    var u, q := Unpacked(bytes), Padded(bits);
    assert |u| == |q|;
    forall p | 0 <= p < |u| ensures u[p] == q[p] {
      assert u[p] == Bit(bytes[p / 8], p % 8);
    }
  }

  /* ---- Extraction as a whole ---- */

  datatype Outcome = Outcome(root: Hash, matches: seq<(Hash, nat)>)

  predicate Plausible(p: Proof) {
    0 < p.n <= MAX_TRANSACTIONS && |p.hashes| <= p.n && |p.hashes| <= |p.bits|
  }

  predicate AllUsed(x: Extract, p: Proof) {
    !x.bad && (x.nBitsUsed + 7) / 8 == (|p.bits| + 7) / 8 && x.nHashUsed == |p.hashes|
  }

  /** What ExtractMatches gives on an object not yet marked bad. */
  function OutcomeOf(hash: Hasher, p: Proof): Outcome {
    if !Plausible(p) then Outcome(ZERO_HASH, [])
    else
      var x := Extracted(hash, p, Height(p.n), 0, 0, 0);
      Outcome(if AllUsed(x, p) then x.root else ZERO_HASH, x.matches)
  }

  /** A proof that came over the wire has a whole number of bytes of bits. */
  predicate Received(p: Proof) { |p.bits| % 8 == 0 }

  /** No received proof for this block's transaction count and root reports anything but its transactions. */
  ghost predicate Unforgeable(hash: Hasher, txids: seq<Hash>)
    requires |txids| > 0
  {
    forall p: Proof | Received(p) && p.n == |txids| && OutcomeOf(hash, p).root == Root(hash, txids) ::
      Genuine(txids, OutcomeOf(hash, p).matches, 0, |txids|)
  }

  lemma OutcomeSound(hash: Hasher, txids: seq<Hash>, p: Proof)
    requires Injective(hash) && |txids| > 0 && Root(hash, txids) != ZERO_HASH
    requires p.n == |txids| && OutcomeOf(hash, p).root == Root(hash, txids)
    ensures Genuine(txids, OutcomeOf(hash, p).matches, 0, |txids|)
  {
    RootSpan(|txids|);
    ExtractSound(hash, txids, p, Height(p.n), 0, 0, 0);
  }

  lemma {:induction false} NoHashesLeft(hash: Hasher, p: Proof, height: nat, pos: nat, b: nat, k: nat)
    requires k >= |p.hashes|
    ensures Extracted(hash, p, height, pos, b, k).bad
    decreases height
  {
    if height > 0 && b < |p.bits| && p.bits[b] {
      NoHashesLeft(hash, p, height - 1, 2 * pos, b + 1, k);
    }
  }

  /** Descending along set bits to a leaf reports the first hash at that leaf. */
  lemma {:induction false} Spine(hash: Hasher, p: Proof, height: nat, b: nat)
    requires |p.hashes| == 1 && b + height < |p.bits| && forall i | b <= i <= b + height :: p.bits[i]
    ensures var x := Extracted(hash, p, height, 0, b, 0);
            x.nHashUsed == 1 && |x.matches| > 0 && x.matches[0] == (p.hashes[0], 0)
    decreases height
  {
    if height > 0 {
      Spine(hash, p, height - 1, b + 1);
      var l := Extracted(hash, p, height - 1, 0, b + 1, 0);
      if 1 < Width(p.n, height - 1) {
        HashesBound(hash, p, height - 1, 1, l.nBitsUsed, l.nHashUsed);
      }
    }
  }

  lemma {:induction false} HashesBound(hash: Hasher, p: Proof, height: nat, pos: nat, b: nat, k: nat)
    requires k <= |p.hashes|
    ensures k <= Extracted(hash, p, height, pos, b, k).nHashUsed <= |p.hashes|
    decreases height
  {
    if height > 0 && b < |p.bits| && p.bits[b] {
      var l := Extracted(hash, p, height - 1, 2 * pos, b + 1, k);
      HashesBound(hash, p, height - 1, 2 * pos, b + 1, k);
      if 2 * pos + 1 < Width(p.n, height - 1) {
        HashesBound(hash, p, height - 1, 2 * pos + 1, l.nBitsUsed, l.nHashUsed);
      }
    }
  }

  /** A one-hash proof that fails and yet reports that hash as transaction 0. */
  ghost function Forged(n: nat, fake: Hash): Proof {
    Proof(n, Padded(seq(Height(n) + 1, _ => true)) + seq(8, _ => false), [fake])
  }

  lemma ForgedIsBad(hash: Hasher, n: nat, fake: Hash)
    requires Height(n) > 0
    ensures Extracted(hash, Forged(n, fake), Height(n), 0, 0, 0).bad
  {
    hide Width, AllUsed;
    var p, h := Forged(n, fake), Height(n);
    HeightIsLeast(n, 0);
    var l := Extracted(hash, p, h - 1, 0, 1, 0);
    Spine(hash, p, h - 1, 1);
    NoHashesLeft(hash, p, h - 1, 1, l.nBitsUsed, l.nHashUsed);
  }

  lemma ForgedFails(hash: Hasher, n: nat, fake: Hash)
    requires 0 < n <= MAX_TRANSACTIONS
    ensures Received(Forged(n, fake))
    ensures var o := OutcomeOf(hash, Forged(n, fake));
            o.root == ZERO_HASH && |o.matches| > 0 && o.matches[0] == (fake, 0)
  {
    hide Width, HeightFrom;
    var p, h := Forged(n, fake), Height(n);
    Spine(hash, p, h, 0);
    if h > 0 {
      hide Extracted;
      ForgedIsBad(hash, n, fake);
    } else {
      assert Extracted(hash, p, h, 0, 0, 0).nBitsUsed == 1;
    }
  }

  lemma {:induction false} HeightIsLeast(n: nat, h: nat)
    ensures h <= HeightFrom(n, h)
    ensures HeightFrom(n, h) > h ==> Width(n, HeightFrom(n, h) - 1) > 1
    decreases Width(n, h)
  {
    if Width(n, h) > 1 {
      WidthShrinks(n, h);
      HeightIsLeast(n, h + 1);
    }
  }

  /** The zero hash doubles as the failure value, so a block can have false transactions proved for it
      exactly when its own root is the zero hash (or never, when it is too large for any proof). */
  lemma UnforgeableExactly(hash: Hasher, txids: seq<Hash>)
    requires Injective(hash) && 0 < |txids| <= MAX_TRANSACTIONS
    ensures Unforgeable(hash, txids) <==> Root(hash, txids) != ZERO_HASH
  {
    if Root(hash, txids) != ZERO_HASH {
      forall p: Proof | Received(p) && p.n == |txids| && OutcomeOf(hash, p).root == Root(hash, txids)
        ensures Genuine(txids, OutcomeOf(hash, p).matches, 0, |txids|)
      {
        OutcomeSound(hash, txids, p);
      }
    } else {
      var fake := txids[0] + 1;
      var p := Forged(|txids|, fake);
      ForgedFails(hash, |txids|, fake);
      assert !Genuine(txids, OutcomeOf(hash, p).matches, 0, |txids|);
      assert p.n == |txids|;
    }
  }

  /** The proof sent for a block and a set of matches: packed on one side, unpacked on the other. */
  ghost function Sent(hash: Hasher, txids: seq<Hash>, vMatch: seq<bool>): Proof
    requires 0 < |txids| == |vMatch|
  {
    RootSpan(|txids|);
    Proof(|txids|, Padded(Bits(vMatch, Height(|txids|), 0)), Hashes(hash, txids, vMatch, Height(|txids|), 0))
  }

  /** Building, packing, unpacking and extracting gives the block's root and exactly its matched
      transactions, in block order; above the size limit extraction refuses. */
  lemma RoundTrip(hash: Hasher, txids: seq<Hash>, vMatch: seq<bool>)
    requires Injective(hash) && Distinct(txids) && 0 < |txids| == |vMatch|
    ensures OutcomeOf(hash, Sent(hash, txids, vMatch)) ==
            if |txids| <= MAX_TRANSACTIONS then Outcome(Root(hash, txids), MatchList(txids, vMatch, 0, |txids|))
                else Outcome(ZERO_HASH, [])
  {
    var n, p, h := |txids|, Sent(hash, txids, vMatch), Height(|txids|);
    RootSpan(n);
    var bits, hashes := Bits(vMatch, h, 0), Hashes(hash, txids, vMatch, h, 0);
    SizeBounds(hash, txids, vMatch, h, 0);
    if n <= MAX_TRANSACTIONS {
      assert Holds(p.bits, 0, bits) && Holds(p.hashes, 0, hashes) by { assert p.bits[0..|bits|] == bits; }
      ExtractBuilt(hash, txids, vMatch, p, h, 0, 0, 0);
    }
  }

  /** The matched transactions are exactly those selected. */
  lemma {:induction false} MatchListExact(txids: seq<Hash>, vMatch: seq<bool>, lo: nat, hi: nat, i: nat)
    requires lo <= i < hi <= |txids| == |vMatch|
    ensures (txids[i], i) in MatchList(txids, vMatch, lo, hi) <==> vMatch[i]
    decreases hi
  {
    MatchListBelow(txids, vMatch, lo, hi - 1);
    if i < hi - 1 {
      MatchListExact(txids, vMatch, lo, hi - 1, i);
    }
  }

  lemma {:induction false} MatchListBelow(txids: seq<Hash>, vMatch: seq<bool>, lo: nat, hi: nat)
    requires hi <= |txids| == |vMatch|
    ensures Genuine(txids, MatchList(txids, vMatch, lo, hi), lo, hi)
    decreases hi
  {
    if lo < hi {
      MatchListBelow(txids, vMatch, lo, hi - 1);
      GenuineConcat(txids, MatchList(txids, vMatch, lo, hi - 1),
                    if vMatch[hi - 1] then [(txids[hi - 1], hi - 1)] else [], lo, hi - 1, hi);
    }
  }

  /* ---- The object ---- */

  function Ids(m: seq<(Hash, nat)>): seq<Hash> { seq(|m|, i requires 0 <= i < |m| => m[i].0) }
  function Indexes(m: seq<(Hash, nat)>): seq<nat> { seq(|m|, i requires 0 <= i < |m| => m[i].1) }

  lemma IdsConcat(a: seq<(Hash, nat)>, b: seq<(Hash, nat)>)
    ensures Ids(a + b) == Ids(a) + Ids(b) && Indexes(a + b) == Indexes(a) + Indexes(b)
  {
  }

  class PartialMerkleTree {
    const hash: Hasher
    var nTransactions: nat
    var vBits: seq<bool>
    var vHash: seq<Hash>
    var fBad: bool

    function Claim(): Proof reads this { Proof(nTransactions, vBits, vHash) }

    constructor Blank(hash: Hasher)
      ensures this.hash == hash && Claim() == Proof(0, [], []) && fBad
    {
      this.hash := hash;
      nTransactions, vBits, vHash, fBad := 0, [], [], true;
    }

    constructor (hash: Hasher, vTxid: seq<Hash>, vMatch: seq<bool>)
      requires 0 < |vTxid| == |vMatch|
      ensures this.hash == hash && !fBad && 0 < Width(|vTxid|, Height(|vTxid|))
      ensures Claim() == Proof(|vTxid|, Bits(vMatch, Height(|vTxid|), 0),
              Hashes(hash, vTxid, vMatch, Height(|vTxid|), 0))
    {
      this.hash := hash;
      nTransactions, vBits, vHash, fBad := |vTxid|, [], [], false;
      new;
      var nHeight := TreeHeight();
      RootSpan(nTransactions);
      TraverseAndBuild(nHeight, 0, vTxid, vMatch);
    }

    /** The height loop of the constructor and of ExtractMatches. */
    method TreeHeight() returns (nHeight: nat)
      ensures nHeight == Height(nTransactions)
    {
      nHeight := 0;
      while Width(nTransactions, nHeight) > 1
        invariant HeightFrom(nTransactions, nHeight) == Height(nTransactions)
        decreases Width(nTransactions, nHeight)
      {
        WidthShrinks(nTransactions, nHeight);
        nHeight := nHeight + 1;
      }
    }

    method ParentOfMatch(height: nat, pos: nat, vMatch: seq<bool>) returns (fParentOfMatch: bool)
      requires nTransactions == |vMatch|
      ensures fParentOfMatch == Any(vMatch, First(height, pos), End(nTransactions, height, pos))
    {
      fParentOfMatch := false;
      var p := First(height, pos);
      while p < First(height, pos + 1) && p < nTransactions
        invariant First(height, pos) <= p
        invariant p > First(height, pos) ==> p <= End(nTransactions, height, pos)
        invariant fParentOfMatch == exists q | First(height, pos) <= q < p && q < |vMatch| :: vMatch[q]
        decreases nTransactions - p
      {
        fParentOfMatch := fParentOfMatch || vMatch[p];
        p := p + 1;
      }
    }

    method TraverseAndBuild(height: nat, pos: nat, vTxid: seq<Hash>, vMatch: seq<bool>)
      requires nTransactions == |vTxid| == |vMatch| && pos < Width(nTransactions, height)
      modifies this`vBits, this`vHash
      ensures vBits == old(vBits) + Bits(vMatch, height, pos)
      ensures vHash == old(vHash) + Hashes(hash, vTxid, vMatch, height, pos)
      decreases height
    {
      hide Any, First, End, Width, CalcHash, Bits, Hashes;
      var fParentOfMatch := ParentOfMatch(height, pos, vMatch);
      vBits := vBits + [fParentOfMatch];
      if height == 0 || !fParentOfMatch {
        vHash := vHash + [CalcHash(hash, vTxid, height, pos)];
        CutEncoding(hash, vTxid, vMatch, height, pos);
      } else {
        InnerEncoding(hash, vTxid, vMatch, height, pos);
        TraverseAndBuild(height - 1, pos * 2, vTxid, vMatch);
        if pos * 2 + 1 < Width(nTransactions, height - 1) {
          TraverseAndBuild(height - 1, pos * 2 + 1, vTxid, vMatch);
        }
      }
    }

    /** Depth-first decoding. The in-out parameters of the source are passed in and returned. */
    method TraverseAndExtract(height: nat, pos: nat, nBitsUsed: nat, nHashUsed: nat, vMatch: seq<Hash>,
                              vnIndex: seq<nat>)
      returns (root: Hash, bitsUsed: nat, hashUsed: nat, matched: seq<Hash>, indexes: seq<nat>)
      modifies this`fBad
      ensures var x := Extracted(hash, Claim(), height, pos, nBitsUsed, nHashUsed);
              && root == x.root && bitsUsed == x.nBitsUsed && hashUsed == x.nHashUsed && fBad == (old(fBad) || x.bad)
              && matched == vMatch + Ids(x.matches) && indexes == vnIndex + Indexes(x.matches)
      decreases height
    {
      hide Width, Extracted;
      ExtractedOnce(hash, Claim(), height, pos, nBitsUsed, nHashUsed);
      if nBitsUsed >= |vBits| {
        fBad := true;
        return ZERO_HASH, nBitsUsed, nHashUsed, vMatch, vnIndex;
      }
      var fParentOfMatch := vBits[nBitsUsed];
      if height == 0 || !fParentOfMatch {
        if nHashUsed >= |vHash| {
          fBad := true;
          return ZERO_HASH, nBitsUsed + 1, nHashUsed, vMatch, vnIndex;
        }
        root, bitsUsed, hashUsed, matched, indexes := vHash[nHashUsed], nBitsUsed + 1, nHashUsed + 1, vMatch, vnIndex;
        if height == 0 && fParentOfMatch {
          matched, indexes := matched + [root], indexes + [pos];
        }
      } else {
        ghost var l := Extracted(hash, Claim(), height - 1, pos * 2, nBitsUsed + 1, nHashUsed);
        var left, right;
        left, bitsUsed, hashUsed, matched, indexes :=
            TraverseAndExtract(height - 1, pos * 2, nBitsUsed + 1, nHashUsed, vMatch, vnIndex);
        if pos * 2 + 1 < Width(nTransactions, height - 1) {
          ghost var r := Extracted(hash, Claim(), height - 1, pos * 2 + 1, bitsUsed, hashUsed);
          right, bitsUsed, hashUsed, matched, indexes :=
              TraverseAndExtract(height - 1, pos * 2 + 1, bitsUsed, hashUsed, matched, indexes);
          IdsConcat(l.matches, r.matches);
          if right == left {
            fBad := true;
          }
        } else {
          right := left;
        }
        root := hash(left, right);
      }
    }

    /** The caller's match list is cleared first, its index list is only appended to. */
    method ExtractMatches(vnIndex: seq<nat>) returns (root: Hash, vMatch: seq<Hash>, indexes: seq<nat>)
      modifies this`fBad
      ensures var o := OutcomeOf(hash, Claim());
              && root == (if old(fBad) then ZERO_HASH else o.root)
              && vMatch == Ids(o.matches) && indexes == vnIndex + Indexes(o.matches)
    {
      hide Extracted;
      vMatch, indexes := [], vnIndex;
      if nTransactions == 0 || nTransactions > MAX_BLOCK_WEIGHT / MIN_TRANSACTION_WEIGHT || |vHash| > nTransactions
          || |vBits| < |vHash| {
        return ZERO_HASH, vMatch, indexes;
      }
      var nHeight := TreeHeight();
      var nBitsUsed, nHashUsed;
      root, nBitsUsed, nHashUsed, vMatch, indexes := TraverseAndExtract(nHeight, 0, 0, 0, vMatch, indexes);
      if fBad || (nBitsUsed + 7) / 8 != (|vBits| + 7) / 8 || nHashUsed != |vHash| {
        root := ZERO_HASH;
      }
    }

    method PackBits() returns (vBytes: array<bv8>)
      ensures fresh(vBytes) && PackedTo(vBytes[..], vBits, |vBits|)
    {
      vBytes := new bv8[(|vBits| + 7) / 8](_ => 0);
      hide Bit, WithBit;
      NothingPacked(vBytes[..], vBits);
      for p := 0 to |vBits|
        invariant PackedTo(vBytes[..], vBits, p)
      {
        PackOne(vBytes[..], vBits, p);
        vBytes[p / 8] := WithBit(vBytes[p / 8], vBits[p], p % 8);
      }
    }

    method UnpackBits(n: nat, vHash: seq<Hash>, vBytes: seq<bv8>)
      modifies this
      ensures Claim() == Proof(n, Unpacked(vBytes), vHash) && !fBad
    {
      hide Bit;
      nTransactions, this.vHash, vBits := n, vHash, seq(8 * |vBytes|, _ => false);
      for p := 0 to |vBits|
        invariant nTransactions == n && this.vHash == vHash && |vBits| == 8 * |vBytes|
        invariant forall q | 0 <= q < p :: vBits[q] == Unpacked(vBytes)[q]
      {
        vBits := vBits[p := Bit(vBytes[p / 8], p % 8)];
      }
      fBad := false;
    }
  }

  /** Relaying a filtered block: build, serialize, deserialize, extract. */
  method Relay(hash: Hasher, vTxid: seq<Hash>, vMatch: seq<bool>)
    returns (root: Hash, matched: seq<Hash>, indexes: seq<nat>)
    requires Injective(hash) && Distinct(vTxid) && 0 < |vTxid| == |vMatch|
    ensures if |vTxid| <= MAX_TRANSACTIONS
            then root == Root(hash, vTxid) && matched == Ids(MatchList(vTxid, vMatch, 0, |vTxid|))
                && indexes == Indexes(MatchList(vTxid, vMatch, 0, |vTxid|))
            else root == ZERO_HASH && matched == [] && indexes == []
  {
    hide Extracted, Bits, Hashes, HeightFrom, Width, MatchList, CalcHash, Injective, Distinct, PackedTo, Padded,
        Unpacked, Plausible, AllUsed;
    var sender := new PartialMerkleTree(hash, vTxid, vMatch);
    var bytes := sender.PackBits();
    var receiver := new PartialMerkleTree.Blank(hash);
    receiver.UnpackBits(sender.nTransactions, sender.vHash, bytes[..]);
    UnpackPacked(bytes[..], sender.vBits);
    root, matched, indexes := receiver.ExtractMatches([]);
    RoundTrip(hash, vTxid, vMatch);
  }
}
