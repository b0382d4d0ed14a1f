/** PartiallyDownloadedBlock (src/blockencodings.h, src/blockencodings.cpp): rebuilding a block from a compact block,
    the memory pool and the transactions still missing. How short ids spread over hash buckets, and the verdict of
    CheckBlock, are parameters. */
module BlockEncodings {
  import opened CompactBlock

  datatype Status = Success | Invalid | Failed | CheckBlockFailed

  /** The verdict of CheckBlock. */
  datatype Verdict = Good | Corrupt | Bad

  /** CBlockHeaderAndShortTxIDs: the coinbase goes along, every other transaction as a short id. */
  method MakeCompact(short: Hash -> ShortId, wtxid: Tx -> Hash, vtx: seq<Tx>) returns (c: Compact)
    requires |vtx| > 0
    ensures c == Made(short, wtxid, vtx)
  {
    var ids := [];
    for i := 1 to |vtx|
      invariant ids == seq(i - 1, j requires 0 <= j < i - 1 => short(wtxid(vtx[j + 1])))
    {
      ids := ids + [short(wtxid(vtx[i]))];
    }
    c := Compact(false, ids, [Prefilled(0, vtx[0], false)]);
  }

  class PartiallyDownloadedBlock {
    const short: Hash -> ShortId
    const wtxid: Tx -> Hash
    var txnAvailable: seq<Slot>
    var prefilledCount: nat
    var mempoolCount: nat
    var headerNull: bool
    /** The slots as they were after the prefilled transactions, and the id index built then. */
    ghost var base: seq<Slot>
    ghost var index: Index

    constructor (short: Hash -> ShortId, wtxid: Tx -> Hash)
      ensures this.short == short && this.wtxid == wtxid
      ensures txnAvailable == [] && prefilledCount == 0 && mempoolCount == 0 && headerNull
    {
      this.short, this.wtxid := short, wtxid;
      txnAvailable, prefilledCount, mempoolCount, headerNull, base, index := [], 0, 0, true, [], map[];
    }

    /** The first loop: false when a prefilled transaction is null or out of place. */
    method PlacePrefilled(c: Compact) returns (ok: bool)
      requires |txnAvailable| == c.BlockTxCount() && forall p | 0 <= p < |txnAvailable| :: txnAvailable[p] == Empty
      modifies this`txnAvailable
      ensures ok <==> forall i | 0 <= i < |c.prefilledtxn| :: PrefilledOk(c, i)
      ensures ok ==> Placed(c, txnAvailable, |c.prefilledtxn|)
    {
      hide Missing;
      var pre := c.prefilledtxn;
      var lastPrefilledIndex := -1;
      PlaceNone(c, txnAvailable);
      for i := 0 to |pre|
        invariant Placed(c, txnAvailable, i) && lastPrefilledIndex == LastPos(pre, i)
      {
        if pre[i].isNull {
          assert !PrefilledOk(c, i);
          return false;
        }
        lastPrefilledIndex := lastPrefilledIndex + pre[i].index + 1;
        assert lastPrefilledIndex == Pos(pre, i);
        if lastPrefilledIndex > MAX_UINT16 {
          assert !PrefilledOk(c, i);
          return false;
        }
        if lastPrefilledIndex > |c.shorttxids| + i {
          assert !PrefilledOk(c, i);
          return false;
        }
        PlaceOne(c, txnAvailable, i);
        txnAvailable := txnAvailable[lastPrefilledIndex := Has(pre[i].tx)];
      }
      ok := true;
    }

    /** The second loop: every access is in range, and the offset stays within 16 bits; positions are cut to 16 bits. It
        fails exactly when some bucket gets more than twelve ids or two ids are equal. The table is made with a bucket
        for each id, so that `bucket` never changes. */
    method IndexShortIds(c: Compact, bucket: ShortId -> nat) returns (ok: bool, m: Index)
      requires Placed(c, txnAvailable, |c.prefilledtxn|) && (c.shorttxids != [] ==> |c.prefilledtxn| <= MAX_UINT16)
      ensures ok <==> !Crowded(bucket, c.shorttxids) && Distinct(c.shorttxids)
      ensures ok ==> Filed(c, txnAvailable, m)
    {
      hide Placed, FreeAt, First, InBucket, Roomy, Crowded, Indexed, Distinct, Filed;
      m := map[];
      var indexOffset := 0;
      PlacedAll(c, txnAvailable);
      PlacedSize(c, txnAvailable);
      IndexNone(c, txnAvailable, bucket);
      for i := 0 to |c.shorttxids|
        invariant 0 <= indexOffset && i + indexOffset <= |txnAvailable| && Empties(txnAvailable, i + indexOffset) == i
        invariant Indexed(c, txnAvailable, m, i)
        invariant m.Keys == First(c.shorttxids, i) && Roomy(bucket, c.shorttxids, i)
      {
        indexOffset := NextEmpty(c, i, indexOffset);
        FreeHere(txnAvailable, i, i + indexOffset);
        IndexOne(c, txnAvailable, m, i, i + indexOffset);
        KeysPut(c.shorttxids, m, i, (i + indexOffset) % TWO_16);
        m := m[c.shorttxids[i] := (i + indexOffset) % TWO_16];
        if |InBucket(bucket, m.Keys, bucket(c.shorttxids[i]))| > MAX_BUCKET {
          CrowdedEarly(bucket, c.shorttxids, i + 1, bucket(c.shorttxids[i]));
          return false, m;
        }
        RoomyStep(bucket, c.shorttxids, i);
      }
      RoomyEnd(bucket, c.shorttxids);
      IndexedAll(c, txnAvailable, m);
      ok := |m| == |c.shorttxids|;
    }

    /** The inner loop: skips filled slots, with an offset of 16 bits. */
    method NextEmpty(c: Compact, i: nat, start: nat) returns (offset: nat)
      requires Placed(c, txnAvailable, |c.prefilledtxn|) && |c.prefilledtxn| <= MAX_UINT16 && i < |c.shorttxids|
      requires i + start <= |txnAvailable| && Empties(txnAvailable, i + start) == i
      ensures offset >= start && i + offset < |txnAvailable| && txnAvailable[i + offset].Empty?
              && Empties(txnAvailable, i + offset) == i
    {
      hide Placed;
      PlacedAll(c, txnAvailable);
      offset := start;
      while txnAvailable[i + offset].Has?
        invariant start <= offset && i + offset < |txnAvailable| && Empties(txnAvailable, i + offset) == i
        decreases |txnAvailable| - offset
      {
        OffsetFits(c, txnAvailable, i + offset + 1);
        offset := (offset + 1) % TWO_16;
      }
    }

    /** One round of either pool loop: fills a slot that was never filled, or gives up a filled one. */
    method Offer(x: (Hash, Tx), drop: bool, m: Index, have: seq<bool>, ghost q: Pool, ghost all: Pool,
                 ghost base: seq<Slot>) returns (have': seq<bool>)
      requires Filling(short, all, base, m, txnAvailable, have, mempoolCount)
               && Counted(short, q, m, txnAvailable, have) && x in all
      requires drop || Taken(m, short(x.0), have)
      modifies this`txnAvailable, this`mempoolCount
      ensures Filling(short, all, base, m, txnAvailable, have', mempoolCount)
              && Counted(short, q + [x], m, txnAvailable, have')
    {
      hide Filling, Offered, Counted;
      FillingSizes(short, all, base, m, txnAvailable, have, mempoolCount);
      ghost var s := txnAvailable;
      var shortid := short(x.0);
      have' := have;
      if shortid in m {
        var pos := m[shortid];
        if !have[pos] {
          OfferedBy(short, all, m, x, pos);
          FillOne(short, all, base, m, txnAvailable, have, mempoolCount, pos, x.1);
          txnAvailable := txnAvailable[pos := Has(x.1)];
          have' := have[pos := true];
          mempoolCount := mempoolCount + 1;
        } else if drop && txnAvailable[pos].Has? {
          DropOne(short, all, base, m, txnAvailable, have, mempoolCount, pos);
          txnAvailable := txnAvailable[pos := Empty];
          mempoolCount := mempoolCount - 1;
        }
      }
      CountStep(short, q, x, m, s, have, txnAvailable, have');
    }

    /** The memory pool loop. A slot that is offered two transactions is given up. */
    method FromPool(pool: Pool, m: Index, ghost extra: Pool, ghost base: seq<Slot>)
      returns (have: seq<bool>, ghost done: nat)
      requires txnAvailable == base && mempoolCount == 0 && InRange(m, |base|)
      modifies this`txnAvailable, this`mempoolCount
      ensures Filling(short, pool + extra, base, m, txnAvailable, have, mempoolCount)
      ensures done <= |pool| && Counted(short, pool[..done], m, txnAvailable, have)
      ensures done < |pool| ==> AllHit(short, pool[..done], m)
    {
      hide Filling, Offered, Counted, AllHit, InRange;
      ghost var all := pool + extra;
      have := seq(|txnAvailable|, _ => false);
      FillStart(short, all, base, m);
      CountStart(short, base, m);
      done := 0;
      for i := 0 to |pool|
        invariant done == i && Filling(short, all, base, m, txnAvailable, have, mempoolCount)
        invariant Counted(short, pool[..i], m, txnAvailable, have)
      {
        assert all[i] == pool[i] && pool[..i + 1] == pool[..i] + [pool[i]];
        have := Offer(pool[i], true, m, have, pool[..i], all, base);
        done := i + 1;
        if mempoolCount == |m| {
          FullNow(short, pool[..done], all, base, m, txnAvailable, have, mempoolCount);
          break;
        }
      }
    }

    /** The loop over extra transactions, which does not give up a slot for another copy of what it holds. */
    method FromExtra(extra: Pool, m: Index, have0: seq<bool>, ghost pool: Pool, ghost done: nat, ghost base: seq<Slot>)
      requires Filling(short, pool + extra, base, m, txnAvailable, have0, mempoolCount)
      requires done <= |pool| && Counted(short, pool[..done], m, txnAvailable, have0)
      requires done < |pool| ==> AllHit(short, pool[..done], m)
      modifies this`txnAvailable, this`mempoolCount
      ensures exists have: seq<bool> :: Filling(short, pool + extra, base, m, txnAvailable, have, mempoolCount)
      ensures Found(short, pool + extra, m, txnAvailable)
    {
      hide Filling, Offered, Counted, AllHit, Found;
      ghost var all := pool + extra;
      var have := have0;
      assert pool[..done] + extra[..0] == pool[..done];
      for i := 0 to |extra|
        invariant Filling(short, all, base, m, txnAvailable, have, mempoolCount)
        invariant Counted(short, pool[..done] + extra[..i], m, txnAvailable, have)
      {
        ghost var q := pool[..done] + extra[..i];
        assert all[|pool| + i] == extra[i] && pool[..done] + extra[..i + 1] == q + [extra[i]];
        FillingSizes(short, all, base, m, txnAvailable, have, mempoolCount);
        var drop := true;
        var shortid := short(extra[i].0);
        if shortid in m {
          var pos := m[shortid];
          if have[pos] {
            drop := txnAvailable[pos].Has? && wtxid(txnAvailable[pos].tx) != wtxid(extra[i].1);
          }
        }
        have := Offer(extra[i], drop, m, have, q, all, base);
        if mempoolCount == |m| {
          FoundAll(short, all, base, m, txnAvailable, have, mempoolCount);
          return;
        }
      }
      assert extra[..|extra|] == extra;
      FoundAtEnd(short, pool, extra, done, base, m, txnAvailable, have, mempoolCount);
    }

    /** Invalid exactly on a malformed message, Failed exactly on a well-formed one whose ids crowd a bucket or are not
        all different. On success the k-th short id is filed under the k-th slot without a prefilled transaction as far
        as 16 bits go, mempoolCount is the number of slots filled from the pools, and a transaction alone on offer to a
        slot is there. The search for empty slots needs one that its offset can reach. */
    method InitData(c: Compact, pool: Pool, extra: Pool, bucket: ShortId -> nat) returns (status: Status)
      requires headerNull && txnAvailable == [] && mempoolCount == 0
      requires WellFormed(c) && c.shorttxids != [] ==> |c.prefilledtxn| <= MAX_UINT16
      modifies this
      ensures status == Invalid <==> !WellFormed(c)
      ensures status == Failed <==> WellFormed(c) && (Crowded(bucket, c.shorttxids) || !Distinct(c.shorttxids))
      ensures status != CheckBlockFailed
      ensures status == Success ==> && !headerNull && prefilledCount == |c.prefilledtxn|
                                    && Placed(c, base, |c.prefilledtxn|) && Filed(c, base, index)
                                    && (c.BlockTxCount() <= TWO_16 ==> Resolved(c, base, index))
                                    && Found(short, pool + extra, index, txnAvailable)
                                    && exists have: seq<bool> ::
                                        Filling(short, pool + extra, base, index, txnAvailable, have, mempoolCount)
    {
      hide Placed, Filed, Resolved, Filling, PrefilledOk, Counted, AllHit, Found, InRange, Crowded, Distinct;
      if c.headerNull || (c.shorttxids == [] && c.prefilledtxn == [])
          || |c.shorttxids| + |c.prefilledtxn| > MAX_TX_COUNT {
        return Invalid;
      }
      headerNull := false;
      txnAvailable := seq(c.BlockTxCount(), _ => Empty);
      var ok := PlacePrefilled(c);
      if !ok {
        return Invalid;
      }
      prefilledCount := |c.prefilledtxn|;
      base := txnAvailable;
      var m;
      ok, m := IndexShortIds(c, bucket);
      if !ok {
        return Failed;
      }
      index := m;
      FiledInRange(c, base, m);
      PlacedSize(c, base);
      if |base| <= TWO_16 {
        FiledResolves(c, base, m);
      }
      var have, done := FromPool(pool, m, extra, base);
      FromExtra(extra, m, have, pool, done, base);
      return Success;
    }

    /** Puts the missing transactions into the empty slots, in order. Too few leave the block unfinished, with the
        slots before the gap already emptied; too many are refused after the block is used up. */
    method FillBlock(vtxMissing: seq<Tx>, verdict: Verdict) returns (status: Status, vtx: seq<Tx>)
      requires !headerNull
      modifies this`txnAvailable, this`headerNull
      ensures |vtxMissing| < Missing(old(txnAvailable)) ==>
              status == Invalid && !headerNull && |txnAvailable| == |old(txnAvailable)|
      ensures |vtxMissing| >= Missing(old(txnAvailable)) ==>
                headerNull && txnAvailable == [] && vtx == Merge(old(txnAvailable), vtxMissing, |old(txnAvailable)|)
      ensures |vtxMissing| > Missing(old(txnAvailable)) ==> status == Invalid
      ensures |vtxMissing| == Missing(old(txnAvailable)) ==>
                status == match verdict case Good => Success case Corrupt => Failed case Bad => CheckBlockFailed
    {
      ghost var s := txnAvailable;
      var txMissingOffset := 0;
      vtx := [];
      for i := 0 to |txnAvailable|
        invariant !headerNull && |txnAvailable| == |s| && txnAvailable[i..] == s[i..]
        invariant txMissingOffset == Empties(s, i) <= |vtxMissing| && vtx == Merge(s, vtxMissing, i)
      {
        assert txnAvailable[i] == txnAvailable[i..][0] == s[i];
        EmptiesMono(s, i + 1, |s|);
        if txnAvailable[i].Empty? {
          if |vtxMissing| <= txMissingOffset {
            return Invalid, vtx;
          }
          vtx := vtx + [vtxMissing[txMissingOffset]];
          txMissingOffset := txMissingOffset + 1;
        } else {
          vtx := vtx + [txnAvailable[i].tx];
          txnAvailable := txnAvailable[i := Empty];
        }
        assert txnAvailable[i + 1..] == s[i + 1..];
      }
      headerNull := true;
      txnAvailable := [];
      if |vtxMissing| != txMissingOffset {
        return Invalid, vtx;
      }
      status := match verdict case Good => Success case Corrupt => Failed case Bad => CheckBlockFailed;
    }
  }

  /** The slot the id stands for has been filled before. */
  predicate Taken(m: Index, id: ShortId, have: seq<bool>) { id in m ==> m[id] < |have| && have[m[id]] }

  lemma FillingSizes(short: Hash -> ShortId, pool: Pool, base: seq<Slot>, m: Index, s: seq<Slot>, have: seq<bool>,
                     count: nat)
    requires Filling(short, pool, base, m, s, have, count)
    ensures |s| == |have| == |base| && forall id | id in m :: m[id] < |base|
  {
  }

  lemma OfferedBy(short: Hash -> ShortId, pool: Pool, m: Index, x: (Hash, Tx), p: nat)
    requires x in pool && short(x.0) in m && m[short(x.0)] == p
    ensures Offered(short, pool, m, p, x.1)
  {
    var i :| 0 <= i < |pool| && pool[i] == x;
  }

  /** When as many slots are filled as there are ids, all have been offered something. */
  lemma FullNow(short: Hash -> ShortId, q: Pool, all: Pool, base: seq<Slot>, m: Index, s: seq<Slot>, have: seq<bool>,
                count: nat)
    requires Filling(short, all, base, m, s, have, count) && Counted(short, q, m, s, have) && count == |m|
    ensures AllHit(short, q, m)
  {
    hide Hits, Offered;
    AllFilled(short, all, base, m, s, have, count);
    forall p | p in Slots(m)
      ensures Hits(short, q, m, p) >= 1
    {
      assert p in Held(s, have);
      assert CountedAt(short, q, m, p, s, have);
    }
  }

  /** Sending a block as a compact block to a receiver whose pools hold no transaction that clashes with the block. If
      the short ids of its transactions after the coinbase differ and crowd no bucket, handing over exactly the missing
      transactions rebuilds it; otherwise the receiver asks for the whole block. */
  method Relay(short: Hash -> ShortId, wtxid: Tx -> Hash, vtx: seq<Tx>, pool: Pool, extra: Pool, bucket: ShortId -> nat)
    returns (status: Status, r: seq<Tx>)
    requires 0 < |vtx| <= TWO_16 && NoClash(short, wtxid, pool + extra, vtx)
    ensures var ids := seq(|vtx| - 1, i requires 0 <= i < |vtx| - 1 => short(wtxid(vtx[i + 1])));
            if Distinct(ids) && !Crowded(bucket, ids) then status == Success && r == vtx else status == Failed
  {
    hide Filling, Resolved, Placed, Merge, Wanted, NoClash, Describes, Agrees, Empties, Found, WellFormed, Distinct,
        Crowded;
    var c := MakeCompact(short, wtxid, vtx);
    MadeWellFormed(short, wtxid, vtx);
    var block := new PartiallyDownloadedBlock(short, wtxid);
    status := block.InitData(c, pool, extra, bucket);
    r := [];
    if status == Success {
      MadeDescribes(short, wtxid, vtx, block.base);
      ghost var have :| Filling(short, pool + extra, block.base, block.index, block.txnAvailable, have,
                                block.mempoolCount);
      PoolAgrees(short, wtxid, c, block.base, block.index, pool + extra, block.txnAvailable, have, block.mempoolCount,
          vtx);
      AgreesSize(block.txnAvailable, vtx);
      Rebuilds(block.txnAvailable, vtx);
      var missing := Wanted(block.txnAvailable, vtx, |vtx|);
      status, r := block.FillBlock(missing, Good);
    }
  }

  lemma AgreesSize(s: seq<Slot>, vtx: seq<Tx>)
    requires Agrees(s, vtx)
    ensures |s| == |vtx|
  {
  }

  lemma FreeHere(s: seq<Slot>, k: nat, p: nat)
    requires p < |s| && s[p].Empty? && Empties(s, p) == k
    ensures FreeAt(s, k, p) && Empties(s, p + 1) == k + 1
  {
  }

  lemma PlacedSize(c: Compact, s: seq<Slot>)
    requires Placed(c, s, |c.prefilledtxn|)
    ensures |s| == c.BlockTxCount()
  {
  }
}
