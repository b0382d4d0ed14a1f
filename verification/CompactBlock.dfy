/** Compact blocks (src/blockencodings.h, src/blockencodings.cpp; the HeaderAndShortIDs and PrefilledTransaction
    sections of BIP 152) as values: slots of a block being rebuilt, which slot a short id stands for, and when the
    rebuilt list is the original one. The short id function and the transactions themselves are parameters. */
module CompactBlock {
  import opened Basics

  type Tx = int
  type Hash = int
  type ShortId = int

  datatype Slot = Empty | Has(tx: Tx)

  datatype Prefilled = Prefilled(index: nat, tx: Tx, isNull: bool)

  datatype Compact = Compact(headerNull: bool, shorttxids: seq<ShortId>, prefilledtxn: seq<Prefilled>) {
    function BlockTxCount(): nat { |shorttxids| + |prefilledtxn| }
  }

  const MAX_UINT16 := 0xffff
  const TWO_16 := 0x1_0000
  const MIN_SERIALIZABLE_TRANSACTION_WEIGHT := WITNESS_SCALE_FACTOR_PART * 10
  const MAX_TX_COUNT := MAX_BLOCK_WEIGHT / MIN_SERIALIZABLE_TRANSACTION_WEIGHT

  /* ---- Empty slots ---- */

  function Empties(s: seq<Slot>, n: nat): (e: nat)
    requires n <= |s|
    ensures e <= n
  {
    if n == 0 then 0 else Empties(s, n - 1) + if s[n - 1].Empty? then 1 else 0
  }

  function Missing(s: seq<Slot>): nat { Empties(s, |s|) }

  lemma {:induction false} EmptiesPut(s: seq<Slot>, n: nat, p: nat, v: Slot)
    requires n <= |s| && p < |s|
    ensures Empties(s[p := v], n) ==
            Empties(s, n) + if p < n then (if v.Empty? then 1 else 0) - (if s[p].Empty? then 1 else 0) else 0
    decreases n
  {
    if n > 0 {
      EmptiesPut(s, n - 1, p, v);
    }
  }

  lemma {:induction false} EmptiesAll(s: seq<Slot>, n: nat)
    requires n <= |s| && forall p | 0 <= p < n :: s[p].Empty?
    ensures Empties(s, n) == n
    decreases n
  {
    if n > 0 {
      EmptiesAll(s, n - 1);
    }
  }

  lemma {:induction false} EmptiesMono(s: seq<Slot>, m: nat, n: nat)
    requires m <= n <= |s|
    ensures Empties(s, m) <= Empties(s, n)
    ensures m < n && s[m].Empty? ==> Empties(s, m) < Empties(s, n)
    decreases n
  {
    if m < n {
      EmptiesMono(s, m, n - 1);
    }
  }

  /** p is the k-th empty slot. */
  predicate FreeAt(s: seq<Slot>, k: nat, p: nat) { p < |s| && s[p].Empty? && Empties(s, p) == k }

  lemma FreeUnique(s: seq<Slot>, k: nat, p: nat, q: nat)
    requires FreeAt(s, k, p) && FreeAt(s, k, q)
    ensures p == q
  {
    if p < q {
      EmptiesMono(s, p, q);
    } else if q < p {
      EmptiesMono(s, q, p);
    }
  }

  /* ---- Prefilled transactions ---- */

  /** Indexes are differences: the block position of prefilled transaction i. */
  function Pos(pre: seq<Prefilled>, i: nat): (p: nat)
    requires i < |pre|
    ensures p >= i
  {
    if i == 0 then pre[0].index else Pos(pre, i - 1) + pre[i].index + 1
  }

  /** lastprefilledindex after i transactions. */
  function LastPos(pre: seq<Prefilled>, i: nat): int
    requires i <= |pre|
  {
    if i == 0 then -1 else Pos(pre, i - 1)
  }

  predicate PrefilledOk(c: Compact, i: nat)
    requires i < |c.prefilledtxn|
  {
    !c.prefilledtxn[i].isNull && Pos(c.prefilledtxn, i) <= MAX_UINT16 && Pos(c.prefilledtxn, i) <= |c.shorttxids| + i
  }

  /** What InitData demands of a compact block. */
  predicate WellFormed(c: Compact) {
    && !c.headerNull && 0 < c.BlockTxCount() <= MAX_TX_COUNT
    && forall i | 0 <= i < |c.prefilledtxn| :: PrefilledOk(c, i)
  }

  /** The slots once the first n prefilled transactions are in place. */
  ghost predicate Placed(c: Compact, s: seq<Slot>, n: nat) {
    && n <= |c.prefilledtxn| && |s| == c.BlockTxCount()
    && (forall i | 0 <= i < n ::
          && PrefilledOk(c, i) && Pos(c.prefilledtxn, i) < |s|
          && s[Pos(c.prefilledtxn, i)] == Has(c.prefilledtxn[i].tx))
    && (forall p | 0 <= p < |s| && s[p].Has? :: IsPrefilled(c, n, p))
    && Missing(s) == |s| - n
  }

  ghost predicate IsPrefilled(c: Compact, n: nat, p: nat)
    requires n <= |c.prefilledtxn|
  {
    exists i | 0 <= i < n :: Pos(c.prefilledtxn, i) == p
  }

  lemma {:induction false} PosUp(pre: seq<Prefilled>, i: nat, j: nat)
    requires i < j < |pre|
    ensures Pos(pre, i) < Pos(pre, j)
    decreases j
  {
    if i < j - 1 {
      PosUp(pre, i, j - 1);
    }
  }

  lemma PlaceNone(c: Compact, s: seq<Slot>)
    requires |s| == c.BlockTxCount() && forall p | 0 <= p < |s| :: s[p] == Empty
    ensures Placed(c, s, 0)
  {
    EmptiesAll(s, |s|);
  }

  lemma PlaceOne(c: Compact, s: seq<Slot>, n: nat)
    requires Placed(c, s, n) && n < |c.prefilledtxn| && PrefilledOk(c, n)
    ensures Pos(c.prefilledtxn, n) < |s| && Placed(c, s[Pos(c.prefilledtxn, n) := Has(c.prefilledtxn[n].tx)], n + 1)
  {
    hide Pos;
    var pre := c.prefilledtxn;
    var p := Pos(pre, n);
    var t := s[p := Has(pre[n].tx)];
    forall i | 0 <= i < n ensures Pos(pre, i) < p {
      PosUp(pre, i, n);
    }
    assert s[p].Empty? by { assert !IsPrefilled(c, n, p); }
    hide Empties;
    EmptiesPut(s, |s|, p, Has(pre[n].tx));
    forall q | 0 <= q < |t| && t[q].Has? ensures IsPrefilled(c, n + 1, q) {
      if q != p {
        assert IsPrefilled(c, n, q);
      }
    }
  }

  /** As many slots are left empty as there are short ids. */
  lemma PlacedAll(c: Compact, s: seq<Slot>)
    requires Placed(c, s, |c.prefilledtxn|)
    ensures Missing(s) == |c.shorttxids|
  {
  }

  /** The 16 bits the index has for a position are enough for every empty slot exactly in a block of up to 65536
      transactions: prefilled positions have 16 bits themselves, so all slots beyond are empty. */
  lemma PositionsFit(c: Compact, s: seq<Slot>)
    requires Placed(c, s, |c.prefilledtxn|)
    ensures (forall p | 0 <= p < |s| && s[p].Empty? :: p <= MAX_UINT16) <==> c.BlockTxCount() <= TWO_16
    ensures forall p | TWO_16 <= p < |s| :: s[p].Empty?
  {
    if |s| > TWO_16 {
      assert s[TWO_16].Empty?;
    }
  }

  lemma {:induction false} FilledMono(s: seq<Slot>, m: nat, n: nat)
    requires m <= n <= |s|
    ensures m - Empties(s, m) <= n - Empties(s, n)
    decreases n
  {
    if m < n {
      FilledMono(s, m, n - 1);
    }
  }

  /** The 16-bit offset of the search for the next empty slot counts the filled slots passed. It cannot wrap around
      unless all positions it can reach are prefilled, and then there is nothing to find. */
  lemma OffsetFits(c: Compact, s: seq<Slot>, p: nat)
    requires Placed(c, s, |c.prefilledtxn|) && p <= |s|
    ensures 0 <= p - Empties(s, p) <= |c.prefilledtxn|
  {
    FilledMono(s, p, |s|);
  }

  lemma {:induction false} PosApart(pre: seq<Prefilled>, i: nat, j: nat)
    requires i <= j < |pre|
    ensures Pos(pre, i) + j - i <= Pos(pre, j)
    decreases j
  {
    if i < j {
      PosApart(pre, i, j - 1);
    }
  }

  /** With 65536 prefilled transactions, and with no fewer, every slot that the search for the first short id's slot can
      look at is filled: it needs one that is not. */
  lemma SearchNeedsSlot(c: Compact, s: seq<Slot>)
    requires Placed(c, s, |c.prefilledtxn|) && c.shorttxids != []
    ensures |c.prefilledtxn| <= TWO_16
    ensures |c.prefilledtxn| == TWO_16 <==> forall offset: nat :: offset % TWO_16 < |s| && s[offset % TWO_16].Has?
  {
    var pre, n := c.prefilledtxn, |c.prefilledtxn|;
    if n > 0 {
      PosApart(pre, 0, n - 1);
      assert PrefilledOk(c, n - 1);
    }
    if n == TWO_16 {
      forall offset: nat
        ensures offset % TWO_16 < |s| && s[offset % TWO_16].Has?
      {
        var i := offset % TWO_16;
        PosApart(pre, i, n - 1);
        assert s[Pos(pre, i)].Has? && Pos(pre, i) == i;
      }
    }
    if forall offset: nat :: offset % TWO_16 < |s| && s[offset % TWO_16].Has? {
      AllFilledBelow(s);
      OffsetFits(c, s, TWO_16);
    }
  }

  lemma AllFilledBelow(s: seq<Slot>)
    requires forall offset: nat :: offset % TWO_16 < |s| && s[offset % TWO_16].Has?
    ensures |s| >= TWO_16 && Empties(s, TWO_16) == 0
  {
    assert MAX_UINT16 % TWO_16 == MAX_UINT16;
    forall p: nat | p < TWO_16
      ensures s[p].Has?
    {
      assert p % TWO_16 == p;
    }
    NoneEmpty(s, TWO_16);
  }

  lemma {:induction false} NoneEmpty(s: seq<Slot>, n: nat)
    requires n <= |s| && forall p: nat | p < n :: s[p].Has?
    ensures Empties(s, n) == 0
    decreases n
  {
    if n > 0 {
      NoneEmpty(s, n - 1);
    }
  }

  /* ---- Short ids ---- */

  type Index = map<ShortId, nat>

  /** q is what 16 bits keep of the position of the k-th empty slot. */
  ghost predicate FiledAt(base: seq<Slot>, k: nat, q: nat) { exists p: nat :: FreeAt(base, k, p) && q == p % TWO_16 }

  /** Every id of the first n is filed under the slot of one of them; if they are all different, the k-th under the k-th
      empty slot. */
  ghost predicate Indexed(c: Compact, base: seq<Slot>, m: Index, n: nat) {
    && n <= |c.shorttxids| && |m| <= n
    && (|m| == n ==> forall k | 0 <= k < n :: c.shorttxids[k] in m && FiledAt(base, k, m[c.shorttxids[k]]))
    && (forall id | id in m :: exists k | 0 <= k < n :: c.shorttxids[k] == id)
  }

  lemma IndexOne(c: Compact, base: seq<Slot>, m: Index, n: nat, p: nat)
    requires Indexed(c, base, m, n) && n < |c.shorttxids| && FreeAt(base, n, p)
    ensures Indexed(c, base, m[c.shorttxids[n] := p % TWO_16], n + 1)
  {
    hide FreeAt;
    var id := c.shorttxids[n];
    var m' := m[id := p % TWO_16];
    assert FiledAt(base, n, p % TWO_16);
    if id in m {
      assert m'.Keys == m.Keys;
      SameSize(m, m');
    } else {
      assert m' == m[id := p % TWO_16] && |m'| == |m| + 1;
    }
    forall x | x in m'
      ensures exists k | 0 <= k < n + 1 :: c.shorttxids[k] == x
    {
      if x != id {
        var k :| 0 <= k < n && c.shorttxids[k] == x;
        assert 0 <= k < n + 1;
      } else {
        assert c.shorttxids[n] == x;
      }
    }
  }

  lemma SameSize(m: Index, m': Index)
    requires m.Keys == m'.Keys
    ensures |m| == |m'|
  {
    assert |m| == |m.Keys| && |m'| == |m'.Keys|;
  }

  /** When no two ids collide, the k-th short id is filed under the k-th empty slot, as far as 16 bits go. */
  ghost predicate Filed(c: Compact, base: seq<Slot>, m: Index) {
    && (forall k | 0 <= k < |c.shorttxids| :: c.shorttxids[k] in m && FiledAt(base, k, m[c.shorttxids[k]]))
    && (forall id | id in m :: exists k | 0 <= k < |c.shorttxids| :: c.shorttxids[k] == id)
  }

  /** Every id is filed under a slot there is. */
  ghost predicate InRange(m: Index, n: nat) { forall id | id in m :: m[id] < n }

  lemma FiledInRange(c: Compact, base: seq<Slot>, m: Index)
    requires Filed(c, base, m)
    ensures InRange(m, |base|) && InRange(m, TWO_16)
  {
    forall id | id in m
      ensures m[id] < |base| && m[id] < TWO_16
    {
      var k :| 0 <= k < |c.shorttxids| && c.shorttxids[k] == id;
      var p: nat :| FreeAt(base, k, p) && m[id] == p % TWO_16;
    }
  }

  /** With positions that fit, the k-th short id stands for the k-th empty slot itself. */
  lemma FiledResolves(c: Compact, base: seq<Slot>, m: Index)
    requires Filed(c, base, m) && |base| <= TWO_16
    ensures Resolved(c, base, m)
  {
    forall k | 0 <= k < |c.shorttxids|
      ensures FreeAt(base, k, m[c.shorttxids[k]])
    {
      assert FiledAt(base, k, m[c.shorttxids[k]]);
      var p: nat :| FreeAt(base, k, p) && m[c.shorttxids[k]] == p % TWO_16;
    }
    forall id | id in m
      ensures m[id] < |base| && base[m[id]].Empty?
    {
      var k :| 0 <= k < |c.shorttxids| && c.shorttxids[k] == id;
      assert FreeAt(base, k, m[id]);
    }
  }

  /** A short id whose position does not fit is filed under a lower slot that is not its own: one with a prefilled
      transaction, or one that another id is filed under too. */
  lemma FiledElsewhere(c: Compact, base: seq<Slot>, m: Index, k: nat, p: nat)
    requires Placed(c, base, |c.prefilledtxn|) && Filed(c, base, m) && Distinct(c.shorttxids)
    requires k < |c.shorttxids| && FreeAt(base, k, p) && p > MAX_UINT16
    ensures var q := m[c.shorttxids[k]];
            && q == p % TWO_16 < p
            && (base[q].Has? || exists j | 0 <= j < k :: c.shorttxids[j] != c.shorttxids[k] && m[c.shorttxids[j]] == q)
  {
    hide Placed, Distinct;
    var p': nat :| FreeAt(base, k, p') && m[c.shorttxids[k]] == p' % TWO_16;
    FreeUnique(base, k, p, p');
    var q := p % TWO_16;
    if base[q].Empty? {
      var j := Empties(base, q);
      EmptiesMono(base, q + 1, p);
      assert FreeAt(base, j, q) && j < k;
      var q': nat :| FreeAt(base, j, q') && m[c.shorttxids[j]] == q' % TWO_16;
      FreeUnique(base, j, q, q');
      DistinctAt(c.shorttxids, j, k);
    }
  }

  lemma DistinctAt(ids: seq<ShortId>, j: nat, k: nat)
    requires Distinct(ids) && j < k < |ids|
    ensures ids[j] != ids[k]
  {
  }

  /** With positions that fit, and no two ids equal: as Filed. */
  ghost predicate Resolved(c: Compact, base: seq<Slot>, m: Index) {
    && (forall id | id in m :: m[id] < |base| && base[m[id]].Empty?)
    && (forall k | 0 <= k < |c.shorttxids| :: c.shorttxids[k] in m && FreeAt(base, k, m[c.shorttxids[k]]))
    && (forall id | id in m :: exists k | 0 <= k < |c.shorttxids| :: c.shorttxids[k] == id)
  }

  const MAX_BUCKET := 12

  /** The first n ids, and those of them that share a bucket of the hash table. */
  function First(ids: seq<ShortId>, n: nat): set<ShortId>
    requires n <= |ids|
  {
    set k | 0 <= k < n :: ids[k]
  }

  function InBucket(bucket: ShortId -> nat, ids: set<ShortId>, b: nat): set<ShortId> {
    set id | id in ids && bucket(id) == b
  }

  predicate Distinct(ids: seq<ShortId>) { forall i, j | 0 <= i < j < |ids| :: ids[i] != ids[j] }

  /** Some bucket holds more than twelve of the ids. */
  ghost predicate Crowded(bucket: ShortId -> nat, ids: seq<ShortId>) {
    exists b: nat :: |InBucket(bucket, First(ids, |ids|), b)| > MAX_BUCKET
  }

  /** The buckets the first n ids went to have room. */
  ghost predicate Roomy(bucket: ShortId -> nat, ids: seq<ShortId>, n: nat)
    requires n <= |ids|
  {
    forall k | 0 <= k < n :: |InBucket(bucket, First(ids, n), bucket(ids[k]))| <= MAX_BUCKET
  }

  lemma FirstNext(ids: seq<ShortId>, n: nat)
    requires n < |ids|
    ensures First(ids, n + 1) == First(ids, n) + {ids[n]}
  {
  }

  lemma CrowdedEarly(bucket: ShortId -> nat, ids: seq<ShortId>, n: nat, b: nat)
    requires n <= |ids| && |InBucket(bucket, First(ids, n), b)| > MAX_BUCKET
    ensures Crowded(bucket, ids)
  {
    SubsetSize(InBucket(bucket, First(ids, n), b), InBucket(bucket, First(ids, |ids|), b));
  }

  lemma RoomyStep(bucket: ShortId -> nat, ids: seq<ShortId>, n: nat)
    requires n < |ids| && Roomy(bucket, ids, n)
    requires |InBucket(bucket, First(ids, n + 1), bucket(ids[n]))| <= MAX_BUCKET
    ensures Roomy(bucket, ids, n + 1)
  {
    hide First;
    FirstNext(ids, n);
    forall k | 0 <= k < n + 1
      ensures |InBucket(bucket, First(ids, n + 1), bucket(ids[k]))| <= MAX_BUCKET
    {
      var b := bucket(ids[k]);
      if b != bucket(ids[n]) {
        assert InBucket(bucket, First(ids, n + 1), b) == InBucket(bucket, First(ids, n), b);
      }
    }
  }

  lemma RoomyEnd(bucket: ShortId -> nat, ids: seq<ShortId>)
    requires Roomy(bucket, ids, |ids|)
    ensures !Crowded(bucket, ids)
  {
    forall b: nat
      ensures |InBucket(bucket, First(ids, |ids|), b)| <= MAX_BUCKET
    {
      var s := InBucket(bucket, First(ids, |ids|), b);
      if s != {} {
        SomeMember(s);
        var id :| id in s;
        assert id in First(ids, |ids|) && bucket(id) == b;
        var k :| 0 <= k < |ids| && ids[k] == id;
      }
    }
  }

  /** As many different ids as ids: no two are equal. */
  lemma {:induction false} DistinctSize(ids: seq<ShortId>, n: nat)
    requires n <= |ids|
    ensures |First(ids, n)| <= n
    ensures |First(ids, n)| == n <==> Distinct(ids[..n])
    decreases n
  {
    if n > 0 {
      DistinctSize(ids, n - 1);
      FirstNext(ids, n - 1);
      var a, b := ids[..n - 1], ids[..n];
      assert b == a + [ids[n - 1]];
      if ids[n - 1] in First(ids, n - 1) {
        assert First(ids, n) == First(ids, n - 1);
        var k :| 0 <= k < n - 1 && ids[k] == ids[n - 1];
        assert b[k] == b[n - 1];
      } else {
        assert forall k | 0 <= k < n - 1 :: b[k] == a[k] && a[k] in First(ids, n - 1);
      }
    }
  }

  lemma KeysPut(ids: seq<ShortId>, m: Index, n: nat, p: nat)
    requires n < |ids| && m.Keys == First(ids, n)
    ensures m[ids[n] := p].Keys == First(ids, n + 1)
  {
    hide First;
    FirstNext(ids, n);
  }

  lemma IndexedAll(c: Compact, base: seq<Slot>, m: Index)
    requires Indexed(c, base, m, |c.shorttxids|) && m.Keys == First(c.shorttxids, |c.shorttxids|)
    ensures |m| == |c.shorttxids| <==> Distinct(c.shorttxids)
    ensures |m| == |c.shorttxids| ==> Filed(c, base, m)
  {
    DistinctSize(c.shorttxids, |c.shorttxids|);
    assert c.shorttxids[..|c.shorttxids|] == c.shorttxids && |m| == |m.Keys|;
  }

  lemma IndexNone(c: Compact, base: seq<Slot>, bucket: ShortId -> nat)
    ensures Indexed(c, base, map[], 0) && First(c.shorttxids, 0) == {} && Roomy(bucket, c.shorttxids, 0)
  {
  }

  /* ---- Filling from the pool ---- */

  type Pool = seq<(Hash, Tx)>

  /** The slot's transaction was offered under an id that stands for the slot. */
  ghost predicate Offered(short: Hash -> ShortId, pool: Pool, m: Index, p: nat, tx: Tx) {
    exists i | 0 <= i < |pool| :: pool[i].1 == tx && short(pool[i].0) in m && m[short(pool[i].0)] == p
  }

  /** The slots that ids are filed under. */
  ghost function Slots(m: Index): set<nat> { set id | id in m :: m[id] }

  /** The slots filled from the pools. */
  ghost function Held(s: seq<Slot>, have: seq<bool>): set<nat> {
    set p: nat | p < |s| && p < |have| && have[p] && s[p].Has?
  }

  /** The state of the pool loops: `have` marks every slot ever filled, the others are as they were, and count is the
      number of slots filled now. */
  ghost predicate Filling(short: Hash -> ShortId, pool: Pool, base: seq<Slot>, m: Index, s: seq<Slot>, have: seq<bool>,
                          count: nat) {
    && |s| == |have| == |base| && InRange(m, |base|)
    && (forall p | 0 <= p < |s| && !have[p] :: s[p] == base[p])
    && (forall p | 0 <= p < |s| && have[p] :: p in Slots(m))
    && (forall p | 0 <= p < |s| && have[p] && s[p].Has? :: Offered(short, pool, m, p, s[p].tx))
    && count == |Held(s, have)|
  }

  lemma FillOne(short: Hash -> ShortId, pool: Pool, base: seq<Slot>, m: Index, s: seq<Slot>, have: seq<bool>,
                count: nat, p: nat, tx: Tx)
    requires Filling(short, pool, base, m, s, have, count) && p < |base| && p in Slots(m) && !have[p]
             && Offered(short, pool, m, p, tx)
    ensures Filling(short, pool, base, m, s[p := Has(tx)], have[p := true], count + 1)
  {
    hide Offered;
    assert Held(s[p := Has(tx)], have[p := true]) == Held(s, have) + {p};
  }

  lemma DropOne(short: Hash -> ShortId, pool: Pool, base: seq<Slot>, m: Index, s: seq<Slot>, have: seq<bool>,
                count: nat, p: nat)
    requires Filling(short, pool, base, m, s, have, count) && p < |base| && have[p] && s[p].Has?
    ensures count > 0 && Filling(short, pool, base, m, s[p := Empty], have, count - 1)
  {
    hide Offered;
    assert p in Held(s, have) && Held(s[p := Empty], have) == Held(s, have) - {p};
  }

  lemma FillStart(short: Hash -> ShortId, pool: Pool, base: seq<Slot>, m: Index)
    requires InRange(m, |base|)
    ensures Filling(short, pool, base, m, base, seq(|base|, _ => false), 0)
  {
    assert Held(base, seq(|base|, _ => false)) == {};
  }

  /** When every id has an empty slot of its own, prefilled slots stay, and count is the number of slots no longer
      missing. */
  lemma FillingFree(short: Hash -> ShortId, pool: Pool, base: seq<Slot>, m: Index, s: seq<Slot>, have: seq<bool>,
                    count: nat)
    requires Filling(short, pool, base, m, s, have, count) && IdsFree(base, m)
    ensures forall p | 0 <= p < |s| && base[p].Has? :: s[p] == base[p]
    ensures forall p | 0 <= p < |s| && base[p].Empty? && s[p].Has? :: have[p] && Offered(short, pool, m, p, s[p].tx)
    ensures count + Missing(s) == Missing(base)
  {
    hide Offered;
    forall p | 0 <= p < |s| && have[p]
      ensures base[p].Empty?
    {
      var id :| id in m && m[id] == p;
    }
    HeldEmpties(base, s, have, |s|);
    assert HeldBelow(s, have, |s|) == Held(s, have);
  }

  ghost function HeldBelow(s: seq<Slot>, have: seq<bool>, n: nat): set<nat> { set p | p in Held(s, have) && p < n }

  lemma {:induction false} HeldEmpties(base: seq<Slot>, s: seq<Slot>, have: seq<bool>, n: nat)
    requires |s| == |have| == |base| && n <= |s|
    requires forall p | 0 <= p < |s| :: if have[p] then base[p].Empty? else s[p] == base[p]
    ensures |HeldBelow(s, have, n)| + Empties(s, n) == Empties(base, n)
    decreases n
  {
    if n == 0 {
      assert HeldBelow(s, have, n) == {};
    } else {
      HeldEmpties(base, s, have, n - 1);
      assert HeldBelow(s, have, n) == HeldBelow(s, have, n - 1) + if n - 1 in Held(s, have) then {n - 1} else {};
    }
  }

  /* ---- Nothing is overlooked ---- */

  /** The transaction is offered to the slot. */
  predicate Hit(short: Hash -> ShortId, x: (Hash, Tx), m: Index, p: nat) { short(x.0) in m && m[short(x.0)] == p }

  /** How many transactions are offered to a slot. */
  function Hits(short: Hash -> ShortId, q: Pool, m: Index, p: nat): nat {
    if q == [] then 0 else Hits(short, q[..|q| - 1], m, p) + if Hit(short, q[|q| - 1], m, p) then 1 else 0
  }

  lemma {:induction false} HitsConcat(short: Hash -> ShortId, a: Pool, b: Pool, m: Index, p: nat)
    ensures Hits(short, a + b, m, p) == Hits(short, a, m, p) + Hits(short, b, m, p)
    decreases |b|
  {
    if b == [] {
      assert a + b == a;
    } else {
      HitsConcat(short, a, b[..|b| - 1], m, p);
      assert (a + b)[..|a + b| - 1] == a + b[..|b| - 1];
    }
  }

  lemma HitsOne(short: Hash -> ShortId, q: Pool, x: (Hash, Tx), m: Index, p: nat)
    ensures Hits(short, q + [x], m, p) == Hits(short, q, m, p) + if Hit(short, x, m, p) then 1 else 0
  {
    assert (q + [x])[..|q|] == q;
  }

  lemma {:induction false} HitsNone(short: Hash -> ShortId, q: Pool, m: Index, p: nat)
    requires p !in Slots(m)
    ensures Hits(short, q, m, p) == 0
    decreases |q|
  {
    if q != [] {
      HitsNone(short, q[..|q| - 1], m, p);
      if Hit(short, q[|q| - 1], m, p) {
        HitSlot(short, q[|q| - 1], m, p);
      }
    }
  }

  lemma HitSlot(short: Hash -> ShortId, x: (Hash, Tx), m: Index, p: nat)
    requires Hit(short, x, m, p)
    ensures p in Slots(m)
  {
    var id := short(x.0);
    assert m[id] in Slots(m);
  }

  /** Every known id stands for an empty slot of its own. */
  ghost predicate IdsFree(base: seq<Slot>, m: Index) {
    && (forall id | id in m :: m[id] < |base| && base[m[id]].Empty?)
    && (forall a, b | a in m && b in m && m[a] == m[b] :: a == b)
  }

  lemma ResolvedFree(c: Compact, base: seq<Slot>, m: Index)
    requires Resolved(c, base, m)
    ensures IdsFree(base, m)
  {
    forall a, b | a in m && b in m && m[a] == m[b]
      ensures a == b
    {
      var k :| 0 <= k < |c.shorttxids| && c.shorttxids[k] == a;
      var j :| 0 <= j < |c.shorttxids| && c.shorttxids[j] == b;
      assert FreeAt(base, k, m[a]) && FreeAt(base, j, m[a]);
    }
  }

  /** After looking at q: a slot not offered anything yet was never filled, a slot offered one transaction has it. */
  ghost predicate Counted(short: Hash -> ShortId, q: Pool, m: Index, s: seq<Slot>, have: seq<bool>) {
    |s| == |have| && forall p: nat | p < |s| :: CountedAt(short, q, m, p, s, have)
  }

  ghost predicate CountedAt(short: Hash -> ShortId, q: Pool, m: Index, p: nat, s: seq<Slot>, have: seq<bool>) {
    && p < |s| == |have|
    && (Hits(short, q, m, p) == 0 ==> !have[p]) && (Hits(short, q, m, p) == 1 ==> have[p] && s[p].Has?)
  }

  lemma CountStart(short: Hash -> ShortId, base: seq<Slot>, m: Index)
    ensures Counted(short, [], m, base, seq(|base|, _ => false))
  {
  }

  lemma CountStep(short: Hash -> ShortId, q: Pool, x: (Hash, Tx), m: Index, s: seq<Slot>, have: seq<bool>,
                  s': seq<Slot>, have': seq<bool>)
    requires Counted(short, q, m, s, have) && |s'| == |have'| == |s|
    requires forall p: nat | p < |s| :: if Hit(short, x, m, p) then have'[p] && (!have[p] ==> s'[p].Has?)
                                        else s'[p] == s[p] && have'[p] == have[p]
    ensures Counted(short, q + [x], m, s', have')
  {
    hide Hits, Hit;
    forall p: nat | p < |s|
      ensures CountedAt(short, q + [x], m, p, s', have')
    {
      assert CountedAt(short, q, m, p, s, have);
      HitsOne(short, q, x, m, p);
    }
  }

  /** A transaction that alone is offered to its slot, in all that was on offer, ends up there. */
  ghost predicate Found(short: Hash -> ShortId, all: Pool, m: Index, s: seq<Slot>) {
    forall p: nat | p < |s| && Hits(short, all, m, p) == 1 :: s[p].Has? && Offered(short, all, m, p, s[p].tx)
  }

  lemma SlotsTake(m: Index, id: ShortId)
    requires id in m
    ensures Slots(m) <= Slots(m - {id}) + {m[id]}
  {
    forall p | p in Slots(m)
      ensures p in Slots(m - {id}) + {m[id]}
    {
      var x :| x in m && m[x] == p;
      if x != id {
        assert (m - {id})[x] == p;
      }
    }
  }

  lemma {:induction false} SlotsSize(m: Index)
    ensures |Slots(m)| <= |m|
    decreases |m|
  {
    if |m| == 0 {
      assert m == map[] && Slots(m) == {};
    } else {
      SomeKey(m);
      var id :| id in m;
      SlotsSize(m - {id});
      SlotsTake(m, id);
      SubsetSize(Slots(m), Slots(m - {id}) + {m[id]});
      assert |m - {id}| == |m| - 1 by {
        assert (m - {id}).Keys == m.Keys - {id} && |m.Keys| == |m| && |(m - {id}).Keys| == |m - {id}|;
      }
    }
  }

  /** Stopping early is only done when every slot that can be is filled. */
  lemma AllFilled(short: Hash -> ShortId, all: Pool, base: seq<Slot>, m: Index, s: seq<Slot>, have: seq<bool>,
                  count: nat)
    requires Filling(short, all, base, m, s, have, count) && count == |m|
    ensures Held(s, have) == Slots(m)
  {
    hide Offered;
    SlotsSize(m);
    var h := Held(s, have);
    assert h <= Slots(m);
    SubsetSize(h, Slots(m));
    SameSet(h, Slots(m));
  }

  lemma SameSet(a: set<nat>, b: set<nat>)
    requires a <= b && |a| >= |b|
    ensures a == b
  {
    assert b == a + (b - a);
  }

  lemma FoundAll(short: Hash -> ShortId, all: Pool, base: seq<Slot>, m: Index, s: seq<Slot>, have: seq<bool>,
                 count: nat)
    requires Filling(short, all, base, m, s, have, count) && count == |m|
    ensures Found(short, all, m, s)
  {
    hide Offered, Hits;
    AllFilled(short, all, base, m, s, have, count);
    forall p: nat | p < |s| && Hits(short, all, m, p) == 1
      ensures s[p].Has? && Offered(short, all, m, p, s[p].tx)
    {
      if p in Slots(m) {
        assert p in Held(s, have);
      } else {
        HitsNone(short, all, m, p);
      }
    }
  }

  /** Every slot ids are filed under has been offered something. */
  ghost predicate AllHit(short: Hash -> ShortId, q: Pool, m: Index) {
    forall p | p in Slots(m) :: Hits(short, q, m, p) >= 1
  }

  lemma FoundAtEnd(short: Hash -> ShortId, pool: Pool, extra: Pool, done: nat, base: seq<Slot>, m: Index, s: seq<Slot>,
                   have: seq<bool>, count: nat)
    requires done <= |pool| && Counted(short, pool[..done] + extra, m, s, have)
    requires Filling(short, pool + extra, base, m, s, have, count)
    requires done < |pool| ==> AllHit(short, pool[..done], m)
    ensures Found(short, pool + extra, m, s)
  {
    hide Hits, Offered;
    forall p: nat | p < |s| && Hits(short, pool + extra, m, p) == 1
      ensures s[p].Has? && Offered(short, pool + extra, m, p, s[p].tx)
    {
      assert CountedAt(short, pool[..done] + extra, m, p, s, have);
      assert pool == pool[..done] + pool[done..];
      HitsConcat(short, pool[..done], pool[done..], m, p);
      HitsConcat(short, pool, extra, m, p);
      HitsConcat(short, pool[..done], extra, m, p);
      if done == |pool| {
        assert pool[..done] == pool;
      } else if p !in Slots(m) {
        HitsNone(short, pool + extra, m, p);
      }
    }
  }

  /* ---- The original block ---- */

  /** The compact block stands for this list of transactions. */
  ghost predicate Describes(short: Hash -> ShortId, wtxid: Tx -> Hash, c: Compact, base: seq<Slot>, vtx: seq<Tx>) {
    && |vtx| == |base| == c.BlockTxCount()
    && (forall p | 0 <= p < |base| && base[p].Has? :: base[p].tx == vtx[p])
    && (forall k, p | 0 <= k < |c.shorttxids| && 0 <= p < |base| && FreeAt(base, k, p) ::
          c.shorttxids[k] == short(wtxid(vtx[p])))
  }

  /** No offered transaction has the short id of a different transaction of the block. */
  ghost predicate NoClash(short: Hash -> ShortId, wtxid: Tx -> Hash, pool: Pool, vtx: seq<Tx>) {
    forall i, p | 0 <= i < |pool| && 0 <= p < |vtx| && short(pool[i].0) == short(wtxid(vtx[p])) :: pool[i].1 == vtx[p]
  }

  /** Every filled slot holds the block's own transaction. */
  ghost predicate Agrees(s: seq<Slot>, vtx: seq<Tx>) {
    |s| == |vtx| && forall p | 0 <= p < |s| && s[p].Has? :: s[p].tx == vtx[p]
  }

  lemma PoolAgrees(short: Hash -> ShortId, wtxid: Tx -> Hash, c: Compact, base: seq<Slot>, m: Index, pool: Pool,
                   s: seq<Slot>, have: seq<bool>, count: nat, vtx: seq<Tx>)
    requires Describes(short, wtxid, c, base, vtx) && Resolved(c, base, m) && NoClash(short, wtxid, pool, vtx)
    requires Filling(short, pool, base, m, s, have, count)
    ensures Agrees(s, vtx)
  {
    hide FreeAt;
    ResolvedFree(c, base, m);
    FillingFree(short, pool, base, m, s, have, count);
    forall p | 0 <= p < |s| && s[p].Has? ensures s[p].tx == vtx[p] {
      if base[p].Empty? {
        var i :| 0 <= i < |pool| && pool[i].1 == s[p].tx && short(pool[i].0) in m && m[short(pool[i].0)] == p;
        var k :| 0 <= k < |c.shorttxids| && c.shorttxids[k] == short(pool[i].0);
        assert FreeAt(base, k, p);
      }
    }
  }

  /** FillBlock: empty slots take the missing transactions in order. */
  function Merge(s: seq<Slot>, missing: seq<Tx>, n: nat): (r: seq<Tx>)
    requires n <= |s| && Empties(s, n) <= |missing|
    ensures |r| == n
  {
    if n == 0 then []
    else Merge(s, missing, n - 1) + [if s[n - 1].Empty? then missing[Empties(s, n - 1)] else s[n - 1].tx]
  }

  /** The block's transactions at the empty slots, in order. */
  function Wanted(s: seq<Slot>, vtx: seq<Tx>, n: nat): (r: seq<Tx>)
    requires n <= |s| == |vtx|
    ensures |r| == Empties(s, n)
  {
    if n == 0 then [] else Wanted(s, vtx, n - 1) + if s[n - 1].Empty? then [vtx[n - 1]] else []
  }

  lemma {:induction false} MergeWanted(s: seq<Slot>, vtx: seq<Tx>, missing: seq<Tx>, n: nat)
    requires Agrees(s, vtx) && n <= |s| && Empties(s, n) <= |missing| && Wanted(s, vtx, n) == missing[..Empties(s, n)]
    ensures Merge(s, missing, n) == vtx[..n]
    decreases n
  {
    if n > 0 {
      var e := Empties(s, n - 1);
      assert Wanted(s, vtx, n - 1) == Wanted(s, vtx, n)[..e] == missing[..e];
      MergeWanted(s, vtx, missing, n - 1);
      if s[n - 1].Empty? {
        assert Wanted(s, vtx, n)[e] == vtx[n - 1] && missing[..e + 1][e] == missing[e];
      }
    }
  }

  /** Filling with exactly the missing transactions rebuilds the original list. */
  lemma Rebuilds(s: seq<Slot>, vtx: seq<Tx>)
    requires Agrees(s, vtx)
    ensures Merge(s, Wanted(s, vtx, |s|), |s|) == vtx
  {
    hide Merge, Wanted;
    var w := Wanted(s, vtx, |s|);
    assert w[..|w|] == w;
    MergeWanted(s, vtx, w, |s|);
    assert vtx[..|s|] == vtx;
  }

  /* ---- Making a compact block ---- */

  function Made(short: Hash -> ShortId, wtxid: Tx -> Hash, vtx: seq<Tx>): Compact
    requires |vtx| > 0
  {
    Compact(false, seq(|vtx| - 1, i requires 0 <= i < |vtx| - 1 => short(wtxid(vtx[i + 1]))),
        [Prefilled(0, vtx[0], false)])
  }

  /** A compact block made from a list describes it. */
  lemma MadeDescribes(short: Hash -> ShortId, wtxid: Tx -> Hash, vtx: seq<Tx>, base: seq<Slot>)
    requires |vtx| > 0 && Placed(Made(short, wtxid, vtx), base, 1)
    ensures Describes(short, wtxid, Made(short, wtxid, vtx), base, vtx)
  {
    var c := Made(short, wtxid, vtx);
    assert Pos(c.prefilledtxn, 0) == 0;
    forall p | 0 <= p < |base| && base[p].Has? ensures p == 0 {
      assert IsPrefilled(c, 1, p);
    }
    forall k, p | 0 <= k < |c.shorttxids| && 0 <= p < |base| && FreeAt(base, k, p)
      ensures c.shorttxids[k] == short(wtxid(vtx[p]))
    {
      assert p > 0;
      RestEmpty(base, p);
    }
  }

  lemma MadeWellFormed(short: Hash -> ShortId, wtxid: Tx -> Hash, vtx: seq<Tx>)
    requires 0 < |vtx| <= MAX_TX_COUNT
    ensures WellFormed(Made(short, wtxid, vtx))
  {
    assert Pos(Made(short, wtxid, vtx).prefilledtxn, 0) == 0;
  }

  /** A block of more than 65536 transactions, sent with its coinbase: the first transaction whose position does not fit
      is filed under the coinbase, and takes its place if it alone is offered there. */
  lemma CoinbaseDisplaced(short: Hash -> ShortId, wtxid: Tx -> Hash, vtx: seq<Tx>, base: seq<Slot>, m: Index, all: Pool,
                          s: seq<Slot>)
    requires TWO_16 < |vtx| <= 2 * TWO_16 && |s| == |base| && NoClash(short, wtxid, all, vtx)
    requires Placed(Made(short, wtxid, vtx), base, 1) && Filed(Made(short, wtxid, vtx), base, m)
    requires Found(short, all, m, s)
    ensures short(wtxid(vtx[TWO_16])) in m && m[short(wtxid(vtx[TWO_16]))] == 0 && base[0] == Has(vtx[0])
    ensures Hits(short, all, m, 0) == 1 ==> s[0] == Has(vtx[TWO_16])
  {
    hide Hits, Placed, Found, Filed, Empties;
    var c := Made(short, wtxid, vtx);
    MadeBase(short, wtxid, vtx, base);
    MadeFiled(c, base, m, TWO_16 - 1);
    if Hits(short, all, m, 0) == 1 {
      FoundAt(short, all, m, s, 0);
      var i :| 0 <= i < |all| && all[i].1 == s[0].tx && short(all[i].0) in m && m[short(all[i].0)] == 0;
      var k := FiledId(c, base, m, short(all[i].0));
      MadeFiled(c, base, m, k);
      assert short(all[i].0) == short(wtxid(vtx[TWO_16]));
    }
  }

  lemma FiledId(c: Compact, base: seq<Slot>, m: Index, id: ShortId) returns (k: nat)
    requires Filed(c, base, m) && id in m
    ensures k < |c.shorttxids| && c.shorttxids[k] == id
  {
    k :| 0 <= k < |c.shorttxids| && c.shorttxids[k] == id;
  }

  /** With only the coinbase there, the k-th id belongs to position k + 1. */
  lemma MadeFiled(c: Compact, base: seq<Slot>, m: Index, k: nat)
    requires Filed(c, base, m) && k < |c.shorttxids| == |base| - 1
    requires base[0].Has? && forall p | 0 < p < |base| :: base[p].Empty?
    ensures c.shorttxids[k] in m && m[c.shorttxids[k]] == (k + 1) % TWO_16
  {
    hide Empties;
    assert FiledAt(base, k, m[c.shorttxids[k]]);
    var p: nat :| FreeAt(base, k, p) && m[c.shorttxids[k]] == p % TWO_16;
    RestEmpty(base, k + 1);
    FreeUnique(base, k, p, k + 1);
  }

  lemma FoundAt(short: Hash -> ShortId, all: Pool, m: Index, s: seq<Slot>, p: nat)
    requires Found(short, all, m, s) && p < |s| && Hits(short, all, m, p) == 1
    ensures s[p].Has? && Offered(short, all, m, p, s[p].tx)
  {
  }

  /** Of a made compact block only the coinbase is there. */
  lemma MadeBase(short: Hash -> ShortId, wtxid: Tx -> Hash, vtx: seq<Tx>, base: seq<Slot>)
    requires |vtx| > 0 && Placed(Made(short, wtxid, vtx), base, 1)
    ensures |base| == |vtx| && base[0] == Has(vtx[0]) && forall p | 0 < p < |base| :: base[p].Empty?
  {
    var c := Made(short, wtxid, vtx);
    assert Pos(c.prefilledtxn, 0) == 0;
    forall p | 0 <= p < |base| && base[p].Has?
      ensures p == 0
    {
      assert IsPrefilled(c, 1, p);
    }
  }

  lemma {:induction false} RestEmpty(s: seq<Slot>, n: nat)
    requires 0 < n <= |s| && s[0].Has? && forall p | 0 < p < n :: s[p].Empty?
    ensures Empties(s, n) == n - 1
    decreases n
  {
    if n > 1 {
      RestEmpty(s, n - 1);
    }
  }
}
