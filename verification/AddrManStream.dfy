/** What CAddrMan::Serialize writes (src/addrman.h), as a value, and the renumbering of ids it implies. */
module AddrManStream {
  import opened Basics
  import opened AddrManTables

  /** The stream of Serialize; integers, entries and buckets in the order they are written. */
  datatype Disk = Disk(
    version: nat, keySize: nat, key: Key, nNew: int, nTried: int, nUBuckets: int,
    newInfos: seq<AddrInfo>, triedInfos: seq<AddrInfo>, buckets: seq<seq<int>>)

  const BIT_30: int := 0x4000_0000

  /** XOR with 2^30. */
  function Flip30(x: int): int { if x / BIT_30 % 2 == 0 then x + BIT_30 else x - BIT_30 }

  /** The persistent part of an entry, as read back into a default entry. */
  function OnDisk(e: AddrInfo): AddrInfo {
    e.(nLastTry := 0, nLastCountAttempt := 0, nRefCount := 0, fInTried := false, nRandomPos := -1)
  }

  /** How many of `s` lie in 0..n: the position of `n` in a pass over `s` by increasing id. */
  function Rank(s: set<int>, n: nat): nat {
    if n == 0 then 0 else Rank(s, n - 1) + if n - 1 in s then 1 else 0
  }

  lemma {:induction false} RankMonotone(s: set<int>, m: nat, n: nat)
    requires m <= n
    ensures Rank(s, m) <= Rank(s, n)
    ensures m < n && m in s ==> Rank(s, m) < Rank(s, n)
    decreases n
  {
    if m < n {
      RankMonotone(s, m, n - 1);
    }
  }

  lemma RankInjective(s: set<int>, m: nat, n: nat)
    requires m in s && n in s && Rank(s, m) == Rank(s, n)
    ensures m == n
  {
    if m < n {
      RankMonotone(s, m, n);
    } else if n < m {
      RankMonotone(s, n, m);
    }
  }

  lemma {:induction false} RankOnto(s: set<int>, n: nat, i: nat) returns (m: nat)
    requires i < Rank(s, n)
    ensures m < n && m in s && Rank(s, m) == i
    decreases n
  {
    if n - 1 in s && i == Rank(s, n - 1) {
      m := n - 1;
    } else {
      m := RankOnto(s, n - 1, i);
    }
  }

  lemma {:induction false} RankTotal(s: set<int>, n: nat)
    requires forall m | m in s :: 0 <= m < n
    ensures Rank(s, n) == |s|
    decreases n
  {
    if n == 0 {
      if s != {} {
        SomeMember(s);
        assert false;
      }
    } else {
      var r := s - {n - 1};
      RankTotal(r, n - 1);
      RankBelow(s, r, n - 1);
      assert n - 1 in s ==> s == r + {n - 1};
      assert n - 1 !in s ==> s == r;
    }
  }

  lemma {:induction false} RankBelow(s: set<int>, r: set<int>, n: nat)
    requires forall m | 0 <= m < n :: m in s <==> m in r
    ensures Rank(s, n) == Rank(r, n)
    decreases n
  {
    if n > 0 {
      RankBelow(s, r, n - 1);
    }
  }

  ghost function RefIds(info: Infos): set<int> { set n | n in info && info[n].nRefCount != 0 }

  lemma CountReferenced(k: Buckets, t: Tables, nIdCount: int)
    requires Linked(k, t, {}, nIdCount)
    ensures nIdCount >= 0 && RefIds(t.info) == NewIds(t.info)
    ensures Rank(RefIds(t.info), nIdCount) == |NewIds(t.info)|
    ensures Rank(TriedIds(t.info), nIdCount) == |TriedIds(t.info)|
  {
    forall n | n in t.info
      ensures t.info[n].nRefCount != 0 <==> !t.info[n].fInTried
    {
      Referenced(k, t, {}, nIdCount, n);
      RefCountBound(k, t, {}, nIdCount, n);
    }
    assert RefIds(t.info) == NewIds(t.info);
    RankTotal(RefIds(t.info), nIdCount);
    RankTotal(TriedIds(t.info), nIdCount);
  }

  /** `infos` is what a pass over the ids `s` below `n` writes. */
  ghost predicate Listed(info: Infos, s: set<int>, n: nat, infos: seq<AddrInfo>) {
    && s <= info.Keys
    && |infos| == Rank(s, n)
    && forall i: nat | i < n && i in s :: Rank(s, i) < |infos| && infos[Rank(s, i)] == OnDisk(info[i])
  }

  lemma ListedNone(info: Infos, s: set<int>)
    requires s <= info.Keys
    ensures Listed(info, s, 0, [])
  {
  }

  lemma ListedMore(info: Infos, s: set<int>, n: nat, infos: seq<AddrInfo>)
    requires Listed(info, s, n, infos)
    ensures Listed(info, s, n + 1, if n in s then infos + [OnDisk(info[n])] else infos)
  {
  }

  /** The indexes of a bucket's occupants, by increasing position. */
  ghost function Indexes(s: set<int>, row: seq<int>): seq<int> {
    if row == [] then []
    else
      var last := row[|row| - 1];
      Indexes(s, row[..|row| - 1]) + if last < 0 then [] else [Rank(s, last)]
  }

  /** `d` is what Serialize writes for the tables `t`. */
  ghost predicate Written(k: Buckets, t: Tables, nIdCount: nat, d: Disk) {
    && d.version == 1 && d.keySize == 32 && d.key == k.key
    && d.nNew == |d.newInfos| && Listed(t.info, RefIds(t.info), nIdCount, d.newInfos)
    && d.nTried == |d.triedInfos| && Listed(t.info, TriedIds(t.info), nIdCount, d.triedInfos)
    && d.nUBuckets == Flip30(NEW_BUCKET_COUNT)
    && |d.buckets| == NEW_BUCKET_COUNT == |t.fresh'|
    && (forall b | 0 <= b < NEW_BUCKET_COUNT :: d.buckets[b] == Indexes(RefIds(t.info), t.fresh'[b]))
  }

  /** The id an entry gets when the stream is read back: new entries first, then tried ones. */
  ghost function NewId(t: Tables, nNew: int, n: nat): int
    requires n in t.info
  {
    if t.info[n].nRefCount != 0 then Rank(RefIds(t.info), n) else nNew + Rank(TriedIds(t.info), n)
  }

  /** Occupied positions of a row before `p`. */
  ghost function Before(row: seq<int>, p: nat): nat
    requires p <= |row|
  {
    if p == 0 then 0 else Before(row, p - 1) + if row[p - 1] < 0 then 0 else 1
  }

  lemma {:induction false} BeforeMonotone(row: seq<int>, p: nat, q: nat)
    requires p <= q <= |row|
    ensures Before(row, p) <= Before(row, q)
    ensures p < q && row[p] >= 0 ==> Before(row, p) < Before(row, q)
    decreases q
  {
    if p < q {
      BeforeMonotone(row, p, q - 1);
    }
  }

  lemma {:induction false} BeforePrefix(row: seq<int>, q: nat, p: nat)
    requires p <= q <= |row|
    ensures Before(row[..q], p) == Before(row, p)
    decreases p
  {
    if p > 0 {
      BeforePrefix(row, q, p - 1);
    }
  }

  lemma {:induction false} IndexesLength(s: set<int>, row: seq<int>)
    ensures |Indexes(s, row)| == Before(row, |row|)
    decreases |row|
  {
    if row != [] {
      IndexesLength(s, row[..|row| - 1]);
      BeforePrefix(row, |row| - 1, |row| - 1);
    }
  }

  /** The m-th index written for a row is that of its m-th occupant. */
  lemma {:induction false} NthOccupant(s: set<int>, row: seq<int>, m: nat) returns (p: nat)
    requires m < |Indexes(s, row)|
    ensures p < |row| && row[p] >= 0 && Before(row, p) == m && Indexes(s, row)[m] == Rank(s, row[p])
    decreases |row|
  {
    var q := row[..|row| - 1];
    IndexesLength(s, q);
    BeforePrefix(row, |row| - 1, |row| - 1);
    if m < |Indexes(s, q)| {
      p := NthOccupant(s, q, m);
      BeforePrefix(row, |row| - 1, p);
    } else {
      p := |row| - 1;
    }
  }

  /** A row, renumbered, up to its first `m` occupants. */
  ghost function RowAt(s: set<int>, row: seq<int>, m: nat): (r: seq<int>)
    ensures |r| == |row|
    ensures forall p: nat | p < |row| :: r[p] == if row[p] >= 0 && Before(row, p) < m then Rank(s, row[p]) else -1
  {
    seq(|row|, p requires 0 <= p < |row| => if row[p] >= 0 && Before(row, p) < m then Rank(s, row[p]) else -1)
  }

  lemma RowFull(s: set<int>, row: seq<int>, p: nat)
    requires p < |row|
    ensures RowAt(s, row, |Indexes(s, row)|)[p] == if row[p] >= 0 then Rank(s, row[p]) else -1
  {
    IndexesLength(s, row);
    BeforeMonotone(row, p, |row|);
  }

  lemma RowNext(s: set<int>, row: seq<int>, m: nat, p: nat)
    requires p < |row| && row[p] >= 0 && Before(row, p) == m
    ensures RowAt(s, row, m)[p] == -1
    ensures RowAt(s, row, m)[p := Rank(s, row[p])] == RowAt(s, row, m + 1)
  {
    forall q: nat | q < |row| && q != p && row[q] >= 0
      ensures Before(row, q) != m
    {
      if q < p {
        BeforeMonotone(row, q, p);
      } else {
        BeforeMonotone(row, p, q);
      }
    }
  }

  /** The new table once buckets below `b` and `m` indexes of bucket `b` are read. */
  ghost function FreshAt(s: set<int>, t: Table, b: nat, m: nat): (r: Table)
    ensures |r| == |t|
    ensures forall c: nat | c < |t| ::
              r[c] == RowAt(s, t[c], if c < b then |Indexes(s, t[c])| else if c == b then m else 0)
  {
    seq(|t|, c requires 0 <= c < |t| => RowAt(s, t[c], if c < b then |Indexes(s, t[c])| else if c == b then m else 0))
  }

  lemma FreshNone(s: set<int>, t: Table)
    requires Shaped(t, NEW_BUCKET_COUNT)
    ensures FreshAt(s, t, 0, 0) == Empty(NEW_BUCKET_COUNT)
  {
    forall b: nat | b < NEW_BUCKET_COUNT
      ensures FreshAt(s, t, 0, 0)[b] == Empty(NEW_BUCKET_COUNT)[b]
    {
    }
  }

  lemma FreshRow(s: set<int>, t: Table, b: nat)
    requires b < |t|
    ensures FreshAt(s, t, b, |Indexes(s, t[b])|) == FreshAt(s, t, b + 1, 0)
  {
  }

  lemma FreshNext(s: set<int>, t: Table, b: nat, m: nat, p: nat)
    requires b < |t| && p < |t[b]| && t[b][p] >= 0 && Before(t[b], p) == m
    ensures FreshAt(s, t, b, m)[b][p] == -1
    ensures Put(FreshAt(s, t, b, m), b, p, Rank(s, t[b][p])) == FreshAt(s, t, b, m + 1)
  {
    RowNext(s, t[b], m, p);
  }
}
