/** Reading back what Serialize wrote: the state of the tables after each part of the stream. */
module AddrManReload {
  import opened Basics
  import opened AddrManTables
  import opened AddrManStream

  ghost predicate Below(i: int, n: int) { 0 <= i < n }
  ghost function Ids(n: int): set<int> { set i | 0 <= i < n && Below(i, n) }

  ghost function Iota(n: nat): (r: seq<int>) ensures |r| == n { seq(n, i => i) }

  lemma OneMore(n: nat)
    ensures Ids(n) + {n} == Ids(n + 1) && Iota(n) + [n] == Iota(n + 1) && n !in Ids(n)
  {
  }

  /** `d` was written for the consistent tables `src`. */
  ghost predicate Origin(k: Buckets, src: Tables, ids: nat, d: Disk) {
    Linked(k, src, {}, ids) && Written(k, src, ids, d)
  }

  /** The source of the i-th new entry. */
  lemma NewOrigin(k: Buckets, src: Tables, ids: nat, d: Disk, i: nat) returns (m: nat)
    requires Origin(k, src, ids, d) && i < |d.newInfos|
    ensures m in src.info && src.info[m].nRefCount != 0 && Rank(RefIds(src.info), m) == i
    ensures d.newInfos[i] == OnDisk(src.info[m]) && !src.info[m].fInTried
  {
    m := RankOnto(RefIds(src.info), ids, i);
  }

  lemma TriedOrigin(k: Buckets, src: Tables, ids: nat, d: Disk, i: nat) returns (m: nat)
    requires Origin(k, src, ids, d) && i < |d.triedInfos|
    ensures m in src.info && src.info[m].fInTried && Rank(TriedIds(src.info), m) == i
    ensures d.triedInfos[i] == OnDisk(src.info[m]) && src.info[m].nRefCount == 0
    ensures Shaped(src.tried, TRIED_BUCKET_COUNT)
    ensures src.tried[k.Tried(src.info[m].service)][k.TriedPos(src.info[m].service)] == m
  {
    m := RankOnto(TriedIds(src.info), ids, i);
  }

  ghost function Info(d: Disk, i: nat): AddrInfo
    requires i < |d.newInfos| + |d.triedInfos|
  {
    if i < |d.newInfos| then d.newInfos[i].(nRandomPos := i)
    else d.triedInfos[i - |d.newInfos|].(fInTried := true, nRandomPos := i)
  }

  /** No two entries of the stream share an address, and no two tried ones a slot. */
  lemma Distinct(k: Buckets, src: Tables, ids: nat, d: Disk, i: nat, j: nat)
    requires Origin(k, src, ids, d) && i < j < |d.newInfos| + |d.triedInfos|
    ensures Info(d, i).service.addr != Info(d, j).service.addr
    ensures |d.newInfos| <= i ==>
              (k.Tried(Info(d, i).service), k.TriedPos(Info(d, i).service)) !=
              (k.Tried(Info(d, j).service), k.TriedPos(Info(d, j).service))
  {
    hide NewLinked, RandomLinked;
    var n := |d.newInfos|;
    if j < n {
      var a := NewOrigin(k, src, ids, d, i);
      var b := NewOrigin(k, src, ids, d, j);
      assert src.addrs[src.info[a].service.addr] == a && src.addrs[src.info[b].service.addr] == b;
    } else if i < n {
      var a := NewOrigin(k, src, ids, d, i);
      var b := TriedOrigin(k, src, ids, d, j - n);
      assert src.addrs[src.info[a].service.addr] == a && src.addrs[src.info[b].service.addr] == b;
    } else {
      var a := TriedOrigin(k, src, ids, d, i - n);
      var b := TriedOrigin(k, src, ids, d, j - n);
      assert src.addrs[src.info[a].service.addr] == a && src.addrs[src.info[b].service.addr] == b;
    }
  }

  /** The tables after the first `n` entries of the stream. */
  ghost predicate Loaded(k: Buckets, d: Disk, n: nat, t: Tables) {
    && n <= |d.newInfos| + |d.triedInfos|
    && Linked(k, t, Ids(if n < |d.newInfos| then n else |d.newInfos|), n)
    && t.info.Keys == Ids(n)
    && (forall i: nat | i < n :: t.info[i] == Info(d, i))
    && t.fresh' == Empty(NEW_BUCKET_COUNT)
    && t.random == Iota(n)
    && |NewIds(t.info)| == (if n < |d.newInfos| then n else |d.newInfos|)
    && |TriedIds(t.info)| == n - |NewIds(t.info)|
  }

  lemma LoadedNone(k: Buckets, d: Disk, t: Tables)
    requires t == Tables(map[], map[], [], Empty(TRIED_BUCKET_COUNT), Empty(NEW_BUCKET_COUNT))
    ensures Loaded(k, d, 0, t)
  {
    assert NewIds(t.info) == {} && TriedIds(t.info) == {};
  }

  lemma AddressFree(k: Buckets, src: Tables, ids: nat, d: Disk, n: nat, t: Tables)
    requires Origin(k, src, ids, d) && Loaded(k, d, n, t) && n < |d.newInfos| + |d.triedInfos|
    ensures Info(d, n).service.addr !in t.addrs
  {
    hide NewLinked, RandomLinked, TriedLinked, InfoOk, Written;
    var a := Info(d, n).service.addr;
    if a in t.addrs {
      assert t.addrs[a] in t.info;
      Distinct(k, src, ids, d, t.addrs[a], n);
      assert false;
    }
  }

  lemma LoadNew(k: Buckets, src: Tables, ids: nat, d: Disk, n: nat, t: Tables)
    requires Origin(k, src, ids, d) && Loaded(k, d, n, t) && n < |d.newInfos|
    ensures Loaded(k, d, n + 1,
            t.(info := t.info[n := Info(d, n)], addrs := t.addrs[Info(d, n).service.addr := n],
            random := t.random + [n]))
  {
    hide Linked, Written, Iota;
    AddressFree(k, src, ids, d, n, t);
    var m := NewOrigin(k, src, ids, d, n);
    AddLoose(k, t, Ids(n), n, Info(d, n));
    OneMoreNew(t.info, n, Info(d, n));
    OneMore(n);
  }

  lemma TriedFree(k: Buckets, src: Tables, ids: nat, d: Disk, n: nat, t: Tables)
    requires Origin(k, src, ids, d) && Loaded(k, d, n, t) && |d.newInfos| <= n < |d.newInfos| + |d.triedInfos|
    ensures Shaped(t.tried, TRIED_BUCKET_COUNT)
    ensures t.tried[k.Tried(Info(d, n).service)][k.TriedPos(Info(d, n).service)] == -1
  {
    hide Linked, Written, NewIds, TriedIds;
    LinkedShape(k, t, Ids(|d.newInfos|), n);
    var b, p := k.Tried(Info(d, n).service), k.TriedPos(Info(d, n).service);
    if t.tried[b][p] != -1 {
      OccupantTried(k, t, Ids(|d.newInfos|), n, b, p);
      var o := t.tried[b][p];
      assert o in Ids(n) && t.info[o] == Info(d, o);
      Distinct(k, src, ids, d, o, n);
      assert false;
    }
  }

  lemma LinkTried(k: Buckets, src: Tables, ids: nat, d: Disk, n: nat, t: Tables)
    requires Origin(k, src, ids, d) && Loaded(k, d, n, t) && |d.newInfos| <= n < |d.newInfos| + |d.triedInfos|
    requires Shaped(t.tried, TRIED_BUCKET_COUNT)
    ensures var e := Info(d, n);
            Linked(k, t.(info := t.info[n := e], addrs := t.addrs[e.service.addr := n], random := t.random + [n],
                         tried := Put(t.tried, k.Tried(e.service), k.TriedPos(e.service), n)), Ids(|d.newInfos|), n + 1)
  {
    hide Linked, Written, Put, NewIds, TriedIds;
    AddressFree(k, src, ids, d, n, t);
    TriedFree(k, src, ids, d, n, t);
    var m := TriedOrigin(k, src, ids, d, n - |d.newInfos|);
    var e := Info(d, n);
    var l := Ids(|d.newInfos|);
    AddLoose(k, t, l, n, e.(fInTried := false));
    var t1 := t.(info := t.info[n := e.(fInTried := false)], addrs := t.addrs[e.service.addr := n],
        random := t.random + [n]);
    TightenTried(k, t1, l + {n}, n + 1, n);
    assert n !in l;
    assert l + {n} - {n} == l;
    assert t1.info[n := e] == t.info[n := e];
  }

  lemma LoadTried(k: Buckets, src: Tables, ids: nat, d: Disk, n: nat, t: Tables)
    requires Origin(k, src, ids, d) && Loaded(k, d, n, t) && |d.newInfos| <= n < |d.newInfos| + |d.triedInfos|
    requires Shaped(t.tried, TRIED_BUCKET_COUNT)
    ensures var e := Info(d, n);
            Loaded(k, d, n + 1, t.(info := t.info[n := e], addrs := t.addrs[e.service.addr := n],
                random := t.random + [n],
                                   tried := Put(t.tried, k.Tried(e.service), k.TriedPos(e.service), n)))
  {
    hide Linked, Written, Put, Ids, Iota, NewIds, TriedIds;
    LinkTried(k, src, ids, d, n, t);
    var e := Info(d, n);
    OneMore(n);
    OneMoreTried(t.info, n, e);
  }

  ghost function LooseNew(d: Disk, info: Infos): set<int> {
    set i | i in info && 0 <= i < |d.newInfos| && info[i].nRefCount == 0
  }

  /** All entries are loaded and the new table is filled up to index `m` of bucket `b`. */
  ghost predicate Filled(k: Buckets, src: Tables, d: Disk, b: nat, m: nat, t: Tables) {
    var n := |d.newInfos| + |d.triedInfos|;
    && Linked(k, t, LooseNew(d, t.info), n)
    && t.info.Keys == Ids(n)
    && (forall i: nat | i < n :: t.info[i] == Info(d, i).(nRefCount := t.info[i].nRefCount))
    && t.fresh' == FreshAt(RefIds(src.info), src.fresh', b, m)
    && |NewIds(t.info)| == |d.newInfos| && |TriedIds(t.info)| == |d.triedInfos|
  }

  lemma FilledNone(k: Buckets, src: Tables, ids: nat, d: Disk, t: Tables)
    requires Origin(k, src, ids, d) && Loaded(k, d, |d.newInfos| + |d.triedInfos|, t)
    ensures Filled(k, src, d, 0, 0, t)
  {
    hide NewLinked, RandomLinked, TriedLinked, AddrLinked, Listed;
    LinkedShape(k, src, {}, ids);
    FreshNone(RefIds(src.info), src.fresh');
    forall i: nat | i < |d.newInfos| + |d.triedInfos|
      ensures Info(d, i).nRefCount == 0
    {
      if i < |d.newInfos| {
        var m := NewOrigin(k, src, ids, d, i);
      } else {
        var m := TriedOrigin(k, src, ids, d, i - |d.newInfos|);
      }
    }
    forall i | i in Ids(|d.newInfos|)
      ensures i in LooseNew(d, t.info)
    {
      assert i in Ids(|d.newInfos| + |d.triedInfos|);
    }
    assert LooseNew(d, t.info) == Ids(|d.newInfos|);
  }

  lemma FilledRow(k: Buckets, src: Tables, ids: nat, d: Disk, b: nat, t: Tables)
    requires Origin(k, src, ids, d) && b < NEW_BUCKET_COUNT && Filled(k, src, d, b, |d.buckets[b]|, t)
    ensures Filled(k, src, d, b + 1, 0, t)
  {
    hide Linked;
    FreshRow(RefIds(src.info), src.fresh', b);
  }

  /** The m-th index of bucket `b`: its source, its place, and that the place is still free. */
  lemma NextSlot(k: Buckets, src: Tables, ids: nat, d: Disk, b: nat, m: nat) returns (p: nat, n: nat)
    requires Origin(k, src, ids, d) && b < NEW_BUCKET_COUNT && m < |d.buckets[b]|
    ensures Shaped(src.fresh', NEW_BUCKET_COUNT) && p < BUCKET_SIZE && n == src.fresh'[b][p]
            && Before(src.fresh'[b], p) == m
    ensures n in src.info && n in RefIds(src.info) && p == k.NewPos(src.info[n].service, b)
    ensures d.buckets[b][m] == Rank(RefIds(src.info), n) < |d.newInfos|
    ensures d.newInfos[d.buckets[b][m]] == OnDisk(src.info[n])
  {
    hide RandomLinked, TriedLinked, AddrLinked;
    p := NthOccupant(RefIds(src.info), src.fresh'[b], m);
    n := src.fresh'[b][p];
    OccupantNew(k, src, {}, ids, b, p);
  }

  /** An entry whose next slot is still to come has fewer references than its source. */
  lemma FewerHolders(k: Buckets, s: set<int>, f: Table, v: Service, n: nat, b: nat)
    requires Shaped(f, NEW_BUCKET_COUNT) && b < NEW_BUCKET_COUNT && n in s && f[b][k.NewPos(v, b)] == n
    requires forall c, q | 0 <= c < NEW_BUCKET_COUNT && 0 <= q < BUCKET_SIZE && f[c][q] >= 0 :: f[c][q] in s
    ensures var g := FreshAt(s, f, b, Before(f[b], k.NewPos(v, b)));
            Shaped(g, NEW_BUCKET_COUNT) && |Holders(k, v, Rank(s, n), g)| < |Holders(k, v, n, f)|
  {
    var g := FreshAt(s, f, b, Before(f[b], k.NewPos(v, b)));
    var h, h0 := Holders(k, v, Rank(s, n), g), Holders(k, v, n, f);
    forall c | c in h
      ensures c in h0 && c != b
    {
      var q := k.NewPos(v, c);
      RankInjective(s, f[c][q], n);
      RowNext(s, f[b], Before(f[b], k.NewPos(v, b)), k.NewPos(v, b));
    }
    assert h <= h0 - {b};
    SubsetSize(h, h0 - {b});
  }

  lemma FillStep(k: Buckets, src: Tables, d: Disk, b: nat, m: nat, t: Tables, i: nat)
    requires Filled(k, src, d, b, m, t) && b < NEW_BUCKET_COUNT && Shaped(t.fresh', NEW_BUCKET_COUNT)
    requires i < |d.newInfos| && i in t.info && !t.info[i].fInTried
             && 0 <= t.info[i].nRefCount < NEW_BUCKETS_PER_ADDRESS
    requires t.fresh'[b][k.NewPos(t.info[i].service, b)] == -1
    requires Put(t.fresh', b, k.NewPos(t.info[i].service, b), i) == FreshAt(RefIds(src.info), src.fresh', b, m + 1)
    ensures Filled(k, src, d, b, m + 1, t.(info := t.info[i := t.info[i].(nRefCount := t.info[i].nRefCount + 1)],
                                           fresh' := Put(t.fresh', b, k.NewPos(t.info[i].service, b), i)))
  {
    hide Linked, Put, Ids, FreshAt, NewIds, TriedIds;
    var n := |d.newInfos| + |d.triedInfos|;
    var e := t.info[i].(nRefCount := t.info[i].nRefCount + 1);
    TightenNew(k, t, LooseNew(d, t.info), n, i, b);
    assert LooseNew(d, t.info[i := e]) == LooseNew(d, t.info) - {i};
    SameStatus(t.info, i, e);
  }

  lemma HolderCount(k: Buckets, t: Tables, loose: set<int>, nIdCount: int, i: int)
    requires Linked(k, t, loose, nIdCount) && i in t.info
    ensures Shaped(t.fresh', NEW_BUCKET_COUNT) && t.info[i].nRefCount == |Holders(k, t.info[i].service, i, t.fresh')|
  {
  }

  lemma OccupantsReferenced(k: Buckets, src: Tables, ids: nat)
    requires Linked(k, src, {}, ids)
    ensures Shaped(src.fresh', NEW_BUCKET_COUNT)
    ensures forall c, q | 0 <= c < NEW_BUCKET_COUNT && 0 <= q < BUCKET_SIZE && src.fresh'[c][q] >= 0 ::
              src.fresh'[c][q] in RefIds(src.info)
  {
    LinkedShape(k, src, {}, ids);
    forall c, q | 0 <= c < NEW_BUCKET_COUNT && 0 <= q < BUCKET_SIZE && src.fresh'[c][q] >= 0
      ensures src.fresh'[c][q] in RefIds(src.info)
    {
      OccupantNew(k, src, {}, ids, c, q);
    }
  }

  /** The next index read takes a free slot of a new entry that has room for a reference. */
  lemma FillNext(k: Buckets, src: Tables, ids: nat, d: Disk, b: nat, m: nat, t: Tables)
    requires Origin(k, src, ids, d) && b < NEW_BUCKET_COUNT && m < |d.buckets[b]| && Filled(k, src, d, b, m, t)
    ensures var i := d.buckets[b][m];
            && 0 <= i < |d.newInfos| && i in t.info && t.info[i].nRefCount < NEW_BUCKETS_PER_ADDRESS
            && Shaped(t.fresh', NEW_BUCKET_COUNT)
            && var p := k.NewPos(t.info[i].service, b);
            && t.fresh'[b][p] == -1
            && Filled(k, src, d, b, m + 1, t.(info := t.info[i := t.info[i].(nRefCount := t.info[i].nRefCount + 1)],
                                              fresh' := Put(t.fresh', b, p, i)))
  {
    var i := d.buckets[b][m];
    hide Linked, Put, Written, FreshAt, NewIds, TriedIds, LooseNew, RefIds;
    var n, s := |d.newInfos| + |d.triedInfos|, RefIds(src.info);
    var p, o := NextSlot(k, src, ids, d, b, m);
    assert i in Ids(n);
    var om := NewOrigin(k, src, ids, d, i);
    HolderCount(k, t, LooseNew(d, t.info), n, i);
    HolderCount(k, src, {}, ids, o);
    RefCountBound(k, src, {}, ids, o);
    OccupantsReferenced(k, src, ids);
    FewerHolders(k, s, src.fresh', src.info[o].service, o, b);
    FreshNext(s, src.fresh', b, m, p);
    FillStep(k, src, d, b, m, t, i);
  }

  /* ---- The whole stream read ---- */

  ghost function Renamed(src: Tables, nNew: int, n: int): int {
    if n < 0 || n !in src.info then -1 else NewId(src, nNew, n)
  }

  /** An entry after a round trip: the same persistent data, references and table, statistics reset. */
  ghost function Reloaded(e: AddrInfo, pos: int): AddrInfo {
    OnDisk(e).(nRefCount := e.nRefCount, fInTried := e.fInTried, nRandomPos := pos)
  }

  /** `t` is `src` with every id renumbered and nothing lost. */
  ghost predicate Restored(src: Tables, nNew: int, t: Tables) {
    && (forall n: nat | n in src.info ::
          NewId(src, nNew, n) in t.info && t.info[NewId(src, nNew, n)] == Reloaded(src.info[n], NewId(src, nNew, n)))
    && (forall m: nat, n: nat | m in src.info && n in src.info && NewId(src, nNew, m) == NewId(src, nNew, n) :: m == n)
    && |t.info| == |src.info|
    && t.addrs.Keys == src.addrs.Keys && (forall a | a in src.addrs :: t.addrs[a] == Renamed(src, nNew, src.addrs[a]))
    && SameSlots(src, nNew, src.tried, t.tried, TRIED_BUCKET_COUNT)
    && SameSlots(src, nNew, src.fresh', t.fresh', NEW_BUCKET_COUNT)
  }

  ghost predicate SameSlots(src: Tables, nNew: int, a: Table, b: Table, n: nat) {
    Shaped(a, n) && Shaped(b, n)
    && forall c, q | 0 <= c < n && 0 <= q < BUCKET_SIZE :: b[c][q] == Renamed(src, nNew, a[c][q])
  }

  lemma SameHolders(k: Buckets, s: set<int>, f: Table, v: Service, n: nat)
    requires Shaped(f, NEW_BUCKET_COUNT) && n in s
    requires forall c, q | 0 <= c < NEW_BUCKET_COUNT && 0 <= q < BUCKET_SIZE && f[c][q] >= 0 :: f[c][q] in s
    ensures var g := FreshAt(s, f, NEW_BUCKET_COUNT, 0);
            Shaped(g, NEW_BUCKET_COUNT) && Holders(k, v, Rank(s, n), g) == Holders(k, v, n, f)
  {
    var g := FreshAt(s, f, NEW_BUCKET_COUNT, 0);
    forall c: nat | c < NEW_BUCKET_COUNT
      ensures g[c][k.NewPos(v, c)] == Rank(s, n) <==> f[c][k.NewPos(v, c)] == n
    {
      RowFull(s, f[c], k.NewPos(v, c));
      var o := f[c][k.NewPos(v, c)];
      if o >= 0 && Rank(s, o) == Rank(s, n) {
        RankInjective(s, o, n);
      }
    }
  }

  lemma WrittenAt(k: Buckets, src: Tables, ids: nat, d: Disk, n: nat)
    requires Origin(k, src, ids, d) && n in src.info
    ensures src.info[n].nRefCount != 0 ==>
              && n in RefIds(src.info) && Rank(RefIds(src.info), n) < |d.newInfos|
              && d.newInfos[Rank(RefIds(src.info), n)] == OnDisk(src.info[n])
    ensures src.info[n].fInTried ==>
              && Rank(TriedIds(src.info), n) < |d.triedInfos|
              && d.triedInfos[Rank(TriedIds(src.info), n)] == OnDisk(src.info[n])
  {
    LinkedShape(k, src, {}, ids);
  }

  lemma NewEntry(k: Buckets, src: Tables, ids: nat, d: Disk, t: Tables, n: nat)
    requires Origin(k, src, ids, d) && Filled(k, src, d, NEW_BUCKET_COUNT, 0, t) && n in src.info
             && src.info[n].nRefCount != 0
    ensures var i := Rank(RefIds(src.info), n); i < |d.newInfos| && i in t.info && t.info[i] == Reloaded(src.info[n], i)
  {
    hide Linked, Written, FreshAt, NewIds, TriedIds, RefIds;
    WrittenAt(k, src, ids, d, n);
    var s, i, total := RefIds(src.info), Rank(RefIds(src.info), n), |d.newInfos| + |d.triedInfos|;
    assert i in Ids(total);
    Referenced(k, src, {}, ids, n);
    RefCountBound(k, src, {}, ids, n);
    HolderCount(k, src, {}, ids, n);
    HolderCount(k, t, LooseNew(d, t.info), total, i);
    OccupantsReferenced(k, src, ids);
    SameHolders(k, s, src.fresh', src.info[n].service, n);
  }

  lemma TriedEntry(k: Buckets, src: Tables, ids: nat, d: Disk, t: Tables, n: nat)
    requires Origin(k, src, ids, d) && Filled(k, src, d, NEW_BUCKET_COUNT, 0, t) && n in src.info
             && src.info[n].fInTried
    ensures var i := |d.newInfos| + Rank(TriedIds(src.info), n);
            i < |d.newInfos| + |d.triedInfos| && i in t.info && t.info[i] == Reloaded(src.info[n], i)
  {
    hide Linked, Written, FreshAt, NewIds, TriedIds, RefIds;
    WrittenAt(k, src, ids, d, n);
    var j, total := Rank(TriedIds(src.info), n), |d.newInfos| + |d.triedInfos|;
    var i := |d.newInfos| + j;
    assert i in Ids(total);
    RefCountBound(k, src, {}, ids, n);
    Referenced(k, src, {}, ids, n);
    assert i !in LooseNew(d, t.info);
    RefCountBound(k, t, LooseNew(d, t.info), total, i);
    Referenced(k, t, LooseNew(d, t.info), total, i);
  }

  lemma AllEntries(k: Buckets, src: Tables, ids: nat, d: Disk, t: Tables, n: nat)
    requires Origin(k, src, ids, d) && Filled(k, src, d, NEW_BUCKET_COUNT, 0, t) && n in src.info
    ensures var i := NewId(src, |d.newInfos|, n); 0 <= i && i in t.info && t.info[i] == Reloaded(src.info[n], i)
  {
    hide Linked, Filled, Written;
    Referenced(k, src, {}, ids, n);
    RefCountBound(k, src, {}, ids, n);
    if src.info[n].nRefCount != 0 {
      NewEntry(k, src, ids, d, t, n);
    } else {
      TriedEntry(k, src, ids, d, t, n);
    }
  }

  lemma NewIdsDistinct(k: Buckets, src: Tables, ids: nat, d: Disk, m: nat, n: nat)
    requires Origin(k, src, ids, d) && m in src.info && n in src.info
    requires NewId(src, |d.newInfos|, m) == NewId(src, |d.newInfos|, n)
    ensures m == n
  {
    LinkedShape(k, src, {}, ids);
    Referenced(k, src, {}, ids, n);
    Referenced(k, src, {}, ids, m);
    RefCountBound(k, src, {}, ids, n);
    RefCountBound(k, src, {}, ids, m);
    if src.info[m].nRefCount != 0 && src.info[n].nRefCount != 0 {
      RankInjective(RefIds(src.info), m, n);
    } else if src.info[m].nRefCount == 0 && src.info[n].nRefCount == 0 {
      RankInjective(TriedIds(src.info), m, n);
    }
  }

  /** Every restored entry has a source. */
  lemma EntryOrigin(k: Buckets, src: Tables, ids: nat, d: Disk, i: nat) returns (n: nat)
    requires Origin(k, src, ids, d) && i < |d.newInfos| + |d.triedInfos|
    ensures n in src.info && NewId(src, |d.newInfos|, n) == i
  {
    hide Linked, Written;
    if i < |d.newInfos| {
      n := NewOrigin(k, src, ids, d, i);
    } else {
      n := TriedOrigin(k, src, ids, d, i - |d.newInfos|);
    }
  }

  lemma SlotOfTried(k: Buckets, t: Tables, loose: set<int>, nIdCount: int, n: int)
    requires Linked(k, t, loose, nIdCount) && n in t.info && t.info[n].fInTried
    ensures Shaped(t.tried, TRIED_BUCKET_COUNT) && 0 <= n
    ensures t.tried[k.Tried(t.info[n].service)][k.TriedPos(t.info[n].service)] == n
  {
  }

  lemma TriedSlots(k: Buckets, src: Tables, ids: nat, d: Disk, t: Tables)
    requires Origin(k, src, ids, d) && Filled(k, src, d, NEW_BUCKET_COUNT, 0, t)
    ensures SameSlots(src, |d.newInfos|, src.tried, t.tried, TRIED_BUCKET_COUNT)
  {
    hide Linked, Written, FreshAt, NewIds, TriedIds, RefIds, NewId, Reloaded;
    var total, l := |d.newInfos| + |d.triedInfos|, LooseNew(d, t.info);
    LinkedShape(k, src, {}, ids);
    LinkedShape(k, t, l, total);
    forall b, p | 0 <= b < TRIED_BUCKET_COUNT && 0 <= p < BUCKET_SIZE
      ensures t.tried[b][p] == Renamed(src, |d.newInfos|, src.tried[b][p])
    {
      TriedSlotSame(k, src, ids, d, t, b, p);
    }
  }

  lemma TriedSlotSame(k: Buckets, src: Tables, ids: nat, d: Disk, t: Tables, b: nat, p: nat)
    requires Origin(k, src, ids, d) && Filled(k, src, d, NEW_BUCKET_COUNT, 0, t)
    requires Shaped(src.tried, TRIED_BUCKET_COUNT) && Shaped(t.tried, TRIED_BUCKET_COUNT)
    requires b < TRIED_BUCKET_COUNT && p < BUCKET_SIZE
    ensures t.tried[b][p] == Renamed(src, |d.newInfos|, src.tried[b][p])
  {
    hide Linked, Written, FreshAt, NewIds, TriedIds, RefIds, NewId;
    var total, l := |d.newInfos| + |d.triedInfos|, LooseNew(d, t.info);
    if src.tried[b][p] != -1 {
      OccupantTried(k, src, {}, ids, b, p);
      var o := src.tried[b][p];
      SlotOfTried(k, src, {}, ids, o);
      AllEntries(k, src, ids, d, t, o);
      SlotOfTried(k, t, l, total, NewId(src, |d.newInfos|, o));
    } else if t.tried[b][p] != -1 {
      OccupantTried(k, t, l, total, b, p);
      var i := t.tried[b][p];
      assert i in Ids(total);
      var o := EntryOrigin(k, src, ids, d, i);
      AllEntries(k, src, ids, d, t, o);
      SlotOfTried(k, src, {}, ids, o);
      assert false;
    }
  }

  lemma NewSlots(k: Buckets, src: Tables, ids: nat, d: Disk, t: Tables)
    requires Origin(k, src, ids, d) && Filled(k, src, d, NEW_BUCKET_COUNT, 0, t)
    ensures SameSlots(src, |d.newInfos|, src.fresh', t.fresh', NEW_BUCKET_COUNT)
  {
    hide Linked, Written, NewIds, TriedIds, RefIds, Reloaded, Info, Ids;
    var s := RefIds(src.info);
    LinkedShape(k, src, {}, ids);
    forall b: nat, p: nat | b < NEW_BUCKET_COUNT && p < BUCKET_SIZE
      ensures t.fresh'[b][p] == Renamed(src, |d.newInfos|, src.fresh'[b][p])
    {
      RowFull(s, src.fresh'[b], p);
      if src.fresh'[b][p] != -1 {
        OccupantNew(k, src, {}, ids, b, p);
      }
    }
  }

  lemma Addresses(k: Buckets, src: Tables, ids: nat, d: Disk, t: Tables)
    requires Origin(k, src, ids, d) && Filled(k, src, d, NEW_BUCKET_COUNT, 0, t)
    ensures t.addrs.Keys == src.addrs.Keys
            && forall a | a in src.addrs :: t.addrs[a] == Renamed(src, |d.newInfos|, src.addrs[a])
  {
    hide Linked, Written, FreshAt, NewIds, TriedIds, RefIds, NewId;
    var total, l := |d.newInfos| + |d.triedInfos|, LooseNew(d, t.info);
    LinkedShape(k, src, {}, ids);
    forall a | a in src.addrs
      ensures a in t.addrs && t.addrs[a] == Renamed(src, |d.newInfos|, src.addrs[a])
    {
      AddrOf(k, src, {}, ids, a);
      var n := src.addrs[a];
      AllEntries(k, src, ids, d, t, n);
      LinkedAddr(k, t, l, total, NewId(src, |d.newInfos|, n));
    }
    forall a | a in t.addrs
      ensures a in src.addrs
    {
      AddrOf(k, t, l, total, a);
      var i := t.addrs[a];
      assert i in Ids(total);
      var o := EntryOrigin(k, src, ids, d, i);
      AllEntries(k, src, ids, d, t, o);
      LinkedAddr(k, src, {}, ids, o);
    }
  }

  lemma AddrOf(k: Buckets, t: Tables, loose: set<int>, nIdCount: int, a: NetAddr)
    requires Linked(k, t, loose, nIdCount) && a in t.addrs
    ensures t.addrs[a] in t.info && t.info[t.addrs[a]].service.addr == a && 0 <= t.addrs[a]
  {
  }

  /** Times read back are as sensible as those written. */
  lemma FilledTimes(k: Buckets, src: Tables, ids: nat, d: Disk, t: Tables)
    requires Origin(k, src, ids, d) && Filled(k, src, d, NEW_BUCKET_COUNT, 0, t)
    ensures TimesOk(src.info) ==> TimesOk(t.info)
  {
    hide Origin, Linked, FreshAt, NewIds, TriedIds, RefIds, Rank;
    if TimesOk(src.info) {
      forall i | i in t.info
        ensures TimeOk(t.info[i])
      {
        assert i in Ids(|d.newInfos| + |d.triedInfos|);
        if i < |d.newInfos| {
          var m := NewOrigin(k, src, ids, d, i);
        } else {
          var m := TriedOrigin(k, src, ids, d, i - |d.newInfos|);
        }
      }
    }
  }

  /** The stream read to its end restores the tables it was written from, up to renumbering. */
  lemma RoundTrip(k: Buckets, src: Tables, ids: nat, d: Disk, t: Tables)
    requires Origin(k, src, ids, d) && Filled(k, src, d, NEW_BUCKET_COUNT, 0, t)
    ensures Restored(src, |d.newInfos|, t)
    ensures LooseNew(d, t.info) == {}
  {
    hide Linked, Written, FreshAt, NewIds, TriedIds, RefIds, NewId, SameSlots;
    forall n: nat | n in src.info
      ensures var i := NewId(src, |d.newInfos|, n); 0 <= i && i in t.info && t.info[i] == Reloaded(src.info[n], i)
    {
      AllEntries(k, src, ids, d, t, n);
    }
    forall m: nat, n: nat | m in src.info && n in src.info && NewId(src, |d.newInfos|, m) == NewId(src, |d.newInfos|, n)
      ensures m == n
    {
      NewIdsDistinct(k, src, ids, d, m, n);
    }
    TriedSlots(k, src, ids, d, t);
    NewSlots(k, src, ids, d, t);
    Addresses(k, src, ids, d, t);
    SameCount(k, src, ids, d, t);
    forall i | i in LooseNew(d, t.info)
      ensures false
    {
      var o := NewOrigin(k, src, ids, d, i);
      NewEntry(k, src, ids, d, t, o);
      RefCountBound(k, src, {}, ids, o);
    }
  }

  lemma SameCount(k: Buckets, src: Tables, ids: nat, d: Disk, t: Tables)
    requires Origin(k, src, ids, d) && Filled(k, src, d, NEW_BUCKET_COUNT, 0, t)
    ensures |t.info| == |src.info|
  {
    SplitIds(t.info);
    SplitIds(src.info);
    CountReferenced(k, src, ids);
  }

  /* ---- The size limits of Unserialize ---- */

  ghost function RowIds(row: seq<int>): set<int> { set i | i in row }

  lemma {:induction false} RowSize(row: seq<int>)
    ensures |RowIds(row)| <= |row|
    decreases |row|
  {
    if row == [] {
      assert RowIds(row) == {};
    } else {
      RowSize(row[1..]);
      assert RowIds(row) == {row[0]} + RowIds(row[1..]);
    }
  }

  ghost function Occupants(t: Table, b: nat): set<int>
    requires b <= |t|
  {
    if b == 0 then {} else Occupants(t, b - 1) + RowIds(t[b - 1])
  }

  lemma {:induction false} OccupantsSize(t: Table, n: nat, b: nat)
    requires Shaped(t, n) && b <= n
    ensures |Occupants(t, b)| <= b * BUCKET_SIZE
    decreases b
  {
    hide RowIds;
    if b > 0 {
      OccupantsSize(t, n, b - 1);
      RowSize(t[b - 1]);
      UnionSize(Occupants(t, b - 1), RowIds(t[b - 1]));
    }
  }

  lemma UnionSize(a: set<int>, r: set<int>)
    ensures |a + r| <= |a| + |r|
  {
    assert a + r == a + (r - a);
    SubsetSize(r - a, r);
  }

  lemma {:induction false} OccupantsAll(t: Table, n: nat, b: nat)
    requires Shaped(t, n) && b <= n
    ensures forall c, q | 0 <= c < b && 0 <= q < BUCKET_SIZE :: t[c][q] in Occupants(t, b)
    decreases b
  {
    if b > 0 {
      OccupantsAll(t, n, b - 1);
    }
  }

  lemma NewWithinLimit(k: Buckets, src: Tables, ids: nat)
    requires Linked(k, src, {}, ids)
    ensures |NewIds(src.info)| <= NEW_BUCKET_COUNT * BUCKET_SIZE
  {
    hide Linked, Occupants;
    LinkedShape(k, src, {}, ids);
    OccupantsSize(src.fresh', NEW_BUCKET_COUNT, NEW_BUCKET_COUNT);
    OccupantsAll(src.fresh', NEW_BUCKET_COUNT, NEW_BUCKET_COUNT);
    var all := Occupants(src.fresh', NEW_BUCKET_COUNT);
    forall n | n in NewIds(src.info)
      ensures n in all
    {
      Referenced(k, src, {}, ids, n);
      if n !in all {
        Unheld(k, src, {}, ids, n);
        assert false;
      }
    }
    SubsetSize(NewIds(src.info), all);
  }

  lemma TriedWithinLimit(k: Buckets, src: Tables, ids: nat)
    requires Linked(k, src, {}, ids)
    ensures |TriedIds(src.info)| <= TRIED_BUCKET_COUNT * BUCKET_SIZE
  {
    hide Linked, Occupants;
    LinkedShape(k, src, {}, ids);
    OccupantsSize(src.tried, TRIED_BUCKET_COUNT, TRIED_BUCKET_COUNT);
    OccupantsAll(src.tried, TRIED_BUCKET_COUNT, TRIED_BUCKET_COUNT);
    var all := Occupants(src.tried, TRIED_BUCKET_COUNT);
    forall n | n in TriedIds(src.info)
      ensures n in all
    {
      SlotOfTried(k, src, {}, ids, n);
    }
    SubsetSize(TriedIds(src.info), all);
  }

  /** Unserialize's size limits never reject what Serialize wrote. */
  lemma WithinLimits(k: Buckets, src: Tables, ids: nat, d: Disk)
    requires Origin(k, src, ids, d)
    ensures d.nNew <= NEW_BUCKET_COUNT * BUCKET_SIZE && d.nTried <= TRIED_BUCKET_COUNT * BUCKET_SIZE
  {
    hide Linked, NewIds, TriedIds;
    CountReferenced(k, src, ids);
    NewWithinLimit(k, src, ids);
    TriedWithinLimit(k, src, ids);
  }
}
