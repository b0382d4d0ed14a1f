/** What CAddrMan::Unserialize (src/addrman.h) makes of any stream it accepts: every structure but mapAddr ends up
    linked, and mapAddr too exactly if no entry that stays shares its address with another entry read. */
module AddrManRead {
  import opened AddrManTables
  import opened AddrManStream

  /** Every address known leads to an entry for it. */
  ghost predicate AddrBack(info: Infos, addrs: map<NetAddr, int>) {
    forall a | a in addrs :: addrs[a] in info && info[addrs[a]].service.addr == a
  }

  /** Every entry's address is known, if not always by that entry. */
  ghost predicate AddrAll(info: Infos, addrs: map<NetAddr, int>) {
    forall n | n in info :: info[n].service.addr in addrs
  }

  /** New entries without references, which are to be pruned. */
  ghost function Unreferenced(info: Infos): set<int> {
    set n | n in info && !info[n].fInTried && info[n].nRefCount == 0
  }

  ghost predicate Half(k: Buckets, t: Tables, ids: int) {
    && RandomLinked(t.info, t.random) && TriedLinked(k, t.info, t.tried) && NewLinked(k, t.info, t.fresh')
    && InfoOk(t.info, Unreferenced(t.info), ids) && AddrBack(t.info, t.addrs)
  }

  lemma HalfNone(k: Buckets)
    ensures Half(k, Tables(map[], map[], [], Empty(TRIED_BUCKET_COUNT), Empty(NEW_BUCKET_COUNT)), 0)
  {
  }

  /** One more new entry, in no table yet. */
  lemma HalfNew(k: Buckets, t: Tables, n: nat, e: AddrInfo)
    requires Half(k, t, n) && !e.fInTried && e.nRefCount == 0 && e.nRandomPos == |t.random|
    ensures n !in t.info
    ensures Half(k, t.(info := t.info[n := e], addrs := t.addrs[e.service.addr := n], random := t.random + [n]), n + 1)
  {
    AddUnreferenced(k, t.info, t.fresh', n, e);
    hide NewLinked, TriedLinked;
    HalfNewRest(k, t, n, e);
  }

  lemma HalfNewRest(k: Buckets, t: Tables, n: nat, e: AddrInfo)
    requires Half(k, t, n) && !e.fInTried && e.nRefCount == 0 && e.nRandomPos == |t.random|
    ensures var t' := t.(info := t.info[n := e], addrs := t.addrs[e.service.addr := n], random := t.random + [n]);
            && RandomLinked(t'.info, t'.random) && TriedLinked(k, t'.info, t'.tried)
            && InfoOk(t'.info, Unreferenced(t'.info), n + 1) && AddrBack(t'.info, t'.addrs)
  {
    hide NewLinked;
  }

  /** A new entry takes a free slot. */
  lemma HalfPlace(k: Buckets, t: Tables, ids: int, n: int, b: nat)
    requires Half(k, t, ids) && n in t.info && !t.info[n].fInTried && t.info[n].nRefCount < NEW_BUCKETS_PER_ADDRESS
    requires b < NEW_BUCKET_COUNT && t.fresh'[b][k.NewPos(t.info[n].service, b)] == -1
    ensures Half(k, t.(info := t.info[n := t.info[n].(nRefCount := t.info[n].nRefCount + 1)],
                       fresh' := Put(t.fresh', b, k.NewPos(t.info[n].service, b), n)), ids)
  {
    TakeSlot(k, t.info, t.fresh', n, b);
    hide Put, Holders;
  }

  /** One more tried entry, in its own slot. */
  lemma HalfTried(k: Buckets, t: Tables, n: nat, e: AddrInfo)
    requires Half(k, t, n) && e.fInTried && e.nRefCount == 0 && e.nRandomPos == |t.random|
    requires t.tried[k.Tried(e.service)][k.TriedPos(e.service)] == -1
    ensures n !in t.info
    ensures Half(k, t.(info := t.info[n := e], addrs := t.addrs[e.service.addr := n], random := t.random + [n],
                       tried := Put(t.tried, k.Tried(e.service), k.TriedPos(e.service), n)), n + 1)
  {
    AddUnreferenced(k, t.info, t.fresh', n, e);
    hide NewLinked;
    TriedOneMore(k, t.info, t.tried, n, e);
    hide TriedLinked;
  }

  lemma TriedOneMore(k: Buckets, info: Infos, t: Table, n: nat, e: AddrInfo)
    requires TriedLinked(k, info, t) && n !in info && e.fInTried
    requires t[k.Tried(e.service)][k.TriedPos(e.service)] == -1 && forall m | m in info :: m != -1
    ensures TriedLinked(k, info[n := e], Put(t, k.Tried(e.service), k.TriedPos(e.service), n))
  {
  }

  /** An entry without references goes, with its address. */
  lemma HalfDrop(k: Buckets, t: Tables, ids: int, n: int, t': Tables)
    requires Half(k, t, ids) && n in Unreferenced(t.info)
    requires RandomLinked(t'.info, t'.random) && Forget(t'.info) == Forget(t.info) - {n}
    requires t'.addrs == t.addrs - {t.info[n].service.addr} && t'.tried == t.tried && t'.fresh' == t.fresh'
    ensures Half(k, t', ids) && Unreferenced(t'.info) == Unreferenced(t.info) - {n}
  {
    hide Forget;
    ForgetRest(t.info, t'.info, n);
    hide NewLinked, TriedLinked, RandomLinked;
    DropTables(k, t.info, n, t'.info, t.tried, t.fresh');
    DropLinks(t, ids, n, t');
  }

  lemma DropTables(k: Buckets, info: Infos, n: int, info': Infos, tried: Table, fresh': Table)
    requires TriedLinked(k, info, tried) && NewLinked(k, info, fresh') && n in Unreferenced(info)
    requires info'.Keys == info.Keys - {n}
    requires forall m | m in info' :: m in info && info'[m].(nRandomPos := 0) == info[m].(nRandomPos := 0)
    ensures TriedLinked(k, info', tried) && NewLinked(k, info', fresh')
  {
    DropUnreferenced(k, info, fresh', n);
    TriedDrop(k, info, tried, n);
    SameBut(k, info - {n}, info', tried, fresh');
  }

  lemma TriedDrop(k: Buckets, info: Infos, t: Table, n: int)
    requires TriedLinked(k, info, t) && n in info && !info[n].fInTried
    ensures TriedLinked(k, info - {n}, t)
  {
  }

  lemma DropLinks(t: Tables, ids: int, n: int, t': Tables)
    requires InfoOk(t.info, Unreferenced(t.info), ids) && AddrBack(t.info, t.addrs) && n in Unreferenced(t.info)
    requires t'.info.Keys == t.info.Keys - {n} && t'.addrs == t.addrs - {t.info[n].service.addr}
    requires forall m | m in t'.info :: m in t.info && t'.info[m].(nRandomPos := 0) == t.info[m].(nRandomPos := 0)
    ensures InfoOk(t'.info, Unreferenced(t'.info), ids) && AddrBack(t'.info, t'.addrs)
    ensures Unreferenced(t'.info) == Unreferenced(t.info) - {n}
  {
    forall m | m in t'.info
      ensures m in t.info && SameFields(t'.info[m], t.info[m])
    {
      assert t'.info[m].(nRandomPos := 0) == t.info[m].(nRandomPos := 0);
    }
    forall m | m in t.info && m != n
      ensures m in t'.info
    {
      assert m in t.info.Keys - {n};
    }
    forall a | a in t'.addrs
      ensures t'.addrs[a] in t'.info && t'.info[t'.addrs[a]].service.addr == a
    {
      var o := t.addrs[a];
      assert o in t.info && t.info[o].service.addr == a && o != n;
    }
  }

  predicate SameFields(e: AddrInfo, f: AddrInfo) {
    e.service == f.service && e.fInTried == f.fInTried && e.nRefCount == f.nRefCount
  }

  lemma ForgetRest(info: Infos, info': Infos, n: int)
    requires n in info && Forget(info') == Forget(info) - {n}
    ensures info'.Keys == info.Keys - {n}
    ensures forall m | m in info' :: m in info && info'[m].(nRandomPos := 0) == info[m].(nRandomPos := 0)
  {
    assert info'.Keys == Forget(info').Keys && info.Keys == Forget(info).Keys;
    forall m | m in info'
      ensures m in info && info'[m].(nRandomPos := 0) == info[m].(nRandomPos := 0)
    {
      assert Forget(info')[m] == Forget(info)[m];
    }
  }

  /** The tables do not look at positions in vRandom. */
  lemma SameBut(k: Buckets, info: Infos, info': Infos, tried: Table, fresh': Table)
    requires info'.Keys == info.Keys && forall m | m in info' :: info'[m].(nRandomPos := 0) == info[m].(nRandomPos := 0)
    ensures NewLinked(k, info, fresh') ==> NewLinked(k, info', fresh')
    ensures TriedLinked(k, info, tried) ==> TriedLinked(k, info', tried)
  {
    hide Holders;
  }

  /* ---- Addresses ---- */

  /** No entry that stays shares its address with another. */
  ghost predicate Unshared(info: Infos) {
    forall n, m | n in info && m in info && n !in Unreferenced(info) && m != n ::
      info[n].service.addr != info[m].service.addr
  }

  ghost function AddrsOf(info: Infos, ids: set<int>): set<NetAddr> {
    set n | n in ids && n in info :: info[n].service.addr
  }

  /** The tables after some of the unreferenced entries have gone. */
  ghost predicate Pruned(read: Tables, gone: set<int>, t: Tables) {
    && gone <= Unreferenced(read.info)
    && t.info.Keys == read.info.Keys - gone
    && (forall n | n in t.info :: t.info[n].(nRandomPos := 0) == read.info[n].(nRandomPos := 0))
    && t.addrs == read.addrs - AddrsOf(read.info, gone)
  }

  lemma PrunedNone(read: Tables)
    ensures Pruned(read, {}, read)
  {
    assert AddrsOf(read.info, {}) == {};
    assert read.addrs - {} == read.addrs;
  }

  lemma PrunedMore(read: Tables, gone: set<int>, t: Tables, n: int, t': Tables)
    requires Pruned(read, gone, t) && n in Unreferenced(t.info)
    requires Forget(t'.info) == Forget(t.info) - {n} && t'.addrs == t.addrs - {t.info[n].service.addr}
    ensures Pruned(read, gone + {n}, t')
  {
    hide Forget;
    ForgetRest(t.info, t'.info, n);
    AddrsMore(read.info, gone, n);
    assert t.info[n].service == read.info[n].service;
    assert t'.addrs == read.addrs - AddrsOf(read.info, gone + {n});
  }

  lemma AddrsMore(info: Infos, gone: set<int>, n: int)
    requires n in info
    ensures AddrsOf(info, gone + {n}) == AddrsOf(info, gone) + {info[n].service.addr}
  {
  }

  /** After pruning mapAddr is right exactly if no entry that stays shares its address with another entry read. */
  lemma PrunedAddrs(read: Tables, t: Tables)
    requires Pruned(read, Unreferenced(read.info), t)
    requires AddrBack(read.info, read.addrs) && AddrAll(read.info, read.addrs)
    requires AddrBack(t.info, t.addrs)
    ensures AddrLinked(t.info, t.addrs) <==> Unshared(read.info)
  {
    if AddrLinked(t.info, t.addrs) {
      LinkedUnshared(read, t);
    }
    if Unshared(read.info) {
      UnsharedLinked(read, t);
    }
  }

  lemma LinkedUnshared(read: Tables, t: Tables)
    requires Pruned(read, Unreferenced(read.info), t) && AddrLinked(t.info, t.addrs)
    ensures Unshared(read.info)
  {
    var gone := Unreferenced(read.info);
    forall n, m | n in read.info && m in read.info && n !in gone && m != n
      ensures read.info[n].service.addr != read.info[m].service.addr
    {
      var a := read.info[n].service.addr;
      assert t.info[n].service.addr == a && t.addrs[a] == n;
      if m in gone {
        assert read.info[m].service.addr in AddrsOf(read.info, gone);
      } else {
        assert t.info[m].service.addr == read.info[m].service.addr && t.addrs[read.info[m].service.addr] == m;
      }
    }
  }

  lemma UnsharedLinked(read: Tables, t: Tables)
    requires Pruned(read, Unreferenced(read.info), t)
    requires AddrBack(read.info, read.addrs) && AddrAll(read.info, read.addrs)
    requires AddrBack(t.info, t.addrs) && Unshared(read.info)
    ensures AddrLinked(t.info, t.addrs)
  {
    var gone := Unreferenced(read.info);
    forall n | n in t.info
      ensures t.info[n].service.addr in t.addrs && t.addrs[t.info[n].service.addr] == n
    {
      var a := read.info[n].service.addr;
      assert a == t.info[n].service.addr && a in read.addrs;
      var o := read.addrs[a];
      assert o in read.info && read.info[o].service.addr == a;
      assert a !in AddrsOf(read.info, gone);
    }
  }

  /* ---- The stream's own addresses ---- */

  /** The entries of a stream in the order they are read. */
  ghost function Entries(d: Disk): seq<AddrInfo>
    requires 0 <= d.nNew <= |d.newInfos| && 0 <= d.nTried <= |d.triedInfos|
  {
    d.newInfos[..d.nNew] + d.triedInfos[..d.nTried]
  }

  ghost predicate DistinctEntries(q: seq<AddrInfo>) {
    forall i, j | 0 <= i < j < |q| :: q[i].service.addr != q[j].service.addr
  }

  ghost predicate AllDifferent(info: Infos) {
    forall n, m | n in info && m in info && m != n :: info[n].service.addr != info[m].service.addr
  }

  /** The entries have addresses of `q`, and no two the same one if `q` has it only once. */
  ghost predicate Reads(q: seq<AddrInfo>, info: Infos) {
    && (forall n | n in info :: exists i | 0 <= i < |q| :: q[i].service.addr == info[n].service.addr)
    && (DistinctEntries(q) ==> AllDifferent(info))
  }

  lemma ReadsSkip(q: seq<AddrInfo>, x: AddrInfo, info: Infos)
    requires Reads(q, info)
    ensures Reads(q + [x], info)
  {
    var q' := q + [x];
    if DistinctEntries(q') {
      DistinctPrefix(q, x);
    }
    forall n | n in info
      ensures exists i | 0 <= i < |q'| :: q'[i].service.addr == info[n].service.addr
    {
      var i :| 0 <= i < |q| && q[i].service.addr == info[n].service.addr;
      assert q'[i] == q[i];
    }
  }

  lemma DistinctPrefix(q: seq<AddrInfo>, x: AddrInfo)
    requires DistinctEntries(q + [x])
    ensures DistinctEntries(q) && forall i | 0 <= i < |q| :: q[i].service.addr != x.service.addr
  {
    var q' := q + [x];
    forall i | 0 <= i < |q|
      ensures q[i].service.addr != x.service.addr
    {
      assert q'[i] == q[i] && q'[|q|] == x;
    }
    forall i, j | 0 <= i < j < |q|
      ensures q[i].service.addr != q[j].service.addr
    {
      assert q'[i] == q[i] && q'[j] == q[j];
    }
  }

  lemma ReadsMore(q: seq<AddrInfo>, x: AddrInfo, info: Infos, n: int, e: AddrInfo)
    requires Reads(q, info) && n !in info && e.service.addr == x.service.addr
    ensures Reads(q + [x], info[n := e])
  {
    var q', info' := q + [x], info[n := e];
    ReadsSkip(q, x, info);
    assert q'[|q|] == x;
    if DistinctEntries(q') {
      DistinctPrefix(q, x);
      forall m | m in info
        ensures info[m].service.addr != e.service.addr
      {
        var i :| 0 <= i < |q| && q[i].service.addr == info[m].service.addr;
      }
    }
  }

  lemma ReadsSame(q: seq<AddrInfo>, info: Infos, n: int, e: AddrInfo)
    requires Reads(q, info) && n in info && e.service == info[n].service
    ensures Reads(q, info[n := e])
  {
    var info' := info[n := e];
    forall m | m in info'
      ensures exists i | 0 <= i < |q| :: q[i].service.addr == info'[m].service.addr
    {
      assert info'[m].service == info[m].service;
    }
  }

  lemma DifferentUnshared(info: Infos)
    requires AllDifferent(info)
    ensures Unshared(info)
  {
  }

  /* ---- Reading, step by step ---- */

  /** The tables after the entries `q`, with ids below `ids`, of which nNew are new and nTried are tried. */
  ghost predicate Sound(k: Buckets, t: Tables, ids: int, q: seq<AddrInfo>, nNew: int, nTried: int) {
    && Half(k, t, ids) && AddrAll(t.info, t.addrs) && Reads(q, t.info)
    && |NewIds(t.info)| == nNew && |TriedIds(t.info)| == nTried
  }

  lemma SoundNone(k: Buckets)
    ensures Sound(k, Tables(map[], map[], [], Empty(TRIED_BUCKET_COUNT), Empty(NEW_BUCKET_COUNT)), 0, [], 0, 0)
  {
    hide Empty;
    HalfNone(k);
  }

  lemma SoundNew(k: Buckets, t: Tables, n: nat, q: seq<AddrInfo>, x: AddrInfo, e: AddrInfo, nNew: int, nTried: int)
    requires Sound(k, t, n, q, nNew, nTried) && e.service == x.service
    requires !e.fInTried && e.nRefCount == 0 && e.nRandomPos == |t.random|
    ensures n !in t.info
    ensures Sound(k, t.(info := t.info[n := e], addrs := t.addrs[e.service.addr := n], random := t.random + [n]), n + 1,
                  q + [x], nNew + 1, nTried)
  {
    hide Half, Reads, NewIds, TriedIds;
    HalfNew(k, t, n, e);
    ReadsMore(q, x, t.info, n, e);
    OneMoreNew(t.info, n, e);
  }

  lemma SoundPlace(k: Buckets, t: Tables, ids: int, q: seq<AddrInfo>, nNew: int, nTried: int, n: int, b: nat)
    requires Sound(k, t, ids, q, nNew, nTried) && n in t.info && !t.info[n].fInTried
    requires t.info[n].nRefCount < NEW_BUCKETS_PER_ADDRESS && b < NEW_BUCKET_COUNT
    requires Shaped(t.fresh', NEW_BUCKET_COUNT) && t.fresh'[b][k.NewPos(t.info[n].service, b)] == -1
    ensures Sound(k, t.(info := t.info[n := t.info[n].(nRefCount := t.info[n].nRefCount + 1)],
                        fresh' := Put(t.fresh', b, k.NewPos(t.info[n].service, b), n)), ids, q, nNew, nTried)
  {
    hide Half, Reads, NewIds, TriedIds;
    HalfPlace(k, t, ids, n, b);
    ReadsSame(q, t.info, n, t.info[n].(nRefCount := t.info[n].nRefCount + 1));
    SameStatus(t.info, n, t.info[n].(nRefCount := t.info[n].nRefCount + 1));
  }

  lemma SoundTried(k: Buckets, t: Tables, n: nat, q: seq<AddrInfo>, x: AddrInfo, e: AddrInfo, nNew: int, nTried: int)
    requires Sound(k, t, n, q, nNew, nTried) && e.service == x.service
    requires e.fInTried && e.nRefCount == 0 && e.nRandomPos == |t.random|
    requires Shaped(t.tried, TRIED_BUCKET_COUNT) && t.tried[k.Tried(e.service)][k.TriedPos(e.service)] == -1
    ensures n !in t.info
    ensures Sound(k, t.(info := t.info[n := e], addrs := t.addrs[e.service.addr := n], random := t.random + [n],
                        tried := Put(t.tried, k.Tried(e.service), k.TriedPos(e.service), n)), n + 1,
                  q + [x], nNew, nTried + 1)
  {
    hide Half, Reads, NewIds, TriedIds;
    HalfTried(k, t, n, e);
    ReadsMore(q, x, t.info, n, e);
    OneMoreTried(t.info, n, e);
  }

  lemma SoundSkip(k: Buckets, t: Tables, ids: int, q: seq<AddrInfo>, x: AddrInfo, nNew: int, nTried: int)
    requires Sound(k, t, ids, q, nNew, nTried)
    ensures Sound(k, t, ids, q + [x], nNew, nTried)
  {
    hide Half, Reads, NewIds, TriedIds;
    ReadsSkip(q, x, t.info);
  }

  lemma SoundShape(k: Buckets, t: Tables, ids: int, q: seq<AddrInfo>, nNew: int, nTried: int)
    requires Sound(k, t, ids, q, nNew, nTried)
    ensures RandomLinked(t.info, t.random) && Shaped(t.tried, TRIED_BUCKET_COUNT) && Shaped(t.fresh', NEW_BUCKET_COUNT)
    ensures forall n | n in t.info :: 0 <= n < ids && t.info[n].nRefCount <= NEW_BUCKETS_PER_ADDRESS
  {
  }

  /** The first entries are the new ones. */
  ghost predicate NewFirst(info: Infos, nNew: int) {
    forall i | 0 <= i < nNew :: i in info && !info[i].fInTried
  }

  lemma DropCounts(info: Infos, n: int, info': Infos)
    requires n in Unreferenced(info) && Forget(info') == Forget(info) - {n}
    ensures |NewIds(info')| == |NewIds(info)| - 1 && TriedIds(info') == TriedIds(info)
    ensures Unreferenced(info') == Unreferenced(info) - {n}
  {
    hide Forget;
    ForgetRest(info, info', n);
    forall m | m in info'
      ensures m in info && SameFields(info'[m], info[m])
    {
      assert info'[m].(nRandomPos := 0) == info[m].(nRandomPos := 0);
    }
    assert forall m | m in info && m != n :: m in info.Keys - {n};
    assert NewIds(info') == NewIds(info) - {n};
  }

  /** With nothing unreferenced left, what is missing to full consistency is mapAddr. */
  lemma HalfLinked(k: Buckets, t: Tables, ids: int)
    requires Half(k, t, ids) && Unreferenced(t.info) == {}
    ensures Linked(k, t, {}, ids) <==> AddrLinked(t.info, t.addrs)
  {
  }

  lemma NothingLeft(read: Tables, t: Tables)
    requires Pruned(read, Unreferenced(read.info), t)
    ensures Unreferenced(t.info) == {}
  {
    forall n | n in t.info
      ensures n !in Unreferenced(t.info)
    {
      assert n !in Unreferenced(read.info) && t.info[n].(nRandomPos := 0) == read.info[n].(nRandomPos := 0);
    }
  }

  /** What reading a stream to its end leaves, in all: consistent exactly if no entry that stays shares its address. */
  lemma ReadConsistent(k: Buckets, read: Tables, ids: int, q: seq<AddrInfo>, nNew: int, nTried: int, t: Tables)
    requires Sound(k, read, ids, q, nNew, nTried) && Half(k, t, ids) && Pruned(read, Unreferenced(read.info), t)
    ensures Linked(k, t, {}, ids) <==> Unshared(read.info)
    ensures DistinctEntries(q) ==> Unshared(read.info)
  {
    hide Half, Pruned, Unshared, AddrLinked, Linked, Reads;
    NothingLeft(read, t);
    HalfLinked(k, t, ids);
    HalfBack(k, read, ids);
    HalfBack(k, t, ids);
    PrunedAddrs(read, t);
    if DistinctEntries(q) {
      ReadsDifferent(q, read.info);
      DifferentUnshared(read.info);
    }
  }

  lemma HalfBack(k: Buckets, t: Tables, ids: int)
    requires Half(k, t, ids)
    ensures AddrBack(t.info, t.addrs)
  {
  }

  lemma ReadsDifferent(q: seq<AddrInfo>, info: Infos)
    requires Reads(q, info) && DistinctEntries(q)
    ensures AllDifferent(info)
  {
  }
}
