/** CAddrMan::Serialize and CAddrMan::Unserialize (src/addrman.h). A pass over mapInfo visits ids in
    increasing order; it is written as a pass over 0..nIdCount that skips unknown ids. */
module AddrManSerialize {
  import opened Basics
  import opened AddrManTables
  import opened AddrManStream
  import opened AddrManReload
  import opened AddrManRead
  import opened AddrMan

  method Serialize(m: AddrMan) returns (d: Disk)
    requires m.Consistent()
    ensures Written(m.Keyed(), m.State(), m.nIdCount, d)
    ensures d.nNew == m.nNew && d.nTried == m.nTried
  {
    var newInfos, mapUnkIds := WriteNew(m);
    var triedInfos := WriteTried(m);
    var buckets := WriteBuckets(m, mapUnkIds);
    d := Disk(1, 32, m.nKey, m.nNew, m.nTried, Flip30(NEW_BUCKET_COUNT), newInfos, triedInfos, buckets);
  }

  method WriteNew(m: AddrMan) returns (infos: seq<AddrInfo>, mapUnkIds: map<int, int>)
    requires m.Consistent()
    ensures |infos| == m.nNew && Listed(m.mapInfo, RefIds(m.mapInfo), m.nIdCount, infos)
    ensures forall n: nat | n in m.mapInfo :: n in mapUnkIds && mapUnkIds[n] == Rank(RefIds(m.mapInfo), n)
  {
    hide AddrManTables.Linked, Listed, NewIds, TriedIds;
    ghost var s := RefIds(m.mapInfo);
    CountReferenced(m.Keyed(), m.State(), m.nIdCount);
    LinkedShape(m.Keyed(), m.State(), {}, m.nIdCount);
    infos, mapUnkIds := [], map[];
    ListedNone(m.mapInfo, s);
    var nIds := 0;
    for n := 0 to m.nIdCount
      invariant nIds == |infos| == Rank(s, n) && Listed(m.mapInfo, s, n, infos)
      invariant forall i: nat | i < n && i in m.mapInfo :: i in mapUnkIds && mapUnkIds[i] == Rank(s, i)
    {
      ListedMore(m.mapInfo, s, n, infos);
      if n in m.mapInfo {
        mapUnkIds := mapUnkIds[n := nIds];
        if m.mapInfo[n].nRefCount != 0 {
          RankMonotone(s, n, m.nIdCount);
          assert nIds != m.nNew;
          infos := infos + [OnDisk(m.mapInfo[n])];
          nIds := nIds + 1;
        }
      }
    }
  }

  method WriteTried(m: AddrMan) returns (infos: seq<AddrInfo>)
    requires m.Consistent()
    ensures |infos| == m.nTried && Listed(m.mapInfo, TriedIds(m.mapInfo), m.nIdCount, infos)
  {
    hide AddrManTables.Linked, Listed, NewIds;
    ghost var s := TriedIds(m.mapInfo);
    CountReferenced(m.Keyed(), m.State(), m.nIdCount);
    infos := [];
    ListedNone(m.mapInfo, s);
    var nIds := 0;
    for n := 0 to m.nIdCount
      invariant nIds == |infos| == Rank(s, n) && Listed(m.mapInfo, s, n, infos)
    {
      ListedMore(m.mapInfo, s, n, infos);
      if n in m.mapInfo && m.mapInfo[n].fInTried {
        RankMonotone(s, n, m.nIdCount);
        assert nIds != m.nTried;
        infos := infos + [OnDisk(m.mapInfo[n])];
        nIds := nIds + 1;
      }
    }
  }

  method WriteBuckets(m: AddrMan, mapUnkIds: map<int, int>) returns (buckets: seq<seq<int>>)
    requires m.Consistent()
    requires forall n: nat | n in m.mapInfo :: n in mapUnkIds && mapUnkIds[n] == Rank(RefIds(m.mapInfo), n)
    ensures |buckets| == NEW_BUCKET_COUNT == |m.vvNew|
    ensures forall b | 0 <= b < NEW_BUCKET_COUNT :: buckets[b] == Indexes(RefIds(m.mapInfo), m.vvNew[b])
  {
    ghost var s := RefIds(m.mapInfo);
    buckets := [];
    for bucket := 0 to NEW_BUCKET_COUNT
      invariant |buckets| == bucket
      invariant forall b | 0 <= b < bucket :: buckets[b] == Indexes(s, m.vvNew[b])
    {
      var row := m.vvNew[bucket];
      var indexes := [];
      for i := 0 to BUCKET_SIZE
        invariant indexes == Indexes(s, row[..i])
      {
        assert row[..i + 1][..i] == row[..i];
        if row[i] != -1 {
          indexes := indexes + [mapUnkIds[row[i]]];
        }
      }
      assert row[..BUCKET_SIZE] == row;
      buckets := buckets + [indexes];
    }
  }

  datatype Status = Ok | BadKeySize | TooManyNew | TooManyTried | EndOfData

  /** The parts of the manager that reading never breaks, whatever the stream. */
  ghost predicate Readable(m: AddrMan)
    reads m
  {
    RandomLinked(m.mapInfo, m.vRandom) && Shaped(m.vvNew, NEW_BUCKET_COUNT) && Shaped(m.vvTried, TRIED_BUCKET_COUNT)
  }

  /** Unserialize. `src` and `ids` are any tables and id count the stream may have been written from. Also returned: the
      tables before entries without references are pruned. */
  method Unserialize(m: AddrMan, d: Disk, randomKey: Key, ghost src: Tables, ghost ids: nat)
    returns (status: Status, nLost: nat, nLostUnk: nat, ghost read: Tables)
    modifies m
    ensures Readable(m)
    ensures d.keySize != 32 ==> status != Ok
    ensures d.nNew > NEW_BUCKET_COUNT * BUCKET_SIZE || d.nTried > TRIED_BUCKET_COUNT * BUCKET_SIZE ==> status != Ok
    ensures status == Ok ==>
              && m.nKey == d.key && m.nNew == d.nNew - nLostUnk && m.nTried == d.nTried - nLost
              && nLostUnk == |Unreferenced(read.info)| && Pruned(read, Unreferenced(read.info), m.State())
              && (m.Consistent() <==> d.nNew >= 0 && d.nTried >= 0 && Unshared(read.info))
    ensures status == Ok && d.nNew >= 0 ==>
              && Half(m.Keyed(), m.State(), m.nIdCount) && m.nNew == |NewIds(m.mapInfo)|
              && (d.nTried >= 0 ==>
                    && m.nTried == |TriedIds(m.mapInfo)|
                    && d.nNew <= |d.newInfos| && d.nTried <= |d.triedInfos|
                    && (DistinctEntries(Entries(d)) ==> m.Consistent()))
    ensures Origin(Buckets(m.net, d.key), src, ids, d) ==>
              && status == Ok && nLost == 0 && nLostUnk == 0
              && m.Consistent() && Restored(src, d.nNew, m.State())
              && (TimesOk(src.info) ==> m.Checked())
  {
    hide Origin, Filled, AddrManTables.Linked, Restored, NewIds, TriedIds, TimesOk, Sound, Half, Pruned, Unshared,
        Unreferenced, EntriesRead, DistinctEntries;
    OriginSizes(Buckets(m.net, d.key), src, ids, d);
    nLost, nLostUnk := 0, 0;
    m.Clear(randomKey);
    read := m.State();
    if d.keySize != 32 {
      return BadKeySize, nLost, nLostUnk, read;
    }
    m.nKey, m.nNew, m.nTried := d.key, d.nNew, d.nTried;
    var nUBuckets := d.nUBuckets;
    if d.version != 0 {
      nUBuckets := Flip30(nUBuckets);
    }
    ghost var ok := Origin(m.Keyed(), src, ids, d);
    if ok {
      WithinLimits(m.Keyed(), src, ids, d);
    }
    if m.nNew > NEW_BUCKET_COUNT * BUCKET_SIZE {
      return TooManyNew, nLost, nLostUnk, read;
    }
    if m.nTried > TRIED_BUCKET_COUNT * BUCKET_SIZE {
      return TooManyTried, nLost, nLostUnk, read;
    }
    status, nLost := ReadAll(m, d, nUBuckets, src, ids);
    if status != Ok {
      return;
    }
    read := m.State();
    ReadHalf(m.Keyed(), read, m.nIdCount, d, nLost);
    if ok {
      AsWritten(m.Keyed(), src, ids, d, read);
    }
    nLostUnk := Prune(m);
    Judge(m, d, nLost, nLostUnk, read);
  }

  /** The loops that read, one after the other. */
  method ReadAll(m: AddrMan, d: Disk, nUBuckets: int, ghost src: Tables, ghost ids: nat)
    returns (status: Status, nLost: nat)
    requires m.State() == NoTables() && m.nNew == d.nNew && m.nTried == d.nTried
    requires Origin(m.Keyed(), src, ids, d) ==> nUBuckets == NEW_BUCKET_COUNT
    modifies m`mapInfo, m`mapAddr, m`vRandom, m`vvNew, m`vvTried, m`nIdCount, m`nTried
    ensures Readable(m)
    ensures status == Ok ==> AllRead(m, d, nLost) && m.nTried == d.nTried - nLost && (d.nTried <= 0 ==> nLost == 0)
    ensures Origin(m.Keyed(), src, ids, d) ==>
              && status == Ok && nLost == 0 && Filled(m.Keyed(), src, d, NEW_BUCKET_COUNT, 0, m.State())
              && m.nIdCount == |d.newInfos| + |d.triedInfos|
  {
    hide Origin, Loaded, Filled, EntriesRead, TriedRead, Sound, NewFirst;
    OriginSizes(m.Keyed(), src, ids, d);
    nLost := 0;
    LoadedNone(m.Keyed(), d, m.State());
    status := ReadNew(m, d, nUBuckets, src, ids);
    if status != Ok {
      return;
    }
    m.nIdCount := m.nNew;
    TriedStart(m, d);
    status, nLost := ReadTried(m, d, src, ids);
    if status != Ok {
      return;
    }
    m.nTried := m.nTried - nLost;
    status := ReadBuckets(m, d, nUBuckets, nLost, src, ids);
  }

  lemma TriedStart(m: AddrMan, d: Disk)
    requires m.nIdCount == d.nNew && NewFirst(m.mapInfo, d.nNew)
    requires d.nNew >= 0 ==>
               d.nNew <= |d.newInfos| && Sound(m.Keyed(), m.State(), d.nNew, d.newInfos[..d.nNew], d.nNew, 0)
    ensures TriedRead(m, d, 0, 0)
  {
    hide Sound, NewFirst;
    if 0 <= d.nNew <= |d.newInfos| {
      assert d.newInfos[..d.nNew] + d.triedInfos[..0] == d.newInfos[..d.nNew];
    }
  }

  lemma ReadHalf(k: Buckets, t: Tables, ids: int, d: Disk, nLost: nat)
    requires EntriesRead(k, t, ids, d, nLost)
    ensures d.nNew >= 0 ==>
              && d.nNew <= |d.newInfos| && d.nTried <= |d.triedInfos| && Half(k, t, ids)
              && Sound(k, t, ids, ReadSoFar(d), d.nNew, (if d.nTried < 0 then 0 else d.nTried) - nLost)
  {
    hide Half, Reads, NewIds, TriedIds;
  }

  /** What a consistent manager wrote comes back, with nothing to prune. */
  lemma AsWritten(k: Buckets, src: Tables, ids: nat, d: Disk, t: Tables)
    requires Origin(k, src, ids, d) && Filled(k, src, d, NEW_BUCKET_COUNT, 0, t)
    ensures Unreferenced(t.info) == {} && Restored(src, |d.newInfos|, t) && (TimesOk(src.info) ==> TimesOk(t.info))
    ensures Linked(k, t, {}, |d.newInfos| + |d.triedInfos|)
    ensures |NewIds(t.info)| == |d.newInfos| && |TriedIds(t.info)| == |d.triedInfos|
  {
    hide Origin, Filled, Linked, Restored, NewIds, TriedIds, TimesOk, Unreferenced;
    RoundTrip(k, src, ids, d, t);
    FilledLinked(k, src, d, t);
    FilledTimes(k, src, ids, d, t);
    NothingLoose(k, t, |d.newInfos| + |d.triedInfos|);
  }

  /** The entries read by the end. */
  ghost function ReadSoFar(d: Disk): seq<AddrInfo>
    requires 0 <= d.nNew <= |d.newInfos| && d.nTried <= |d.triedInfos|
  {
    d.newInfos[..d.nNew] + d.triedInfos[..if d.nTried < 0 then 0 else d.nTried]
  }

  /** All entries are read, if there is no negative number of new ones. */
  ghost predicate EntriesRead(k: Buckets, t: Tables, ids: int, d: Disk, nLost: nat) {
    d.nNew >= 0 ==>
      && d.nNew <= |d.newInfos| && d.nTried <= |d.triedInfos|
      && Sound(k, t, ids, ReadSoFar(d), d.nNew, (if d.nTried < 0 then 0 else d.nTried) - nLost)
      && NewFirst(t.info, d.nNew)
  }

  ghost predicate AllRead(m: AddrMan, d: Disk, nLost: nat)
    reads m
  {
    EntriesRead(m.Keyed(), m.State(), m.nIdCount, d, nLost)
  }

  /** What can be said of an accepted stream. */
  lemma Judge(m: AddrMan, d: Disk, nLost: nat, nLostUnk: nat, read: Tables)
    requires Pruned(read, Unreferenced(read.info), m.State()) && nLostUnk == |Unreferenced(read.info)|
    requires m.nNew == d.nNew - nLostUnk && m.nTried == d.nTried - nLost && (d.nTried < 0 ==> nLost == 0)
    requires d.nNew >= 0 ==>
               && d.nNew <= |d.newInfos| && d.nTried <= |d.triedInfos|
               && Sound(m.Keyed(), read, m.nIdCount, ReadSoFar(d), d.nNew,
                        (if d.nTried < 0 then 0 else d.nTried) - nLost)
               && Half(m.Keyed(), m.State(), m.nIdCount)
               && |NewIds(m.mapInfo)| == |NewIds(read.info)| - nLostUnk && TriedIds(m.mapInfo) == TriedIds(read.info)
    ensures m.Consistent() <==> d.nNew >= 0 && d.nTried >= 0 && Unshared(read.info)
    ensures d.nNew >= 0 ==> m.nNew == |NewIds(m.mapInfo)|
    ensures d.nNew >= 0 && d.nTried >= 0 ==>
              && m.nTried == |TriedIds(m.mapInfo)| && d.nNew <= |d.newInfos| && d.nTried <= |d.triedInfos|
              && (DistinctEntries(Entries(d)) ==> m.Consistent())
  {
    hide AddrManTables.Linked, NewIds, TriedIds, Half, Pruned, Unshared, Unreferenced, DistinctEntries, Reads;
    if d.nNew >= 0 {
      var nTried := (if d.nTried < 0 then 0 else d.nTried) - nLost;
      ReadConsistent(m.Keyed(), read, m.nIdCount, ReadSoFar(d), d.nNew, nTried, m.State());
    }
  }

  lemma NothingLoose(k: Buckets, t: Tables, ids: int)
    requires AddrManTables.Linked(k, t, {}, ids)
    ensures Unreferenced(t.info) == {}
  {
    hide AddrManTables.Linked;
    forall n | n in t.info
      ensures n !in Unreferenced(t.info)
    {
      Referenced(k, t, {}, ids, n);
    }
  }

  method ReadNew(m: AddrMan, d: Disk, nUBuckets: int, ghost src: Tables, ghost ids: nat) returns (status: Status)
    requires m.State() == NoTables() && m.nNew == d.nNew
    requires Origin(m.Keyed(), src, ids, d) ==> Loaded(m.Keyed(), d, 0, m.State()) && nUBuckets == NEW_BUCKET_COUNT
    modifies m`mapInfo, m`mapAddr, m`vRandom, m`vvNew
    ensures Readable(m) && (status == Ok ==> m.mapInfo.Keys == Ids(d.nNew) && NewFirst(m.mapInfo, d.nNew))
    ensures status == Ok && d.nNew >= 0 ==>
              d.nNew <= |d.newInfos| && Sound(m.Keyed(), m.State(), d.nNew, d.newInfos[..d.nNew], d.nNew, 0)
    ensures Origin(m.Keyed(), src, ids, d) ==> status == Ok && Loaded(m.Keyed(), d, |d.newInfos|, m.State())
  {
    hide Origin, Loaded, Info, RandomLinked, Sound, Put, NewFirst;
    ghost var ok, k := Origin(m.Keyed(), src, ids, d), m.Keyed();
    OriginSizes(k, src, ids, d);
    SoundNone(k);
    NoneFirst(m.mapInfo);
    for n := 0 to if m.nNew < 0 then 0 else m.nNew
      invariant n <= |d.newInfos| && m.mapInfo.Keys == Ids(n) && NewFirst(m.mapInfo, n)
      invariant Sound(k, m.State(), n, d.newInfos[..n], n, 0)
      invariant ok ==> Loaded(k, d, n, m.State())
    {
      SoundShape(k, m.State(), n, d.newInfos[..n], n, 0);
      if n >= |d.newInfos| {
        return EndOfData;
      }
      OneMore(n);
      if ok {
        LoadNew(k, src, ids, d, n, m.State());
        ReadsInfo(k, src, ids, d, n, m.State());
      }
      var info := OnDisk(d.newInfos[n]).(nRandomPos := |m.vRandom|);
      SoundNew(k, m.State(), n, d.newInfos[..n], d.newInfos[n], info, n, 0);
      OneMoreFirst(m.mapInfo, n, info);
      assert d.newInfos[..n] + [d.newInfos[n]] == d.newInfos[..n + 1];
      m.mapInfo := m.mapInfo[n := info];
      m.mapAddr := m.mapAddr[info.service.addr := n];
      m.vRandom := m.vRandom + [n];
      if d.version != 1 || nUBuckets != NEW_BUCKET_COUNT {
        SoundShape(k, m.State(), n + 1, d.newInfos[..n + 1], n + 1, 0);
        PlaceRead(m, n, n + 1, d.newInfos[..n + 1], n + 1);
      }
    }
    ghost var nn := if d.nNew < 0 then 0 else d.nNew;
    SoundShape(k, m.State(), nn, d.newInfos[..nn], nn, 0);
    FewerFirst(m.mapInfo, nn, d.nNew);
    status := Ok;
  }

  lemma OriginSizes(k: Buckets, src: Tables, ids: nat, d: Disk)
    ensures Origin(k, src, ids, d) ==>
              && d.version == 1 && d.keySize == 32 && d.nNew == |d.newInfos| && d.nTried == |d.triedInfos|
              && Flip30(d.nUBuckets) == NEW_BUCKET_COUNT == |d.buckets|
  {
  }

  /** What is read for the n-th entry is what was written. */
  lemma ReadsInfo(k: Buckets, src: Tables, ids: nat, d: Disk, n: nat, t: Tables)
    requires Origin(k, src, ids, d) && Loaded(k, d, n, t) && n < |d.newInfos| + |d.triedInfos|
    ensures |t.random| == n
    ensures n < |d.newInfos| ==> Info(d, n) == OnDisk(d.newInfos[n]).(nRandomPos := n)
    ensures n >= |d.newInfos| ==>
            Info(d, n) == OnDisk(d.triedInfos[n - |d.newInfos|]).(nRandomPos := n, fInTried := true)
  {
    hide Linked, Written;
    if n < |d.newInfos| {
      var m := NewOrigin(k, src, ids, d, n);
    } else {
      var m := TriedOrigin(k, src, ids, d, n - |d.newInfos|);
    }
  }

  /** Without a usable new table an entry gets the slot of its own source, if that is free. */
  method PlaceRead(m: AddrMan, n: int, ghost ids: int, ghost q: seq<AddrInfo>, ghost nNew: int)
    requires Sound(m.Keyed(), m.State(), ids, q, nNew, 0) && NewFirst(m.mapInfo, nNew) && 0 <= n < nNew
    requires n in m.mapInfo && m.mapInfo[n].nRefCount == 0 && Shaped(m.vvNew, NEW_BUCKET_COUNT)
    modifies m`mapInfo, m`vvNew
    ensures Sound(m.Keyed(), m.State(), ids, q, nNew, 0) && NewFirst(m.mapInfo, nNew)
    ensures m.mapInfo.Keys == old(m.mapInfo.Keys)
  {
    hide Sound, Put;
    var info := m.mapInfo[n];
    var b := m.Keyed().New(info.service, info.source);
    var p := m.Keyed().NewPos(info.service, b);
    if m.vvNew[b][p] == -1 {
      SoundPlace(m.Keyed(), m.State(), ids, q, nNew, 0, n, b);
      m.vvNew := Put(m.vvNew, b, p, n);
      m.mapInfo := m.mapInfo[n := info.(nRefCount := info.nRefCount + 1)];
    }
  }

  lemma NoneFirst(info: Infos)
    ensures NewFirst(info, 0)
  {
  }

  lemma OneMoreFirst(info: Infos, n: nat, e: AddrInfo)
    requires NewFirst(info, n) && !e.fInTried
    ensures NewFirst(info[n := e], n + 1)
  {
  }

  lemma FewerFirst(info: Infos, n: nat, n': int)
    requires NewFirst(info, n) && n' <= n
    ensures NewFirst(info, n')
  {
  }

  lemma RandomPush(info: Infos, r: seq<int>, n: int, e: AddrInfo)
    requires RandomLinked(info, r) && n !in info && e.nRandomPos == |r|
    ensures RandomLinked(info[n := e], r + [n])
  {
  }

  lemma RandomRestat(info: Infos, r: seq<int>, n: int, e: AddrInfo)
    requires RandomLinked(info, r) && n in info && e.nRandomPos == info[n].nRandomPos
    ensures RandomLinked(info[n := e], r)
  {
  }

  /** The first loops: new entries are all read, and the given number of tried ones. */
  ghost predicate TriedRead(m: AddrMan, d: Disk, n: nat, nLost: nat)
    reads m
  {
    d.nNew >= 0 ==>
      && d.nNew <= |d.newInfos| && n <= |d.triedInfos|
      && Sound(m.Keyed(), m.State(), m.nIdCount, d.newInfos[..d.nNew] + d.triedInfos[..n], d.nNew, n - nLost)
      && NewFirst(m.mapInfo, d.nNew) && m.nIdCount >= 0
  }

  method ReadTried(m: AddrMan, d: Disk, ghost src: Tables, ghost ids: nat) returns (status: Status, nLost: nat)
    requires Readable(m) && m.nTried == d.nTried && forall i | i in m.mapInfo :: i < m.nIdCount
    requires TriedRead(m, d, 0, 0)
    requires Origin(m.Keyed(), src, ids, d) ==>
             Loaded(m.Keyed(), d, |d.newInfos|, m.State()) && m.nIdCount == |d.newInfos|
    modifies m`mapInfo, m`mapAddr, m`vRandom, m`vvTried, m`nIdCount
    ensures Readable(m) && old(m.mapInfo.Keys) <= m.mapInfo.Keys && (d.nTried <= 0 ==> nLost == 0)
    ensures status == Ok ==> AllRead(m, d, nLost)
    ensures Origin(m.Keyed(), src, ids, d) ==>
              && status == Ok && nLost == 0 && m.nIdCount == |d.newInfos| + |d.triedInfos|
              && Loaded(m.Keyed(), d, |d.newInfos| + |d.triedInfos|, m.State())
  {
    hide Origin, Loaded, Info, RandomLinked, TriedRead;
    ghost var ok, k, nNew := Origin(m.Keyed(), src, ids, d), m.Keyed(), |d.newInfos|;
    OriginSizes(k, src, ids, d);
    nLost := 0;
    for n := 0 to if m.nTried < 0 then 0 else m.nTried
      invariant Readable(m) && old(m.mapInfo.Keys) <= m.mapInfo.Keys && forall i | i in m.mapInfo :: i < m.nIdCount
      invariant n <= |d.triedInfos| && TriedRead(m, d, n, nLost) && (n == 0 ==> nLost == 0)
      invariant ok ==> nLost == 0 && m.nIdCount == nNew + n && Loaded(k, d, nNew + n, m.State())
    {
      if n >= |d.triedInfos| {
        return EndOfData, nLost;
      }
      if ok {
        TriedFree(k, src, ids, d, nNew + n, m.State());
        LoadTried(k, src, ids, d, nNew + n, m.State());
        ReadsInfo(k, src, ids, d, nNew + n, m.State());
      }
      var info := OnDisk(d.triedInfos[n]);
      var b, p := m.Keyed().Tried(info.service), m.Keyed().TriedPos(info.service);
      if m.vvTried[b][p] == -1 {
        ReadOneTried(m, d, n, nLost, info.(nRandomPos := |m.vRandom|, fInTried := true));
      } else {
        TriedSkipped(m, d, n, nLost);
        nLost := nLost + 1;
      }
    }
    TriedDone(m, d, nLost);
    status := Ok;
  }

  /** A tried entry whose slot is free. */
  method ReadOneTried(m: AddrMan, d: Disk, ghost n: nat, ghost nLost: nat, info: AddrInfo)
    requires Readable(m) && (forall i | i in m.mapInfo :: i < m.nIdCount) && TriedRead(m, d, n, nLost)
    requires n < |d.triedInfos| && info.service == d.triedInfos[n].service && info.fInTried && info.nRefCount == 0
    requires info.nRandomPos == |m.vRandom|
    requires m.vvTried[m.Keyed().Tried(info.service)][m.Keyed().TriedPos(info.service)] == -1
    modifies m`mapInfo, m`mapAddr, m`vRandom, m`vvTried, m`nIdCount
    ensures Readable(m) && (forall i | i in m.mapInfo :: i < m.nIdCount) && TriedRead(m, d, n + 1, nLost)
    ensures m.nIdCount == old(m.nIdCount) + 1
    ensures m.mapInfo == old(m.mapInfo)[old(m.nIdCount) := info] && m.vRandom == old(m.vRandom) + [old(m.nIdCount)]
    ensures m.mapAddr == old(m.mapAddr)[info.service.addr := old(m.nIdCount)]
    ensures m.vvTried == Put(old(m.vvTried), m.Keyed().Tried(info.service), m.Keyed().TriedPos(info.service),
                             old(m.nIdCount))
  {
    hide RandomLinked, Put, Sound, NewFirst;
    var b, p := m.Keyed().Tried(info.service), m.Keyed().TriedPos(info.service);
    RandomPush(m.mapInfo, m.vRandom, m.nIdCount, info);
    PutShape(m.vvTried, TRIED_BUCKET_COUNT, b, p, m.nIdCount);
    if d.nNew >= 0 {
      ghost var q := d.newInfos[..d.nNew] + d.triedInfos[..n];
      SoundTried(m.Keyed(), m.State(), m.nIdCount, q, d.triedInfos[n], info, d.nNew, n - nLost);
      assert q + [d.triedInfos[n]] == d.newInfos[..d.nNew] + d.triedInfos[..n + 1];
      SameFirst(m.mapInfo, m.nIdCount, info, d.nNew);
    }
    m.vRandom := m.vRandom + [m.nIdCount];
    m.mapInfo := m.mapInfo[m.nIdCount := info];
    m.mapAddr := m.mapAddr[info.service.addr := m.nIdCount];
    m.vvTried := Put(m.vvTried, b, p, m.nIdCount);
    m.nIdCount := m.nIdCount + 1;
  }

  lemma SameFirst(info: Infos, n: int, e: AddrInfo, nNew: int)
    requires NewFirst(info, nNew) && n !in info
    ensures NewFirst(info[n := e], nNew)
  {
  }

  lemma TriedSkipped(m: AddrMan, d: Disk, n: nat, nLost: nat)
    requires TriedRead(m, d, n, nLost) && n < |d.triedInfos|
    ensures TriedRead(m, d, n + 1, nLost + 1)
  {
    hide Sound, NewFirst;
    if d.nNew >= 0 {
      var q := d.newInfos[..d.nNew] + d.triedInfos[..n];
      SoundSkip(m.Keyed(), m.State(), m.nIdCount, q, d.triedInfos[n], d.nNew, n - nLost);
      assert q + [d.triedInfos[n]] == d.newInfos[..d.nNew] + d.triedInfos[..n + 1];
    }
  }

  lemma TriedDone(m: AddrMan, d: Disk, nLost: nat)
    requires TriedRead(m, d, if d.nTried < 0 then 0 else d.nTried, nLost)
    ensures AllRead(m, d, nLost)
  {
    hide Sound, NewFirst;
  }

  method ReadBuckets(m: AddrMan, d: Disk, nUBuckets: int, ghost nLost: nat, ghost src: Tables, ghost ids: nat)
    returns (status: Status)
    requires Readable(m) && Ids(m.nNew) <= m.mapInfo.Keys && m.nNew == d.nNew && AllRead(m, d, nLost)
    requires Origin(m.Keyed(), src, ids, d) ==>
               && nUBuckets == NEW_BUCKET_COUNT && m.nNew == |d.newInfos|
               && Loaded(m.Keyed(), d, |d.newInfos| + |d.triedInfos|, m.State())
    modifies m`mapInfo, m`vvNew
    ensures Readable(m) && AllRead(m, d, nLost)
    ensures Origin(m.Keyed(), src, ids, d) ==> status == Ok && Filled(m.Keyed(), src, d, NEW_BUCKET_COUNT, 0, m.State())
  {
    hide Origin, Loaded, Filled, RandomLinked, EntriesRead;
    ghost var ok, k := Origin(m.Keyed(), src, ids, d), m.Keyed();
    OriginSizes(k, src, ids, d);
    if ok {
      FilledNone(k, src, ids, d, m.State());
    }
    for bucket := 0 to if nUBuckets < 0 then 0 else nUBuckets
      invariant Readable(m) && Ids(m.nNew) <= m.mapInfo.Keys && AllRead(m, d, nLost)
      invariant ok ==> Filled(k, src, d, bucket, 0, m.State())
    {
      if bucket >= |d.buckets| {
        return EndOfData;
      }
      ReadBucket(m, d, nUBuckets, bucket, nLost, src, ids);
    }
    status := Ok;
  }

  method ReadBucket(m: AddrMan, d: Disk, nUBuckets: int, bucket: nat, ghost nLost: nat, ghost src: Tables,
                    ghost ids: nat)
    requires Readable(m) && Ids(m.nNew) <= m.mapInfo.Keys && bucket < |d.buckets| && bucket < nUBuckets
    requires m.nNew == d.nNew && AllRead(m, d, nLost)
    requires Origin(m.Keyed(), src, ids, d) ==>
               && nUBuckets == NEW_BUCKET_COUNT && m.nNew == |d.newInfos|
               && Filled(m.Keyed(), src, d, bucket, 0, m.State())
    modifies m`mapInfo, m`vvNew
    ensures Readable(m) && m.mapInfo.Keys == old(m.mapInfo.Keys) && AllRead(m, d, nLost)
    ensures Origin(m.Keyed(), src, ids, d) ==> Filled(m.Keyed(), src, d, bucket + 1, 0, m.State())
  {
    hide Origin, Filled, RandomLinked, Put, EntriesRead;
    ghost var ok, k := Origin(m.Keyed(), src, ids, d), m.Keyed();
    OriginSizes(k, src, ids, d);
    for n := 0 to |d.buckets[bucket]|
      invariant Readable(m) && m.mapInfo.Keys == old(m.mapInfo.Keys) && AllRead(m, d, nLost)
      invariant ok ==> Filled(k, src, d, bucket, n, m.State())
    {
      if ok {
        FillNext(k, src, ids, d, bucket, n, m.State());
      }
      var nIndex := d.buckets[bucket][n];
      if 0 <= nIndex < m.nNew {
        assert nIndex in Ids(m.nNew);
        var info := m.mapInfo[nIndex];
        var p := m.Keyed().NewPos(info.service, bucket);
        if d.version == 1 && nUBuckets == NEW_BUCKET_COUNT && m.vvNew[bucket][p] == -1
           && info.nRefCount < NEW_BUCKETS_PER_ADDRESS {
          PlacedRead(k, m.State(), m.nIdCount, d, nLost, nIndex, bucket);
          RandomRestat(m.mapInfo, m.vRandom, nIndex, info.(nRefCount := info.nRefCount + 1));
          PutShape(m.vvNew, NEW_BUCKET_COUNT, bucket, p, nIndex);
          m.mapInfo := m.mapInfo[nIndex := info.(nRefCount := info.nRefCount + 1)];
          m.vvNew := Put(m.vvNew, bucket, p, nIndex);
        }
      }
    }
    if ok {
      FilledRow(k, src, ids, d, bucket, m.State());
    }
  }

  lemma PlacedRead(k: Buckets, t: Tables, ids: int, d: Disk, nLost: nat, n: int, b: nat)
    requires EntriesRead(k, t, ids, d, nLost) && 0 <= n < d.nNew && b < NEW_BUCKET_COUNT && n in t.info
    requires t.info[n].nRefCount < NEW_BUCKETS_PER_ADDRESS
    requires Shaped(t.fresh', NEW_BUCKET_COUNT) && t.fresh'[b][k.NewPos(t.info[n].service, b)] == -1
    ensures EntriesRead(k, t.(info := t.info[n := t.info[n].(nRefCount := t.info[n].nRefCount + 1)],
                              fresh' := Put(t.fresh', b, k.NewPos(t.info[n].service, b), n)), ids, d, nLost)
  {
    hide Sound, Put;
    SoundPlace(k, t, ids, ReadSoFar(d), d.nNew, (if d.nTried < 0 then 0 else d.nTried) - nLost, n, b);
  }

  lemma PutShape(t: Table, n: nat, b: nat, p: nat, v: int)
    requires Shaped(t, n) && b < n && p < BUCKET_SIZE
    ensures Shaped(Put(t, b, p, v), n)
  {
  }

  /** An entry that is neither tried nor referenced goes. */
  method PruneOne(m: AddrMan, n: int) returns (lost: bool)
    requires Readable(m) && n in m.mapInfo
    modifies m`mapInfo, m`mapAddr, m`vRandom, m`nNew
    ensures Readable(m)
    ensures lost <==> n in Unreferenced(old(m.mapInfo))
    ensures lost ==> && m.Entries() == old(m.Entries()) - {n} && m.nNew == old(m.nNew) - 1
                     && m.mapAddr == old(m.mapAddr) - {old(m.mapInfo)[n].service.addr}
    ensures !lost ==> m.State() == old(m.State()) && m.nNew == old(m.nNew)
  {
    hide RandomLinked, AddrManTables.Linked, Forget, NewIds, TriedIds;
    lost := !m.mapInfo[n].fInTried && m.mapInfo[n].nRefCount == 0;
    if lost {
      m.Delete(n, {});
    }
  }

  /** The last loop: exactly the entries without references go, with their addresses. */
  method Prune(m: AddrMan) returns (nLostUnk: nat)
    requires Readable(m)
    modifies m`mapInfo, m`mapAddr, m`vRandom, m`nNew
    ensures Readable(m) && Pruned(old(m.State()), Unreferenced(old(m.mapInfo)), m.State())
    ensures nLostUnk == |Unreferenced(old(m.mapInfo))| && m.nNew == old(m.nNew) - nLostUnk
    ensures |NewIds(m.mapInfo)| == old(|NewIds(m.mapInfo)|) - nLostUnk
    ensures TriedIds(m.mapInfo) == old(TriedIds(m.mapInfo))
    ensures old(Half(m.Keyed(), m.State(), m.nIdCount)) ==> Half(m.Keyed(), m.State(), m.nIdCount)
    ensures Unreferenced(old(m.mapInfo)) == {} ==> m.State() == old(m.State())
  {
    hide Readable, Pruned, Half, NewIds, TriedIds, Unreferenced, Forget;
    ghost var read, gone: set<int> := m.State(), {};
    PrunedNone(read);
    nLostUnk := 0;
    var todo := m.mapInfo.Keys;
    PruneStart(read.info, todo);
    while todo != {}
      invariant Readable(m) && todo <= m.mapInfo.Keys && Pruned(read, gone, m.State()) && |gone| == nLostUnk
      invariant Unreferenced(m.mapInfo) == Unreferenced(read.info) - gone && gone <= Unreferenced(read.info)
      invariant Unreferenced(m.mapInfo) <= todo && m.nNew == old(m.nNew) - nLostUnk
      invariant |NewIds(m.mapInfo)| == |NewIds(read.info)| - nLostUnk && TriedIds(m.mapInfo) == TriedIds(read.info)
      invariant old(Half(m.Keyed(), m.State(), m.nIdCount)) ==> Half(m.Keyed(), m.State(), m.nIdCount)
      invariant gone == {} ==> m.State() == read
      decreases |todo|
    {
      SomeMember(todo);
      var n :| n in todo;
      ghost var t := m.State();
      todo := todo - {n};
      var lost := PruneOne(m, n);
      if lost {
        PruneStep(m.Keyed(), read, gone, t, n, m.State(), m.nIdCount);
        PrunedKeys(t.info, m.mapInfo, n);
        RandomOf(m);
        if Half(m.Keyed(), t, m.nIdCount) {
          HalfDrop(m.Keyed(), t, m.nIdCount, n, m.State());
        }
        gone := gone + {n};
        nLostUnk := nLostUnk + 1;
      }
    }
    assert gone == Unreferenced(read.info);
  }

  lemma PruneStart(info: Infos, todo: set<int>)
    requires todo == info.Keys
    ensures Unreferenced(info) <= todo
  {
  }

  lemma RandomOf(m: AddrMan)
    requires Readable(m)
    ensures RandomLinked(m.mapInfo, m.vRandom)
  {
  }

  lemma PruneStep(k: Buckets, read: Tables, gone: set<int>, t: Tables, n: int, t': Tables, ids: int)
    requires Pruned(read, gone, t) && n in Unreferenced(t.info)
    requires Forget(t'.info) == Forget(t.info) - {n} && t'.addrs == t.addrs - {t.info[n].service.addr}
    requires Unreferenced(t.info) == Unreferenced(read.info) - gone
    ensures Pruned(read, gone + {n}, t') && n !in gone && n in Unreferenced(read.info)
    ensures Unreferenced(t'.info) == Unreferenced(read.info) - (gone + {n})
    ensures |NewIds(t'.info)| == |NewIds(t.info)| - 1 && TriedIds(t'.info) == TriedIds(t.info)
  {
    hide Pruned, Unreferenced, Forget, NewIds, TriedIds;
    PrunedMore(read, gone, t, n, t');
    DropCounts(t.info, n, t'.info);
  }

  lemma PrunedKeys(info: Infos, info': Infos, n: int)
    requires Forget(info') == Forget(info) - {n}
    ensures info'.Keys == info.Keys - {n}
  {
    ForgetKeys(info);
    ForgetKeys(info');
  }

  lemma FilledLinked(k: Buckets, src: Tables, d: Disk, t: Tables)
    requires Filled(k, src, d, NEW_BUCKET_COUNT, 0, t)
    ensures Linked(k, t, LooseNew(d, t.info), |d.newInfos| + |d.triedInfos|)
    ensures |NewIds(t.info)| == |d.newInfos| && |TriedIds(t.info)| == |d.triedInfos|
  {
  }
}
