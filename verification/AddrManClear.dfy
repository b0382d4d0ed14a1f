/** CAddrMan::Clear (src/addrman.h) forgets every address but not the collisions that wait for a tried slot. Ids are
    then given out again, and a waiting id may come to stand for an address whose tried slot is free. */
module AddrManClear {
  import opened AddrManTables
  import opened AddrMan
  import opened AddrManCheck

  /** An address nobody has a time for: its entry is terrible, and gives way to the next. */
  function Untimed(a: NetAddr): Address { Address(Service(a, 0), 0, {}) }

  /** Every entry is untimed and for one of the given addresses. */
  ghost predicate AllUntimed(info: Infos, addrs: set<NetAddr>) {
    forall n | n in info :: info[n].nTime == 0 && info[n].nLastTry == 0 && info[n].service.addr in addrs
  }

  /** An untimed newcomer always gets its slot among untimed entries. */
  lemma AddedUntimed(k: Buckets, t: Tables, a: NetAddr, n: int, t': Tables, addrs: set<NetAddr>)
    requires Linked(k, t, {}, n) && AllUntimed(t.info, addrs) && Shaped(t.fresh', NEW_BUCKET_COUNT)
    requires AddedNew(k, t, Untimed(a), a, 0, 0, n, t')
    ensures n in t'.info && AllUntimed(t'.info, addrs + {a}) && t'.tried == t.tried
  {
    hide TriedLinked, AddrLinked, RandomLinked, Holders;
    var e := NewInfo(Untimed(a), a).(nTime := 0, nRandomPos := |t.random|);
    var info := t.info[n := e];
    assert AllUntimed(info, addrs + {a});
    var b := k.New(e.service, a);
    var d := t.fresh'[b][k.NewPos(e.service, b)];
    assert d != -1 ==> d in t.info && info[d].IsTerrible(0);
    assert n !in t.info && d != n;
    assert n in Forget(t'.info);
    forall m | m in t'.info
      ensures t'.info[m].nTime == 0 && t'.info[m].nLastTry == 0 && t'.info[m].service.addr in addrs + {a}
    {
      assert m in Forget(t'.info);
      assert m in Forget(info) && Forget(t'.info)[m].nTime == Forget(info)[m].nTime;
    }
  }

  /** No entry for the address, no id for it. */
  lemma Unknown(k: Buckets, t: Tables, nIdCount: int, a: NetAddr)
    requires Linked(k, t, {}, nIdCount) && forall n | n in t.info :: t.info[n].service.addr != a
    ensures a !in t.addrs
  {
    hide AddrManTables.Linked;
    if a in t.addrs {
      var n := EntryOf(k, t, nIdCount, a);
    }
  }

  lemma EntryOf(k: Buckets, t: Tables, nIdCount: int, a: NetAddr) returns (n: int)
    requires Linked(k, t, {}, nIdCount) && a in t.addrs
    ensures n in t.info && t.info[n].service.addr == a
  {
    n := t.addrs[a];
  }

  lemma NegativeId(m: AddrMan)
    requires -1 in m.mapInfo
    ensures !m.Consistent()
  {
  }

  /** Clear while a collision waits can be followed by calls after which the manager fails its own test: give ids out
      up to the one that waits, then ask for a collision to test. */
  method HarmAfterClear(m: AddrMan, key: Key, n: nat, addrs: seq<NetAddr>) returns (code: int)
    requires m.Consistent() && n in m.triedCollisions
    requires |addrs| == n + 1 && (forall a | a in addrs :: m.net.routable(a))
    requires forall i, j | 0 <= i < j < |addrs| :: addrs[i] != addrs[j]
    modifies m
    ensures -1 in m.mapInfo && !m.Consistent() && code != 0
  {
    hide AddrManTables.Linked, TriedIds, NewIds, Waiting, TimesOk, Passes, AddedNew, AddedOld, Shaped, Empty;
    m.Clear(key);
    for i := 0 to n + 1
      invariant m.Consistent() && m.nIdCount == i && n in m.triedCollisions
      invariant AllUntimed(m.mapInfo, set j | 0 <= j < i :: addrs[j])
      invariant m.vvTried == Empty(TRIED_BUCKET_COUNT) && (i > 0 ==> i - 1 in m.mapInfo)
    {
      assert addrs[i] in addrs;
      ghost var t, seen := m.State(), set j | 0 <= j < i :: addrs[j];
      LinkedShape(m.Keyed(), t, {}, i);
      Unknown(m.Keyed(), t, i, addrs[i]);
      var _ := m.Add(Untimed(addrs[i]), addrs[i], 0, 0);
      AddedUntimed(m.Keyed(), t, addrs[i], i, m.State(), seen);
      assert seen + {addrs[i]} == set j | 0 <= j < i + 1 :: addrs[j];
    }
    code := SelectBlank(m, n);
  }

  /** With an empty tried table, sooner or later a known waiting id is picked. */
  method SelectBlank(m: AddrMan, n: int) returns (code: int)
    requires m.Consistent() && n in m.triedCollisions && n in m.mapInfo && m.vvTried == Empty(TRIED_BUCKET_COUNT)
    modifies m`mapInfo, m`triedCollisions
    ensures -1 in m.mapInfo && !m.Consistent() && code != 0
  {
    hide AddrManTables.Linked, TriedIds, NewIds, Waiting, TimesOk, Empty, Shaped;
    ghost var k := m.Keyed();
    LinkedShape(k, m.State(), {}, m.nIdCount);
    while -1 !in m.mapInfo
      invariant n in m.triedCollisions && n in m.mapInfo
      invariant if -1 in m.mapInfo then m.mapInfo[-1] == Blank else m.Consistent()
      decreases -1 !in m.mapInfo, |m.triedCollisions|
    {
      var idNew, _ := m.SelectTriedCollision();
    }
    NegativeId(m);
    code := Check(m);
  }

  /** Hashes that give all addresses one tried slot, and each a new bucket of its own. */
  const OneSlot: Net := Net((_, _) => 0, (_, s: Service, _) => s.addr, (_, _, _, _) => 0, _ => true, _ => true)

  function Heard(a: NetAddr): Address { Address(Service(a, 0), 1, {}) }

  /** Entry `n` is known, for address `a`, and is in tried or not. */
  ghost predicate Known(t: Tables, n: int, a: NetAddr, inTried: bool) {
    && Knows(t, Service(a, 0)) && t.addrs[a] == n && t.info[n].fInTried == inTried
  }

  lemma KnownById(k: Buckets, t: Tables, nIdCount: int, n: int)
    requires Linked(k, t, {}, nIdCount) && n in t.info
    ensures Knows(t, t.info[n].service) && t.addrs[t.info[n].service.addr] == n
  {
  }

  lemma SlotOf(k: Buckets, a: NetAddr)
    requires k.net == OneSlot && a < NEW_BUCKET_COUNT
    ensures k.New(Service(a, 0), a) == a && k.NewPos(Service(a, 0), a) == 0
  {
  }

  /** The first address of a bucket gets its slot, and no other entry changes. */
  lemma AddedFirst(k: Buckets, t: Tables, a: NetAddr, n: nat, t': Tables)
    requires k.net == OneSlot && a < NEW_BUCKET_COUNT && Linked(k, t, {}, n) && Linked(k, t', {}, n + 1)
    requires Shaped(t.fresh', NEW_BUCKET_COUNT) && t.fresh'[a][0] == -1
    requires AddedNew(k, t, Heard(a), a, 0, 1, n, t')
    ensures Known(t', n, a, false) && t'.tried == t.tried && t'.fresh' == Put(t.fresh', a, 0, n)
    ensures forall m, b | Known(t, m, b, false) :: Known(t', m, b, false)
    ensures forall m | m in t'.info && m != n :: m in t.info
  {
    hide AddrManTables.Linked, Put;
    forall m | m in t'.info && m != n
      ensures m in t.info
    {
      assert m in Forget(t'.info);
    }
    SlotOf(k, a);
    assert n in Forget(t'.info);
    KnownById(k, t', n + 1, n);
    forall m, b | Known(t, m, b, false)
      ensures Known(t', m, b, false)
    {
      IdBelow(k, t, n, m);
      assert m in Forget(t.info) && m in Forget(t'.info) && Forget(t'.info)[m] == Forget(t.info)[m];
      KnownById(k, t', n + 1, m);
    }
  }

  lemma IdBelow(k: Buckets, t: Tables, nIdCount: int, m: int)
    requires Linked(k, t, {}, nIdCount) && m in t.info
    ensures m < nIdCount
  {
  }

  /** With the tried slot free an entry moves there; the others stay known as they are. */
  lemma GoodMoves(k: Buckets, t: Tables, n: int, t': Tables, w: set<int>, w': set<int>, nIdCount: int)
    requires k.net == OneSlot && Linked(k, t, {}, nIdCount) && Linked(k, t', {}, nIdCount) && n in t.info
             && !t.info[n].fInTried
    requires Shaped(t.tried, TRIED_BUCKET_COUNT) && Shaped(t.fresh', NEW_BUCKET_COUNT) && t.tried[0][0] == -1
    requires GoodEffect(k, t, n, false, 1, t', w, w')
    ensures Shaped(t'.tried, TRIED_BUCKET_COUNT) && t'.tried[0][0] == n && w' == w
    ensures forall m, b | m != n && Known(t, m, b, false) :: Known(t', m, b, false)
  {
    hide AddrManTables.Linked;
    var s := t.info[n].service;
    assert k.Tried(s) == 0 && k.TriedPos(s) == 0;
    PutShape(t.tried, n);
    forall m, b | m != n && Known(t, m, b, false)
      ensures Known(t', m, b, false)
    {
      assert m in Forget(t.info) && m in Forget(t'.info) && Forget(t'.info)[m] == Forget(t.info)[m];
      KnownById(k, t', nIdCount, m);
    }
  }

  /** With the tried slot taken an entry waits. */
  lemma GoodWaits(k: Buckets, t: Tables, n: int, t': Tables, w': set<int>)
    requires k.net == OneSlot && n in t.info && !t.info[n].fInTried
    requires Shaped(t.tried, TRIED_BUCKET_COUNT) && Shaped(t.fresh', NEW_BUCKET_COUNT) && t.tried[0][0] != -1
    requires GoodEffect(k, t, n, true, 1, t', {}, w')
    ensures w' == {n}
  {
  }

  lemma PutShape(t: Table, n: int)
    requires Shaped(t, TRIED_BUCKET_COUNT)
    ensures Shaped(Put(t, 0, 0, n), TRIED_BUCKET_COUNT) && Put(t, 0, 0, n)[0][0] == n
  {
  }

  /** A run that harms: two addresses that share a tried slot, one promoted, the other made to wait, then Clear. */
  method HarmfulRun() returns (code: int)
    ensures code != 0
  {
    hide AddrManTables.Linked, TriedIds, NewIds, Waiting, TimesOk, AddedNew, AddedOld, GoodEffect, Forget;
    var m := new AddrMan(OneSlot, 1);
    ghost var k, t0 := m.Keyed(), m.State();
    LinkedShape(k, t0, {}, 0);
    Unknown(k, t0, 0, 1);
    var _ := m.Add(Heard(1), 1, 0, 1);
    ghost var t1 := m.State();
    AddedFirst(k, t0, 1, 0, t1);
    LinkedShape(k, t1, {}, 1);
    assert t1.fresh'[2][0] == -1;
    Unknown(k, t1, 1, 2);
    var _ := m.Add(Heard(2), 2, 0, 1);
    ghost var t2 := m.State();
    AddedFirst(k, t1, 2, 1, t2);
    LinkedShape(k, t2, {}, 2);
    m.Good(Service(2, 0), false, 1);
    ghost var t3 := m.State();
    GoodMoves(k, t2, 1, t3, {}, m.triedCollisions, 2);
    LinkedShape(k, t3, {}, 2);
    m.Good(Service(1, 0), true, 1);
    GoodWaits(k, t3, 0, m.State(), m.triedCollisions);
    assert m.triedCollisions == {0};
    code := HarmAfterClear(m, 1, 0, [1]);
  }
}
