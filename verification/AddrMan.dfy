/** The address manager object (CAddrMan of src/addrman.h and src/addrman.cpp). Random choices are
    arbitrary, the adjusted clock is an argument. */
module AddrMan {
  import opened Basics
  import opened Powers
  import opened AddrManTables

  /** The tried slot is vacated: its occupant takes the new-table slot of its own source, whose
      occupant loses a reference. */
  ghost predicate MadeRoom(k: Buckets, t: Tables, kb: nat, kp: nat, t': Tables)
    requires Shaped(t.tried, TRIED_BUCKET_COUNT) && Shaped(t.fresh', NEW_BUCKET_COUNT)
    requires kb < TRIED_BUCKET_COUNT && kp < BUCKET_SIZE
  {
    var o, e := t.tried[kb][kp], Forget(t.info);
    o in e &&
    var ub := k.New(e[o].service, e[o].source);
    var up := k.NewPos(e[o].service, ub);
    var d := t.fresh'[ub][up];
    && (d == -1 || d in e) && d != o
    && Forget(t'.info) == Cleared(e, d)[o := e[o].(fInTried := false, nRefCount := 1)]
    && t'.fresh' == Put(t.fresh', ub, up, o)
    && t'.tried == Put(t.tried, kb, kp, -1)
  }

  /** Entry `n` leaves all its new slots for its tried slot, which is vacated first. */
  ghost predicate MadeTried(k: Buckets, t: Tables, n: int, t': Tables)
    requires Shaped(t.tried, TRIED_BUCKET_COUNT) && Shaped(t.fresh', NEW_BUCKET_COUNT) && n in t.info
  {
    var s, e, w := t.info[n].service, Forget(t.info), Without(t.fresh', n);
    var kb, kp := k.Tried(s), k.TriedPos(s);
    var o := t.tried[kb][kp];
    var e1 := e[n := t.info[n].(nRefCount := 0, fInTried := true, nRandomPos := 0)];
    && t'.tried == Put(t.tried, kb, kp, n)
    && if o == -1 then Forget(t'.info) == e1 && t'.fresh' == w
       else
         o in e && o != n &&
         var ub := k.New(e[o].service, e[o].source);
         var up := k.NewPos(e[o].service, ub);
         var d := w[ub][up];
         && (d == -1 || d in e) && d != o && d != n
         && Forget(t'.info) == Cleared(e1, d)[o := e[o].(fInTried := false, nRefCount := 1)]
         && t'.fresh' == Put(w, ub, up, o)
  }

  /** The steps of MakeRoom. */
  lemma MadeRoomInSteps(k: Buckets, t: Tables, kb: nat, kp: nat, t1: Tables, t2: Tables, t': Tables)
    requires Shaped(t.tried, TRIED_BUCKET_COUNT) && Shaped(t.fresh', NEW_BUCKET_COUNT)
    requires kb < TRIED_BUCKET_COUNT && kp < BUCKET_SIZE && t.tried[kb][kp] in t.info
    requires var o := t.tried[kb][kp];
             t1 == t.(info := t.info[o := t.info[o].(fInTried := false)], tried := Put(t.tried, kb, kp, -1))
    requires var e := t.info[t.tried[kb][kp]];
             var ub := k.New(e.service, e.source);
             var up := k.NewPos(e.service, ub);
             && (t.fresh'[ub][up] == -1 || t.fresh'[ub][up] in Forget(t1.info)) && t.fresh'[ub][up] != t.tried[kb][kp]
             && Forget(t2.info) == Cleared(Forget(t1.info), t.fresh'[ub][up])
             && t2.tried == t1.tried && t2.fresh' == Put(t.fresh', ub, up, -1)
             && Shaped(t2.fresh', NEW_BUCKET_COUNT)
             && t.tried[kb][kp] in t2.info
             && t' == t2.(info := t2.info[t.tried[kb][kp] := t2.info[t.tried[kb][kp]].(nRefCount := 1)],
                          fresh' := Put(t2.fresh', ub, up, t.tried[kb][kp]))
    ensures MadeRoom(k, t, kb, kp, t')
  {
    hide Put, Forget;
    var o := t.tried[kb][kp];
    var e := t.info[o];
    var ub := k.New(e.service, e.source);
    var up := k.NewPos(e.service, ub);
    var d := t.fresh'[ub][up];
    ForgetUpdate(t.info, o, t1.info[o]);
    ForgetUpdate(t2.info, o, t'.info[o]);
    ClearedUpdate(Forget(t.info), d, o, Forget(t1.info)[o]);
    PutTwice(t.fresh', ub, up, -1, o);
  }

  /** MakeTried is its two halves in sequence. */
  lemma MadeTriedInSteps(k: Buckets, t: Tables, n: int, t1: Tables, t2: Tables, t': Tables)
    requires Shaped(t.tried, TRIED_BUCKET_COUNT) && Shaped(t.fresh', NEW_BUCKET_COUNT) && n in t.info && n != -1
    requires t1 == t.(info := t.info[n := t.info[n].(nRefCount := 0)], fresh' := Without(t.fresh', n))
    requires t.tried[k.Tried(t.info[n].service)][k.TriedPos(t.info[n].service)] != n
    requires if t.tried[k.Tried(t.info[n].service)][k.TriedPos(t.info[n].service)] == -1 then t2 == t1
             else MadeRoom(k, t1, k.Tried(t.info[n].service), k.TriedPos(t.info[n].service), t2)
    requires n in t2.info && t2.info[n].(nRandomPos := 0) == t1.info[n].(nRandomPos := 0)
    requires t'.info == t2.info[n := t2.info[n].(fInTried := true)] && t'.fresh' == t2.fresh'
    requires Shaped(t2.tried, TRIED_BUCKET_COUNT)
    requires t'.tried == Put(t2.tried, k.Tried(t.info[n].service), k.TriedPos(t.info[n].service), n)
    ensures MadeTried(k, t, n, t')
  {
    hide Put, Forget;
    var kb, kp := k.Tried(t.info[n].service), k.TriedPos(t.info[n].service);
    ForgetUpdate(t.info, n, t1.info[n]);
    ForgetUpdate(t2.info, n, t'.info[n]);
    if t.tried[kb][kp] != -1 {
      PutTwice(t.tried, kb, kp, -1, n);
      var o, e := t.tried[kb][kp], Forget(t1.info);
      assert o in e && o in Forget(t.info) && e[o] == Forget(t.info)[o];
      var ub := k.New(e[o].service, e[o].source);
      var up := k.NewPos(e[o].service, ub);
      var d := t1.fresh'[ub][up];
      assert d != n;
      ClearedUpdate(e, d, n, t'.info[n].(nRandomPos := 0));
    }
  }

  function Probe(n: nat, start: nat): (b: nat) ensures b < NEW_BUCKET_COUNT { (n + start) % NEW_BUCKET_COUNT }

  predicate HeldAt(k: Buckets, t: Table, s: Service, n: int, b: nat)
    requires Shaped(t, NEW_BUCKET_COUNT) && b < NEW_BUCKET_COUNT
  {
    t[b][k.NewPos(s, b)] == n
  }

  lemma SameWaits(k: Buckets, t: Tables, t': Tables, waiting: set<int>, nIdCount: int, nIdCount': int)
    requires t'.tried == t.tried && nIdCount <= nIdCount'
    requires forall n | n in t'.info && n < nIdCount :: n in t.info && t'.info[n].service == t.info[n].service
    ensures Waiting(k, t, waiting, nIdCount) ==> Waiting(k, t', waiting, nIdCount')
  {
  }

  lemma OneMoreWaits(k: Buckets, t: Tables, waiting: set<int>, nIdCount: int, n: int)
    requires n in t.info && 0 <= n < nIdCount && Shaped(t.tried, TRIED_BUCKET_COUNT)
    requires t.tried[k.Tried(t.info[n].service)][k.TriedPos(t.info[n].service)] != -1
    ensures Waiting(k, t, waiting, nIdCount) ==> Waiting(k, t, waiting + {n}, nIdCount)
  {
  }

  lemma MadeTriedWaits(k: Buckets, t: Tables, n: int, t': Tables, waiting: set<int>, nIdCount: int)
    requires Shaped(t.tried, TRIED_BUCKET_COUNT) && Shaped(t.fresh', NEW_BUCKET_COUNT) && n in t.info && n != -1
    requires MadeTried(k, t, n, t')
    ensures Waiting(k, t, waiting, nIdCount) ==> Waiting(k, t', waiting, nIdCount)
  {
    if Waiting(k, t, waiting, nIdCount) {
      forall m | m in t'.info
        ensures m in t.info && t'.info[m].service == t.info[m].service
      {
        assert m in Forget(t'.info);
        assert m in Forget(t.info);
        assert Forget(t'.info)[m].service == Forget(t.info)[m].service;
      }
      StillWaiting(k, t, t', waiting, nIdCount, nIdCount);
    }
  }

  /** Promotion is fit for the times exactly if the promoted entry has answered at a sensible time. */
  lemma MadeTriedTimes(k: Buckets, t: Tables, n: int, t': Tables)
    requires Shaped(t.tried, TRIED_BUCKET_COUNT) && Shaped(t.fresh', NEW_BUCKET_COUNT) && n in t.info
    requires MadeTried(k, t, n, t') && forall m | m in t.info && m != n :: TimeOk(t.info[m])
    ensures TimesOk(t'.info) <==> 0 <= t.info[n].nLastTry && 0 < t.info[n].nLastSuccess
  {
    TimesForget(t'.info);
    var e := Forget(t.info);
    forall m | m in Forget(t'.info) && m != n
      ensures TimeOk(Forget(t'.info)[m])
    {
      assert m in e && TimeOk(e[m]);
    }
    assert n in Forget(t'.info) && Forget(t'.info)[n].fInTried;
  }

  lemma PlacedTimes(k: Buckets, t: Tables, n: int, source: NetAddr, now: int, t': Tables)
    requires Shaped(t.fresh', NEW_BUCKET_COUNT) && n in t.info && Placed(k, t, n, source, now, t')
    ensures TimesOk(t.info) ==> TimesOk(t'.info)
  {
    if TimesOk(t.info) {
      TimesForget(t.info);
      TimesForget(t'.info);
      forall m | m in Forget(t'.info)
        ensures TimeOk(Forget(t'.info)[m])
      {
        assert m in Forget(t.info) && TimeOk(Forget(t.info)[m]);
      }
    }
  }

  ghost predicate Knows(t: Tables, addr: Service) {
    addr.addr in t.addrs && t.addrs[addr.addr] in t.info && t.info[t.addrs[addr.addr]].service == addr
  }

  /** Good_ leaves entry `n` where it is: it is not in tried, and to move it there would evict another. */
  predicate Waits(k: Buckets, t: Tables, n: int, wait: bool) {
    && Shaped(t.tried, TRIED_BUCKET_COUNT) && n in t.info && !t.info[n].fInTried
    && wait && t.tried[k.Tried(t.info[n].service)][k.TriedPos(t.info[n].service)] != -1
  }

  lemma GoodTimes(k: Buckets, t: Tables, n: int, wait: bool, nTime: int, t': Tables, waiting: set<int>,
                  waiting': set<int>)
    requires Shaped(t.tried, TRIED_BUCKET_COUNT) && Shaped(t.fresh', NEW_BUCKET_COUNT) && n in t.info && TimesOk(t.info)
    requires GoodEffect(k, t, n, wait, nTime, t', waiting, waiting')
    ensures TimesOk(t'.info) <==> nTime > 0 || (nTime == 0 && Waits(k, t, n, wait))
  {
    hide MadeTried;
    var e := t.info[n].(nLastSuccess := nTime, nLastTry := nTime, nAttempts := 0);
    var t1 := t.(info := t.info[n := e]);
    TimesUpdate(t.info, n, e);
    if !e.fInTried && !Waits(k, t, n, wait) {
      MadeTriedTimes(k, t1, n, t');
    }
  }

  /** What Good_ does to a known entry `n`: refresh its statistics; if it is not in tried yet,
      move it there, or note a collision when that would evict and evictions must wait. */
  ghost predicate GoodEffect(k: Buckets, t: Tables, n: int, wait: bool, nTime: int, t': Tables,
                             waiting: set<int>, waiting': set<int>)
    requires Shaped(t.tried, TRIED_BUCKET_COUNT) && Shaped(t.fresh', NEW_BUCKET_COUNT) && n in t.info
  {
    var e := t.info[n].(nLastSuccess := nTime, nLastTry := nTime, nAttempts := 0);
    var t1 := t.(info := t.info[n := e]);
    if e.fInTried then t' == t1 && waiting' == waiting
    else if wait && t.tried[k.Tried(e.service)][k.TriedPos(e.service)] != -1 then
      t' == t1 && waiting' == if |waiting| < SET_TRIED_COLLISION_SIZE then waiting + {n} else waiting
    else MadeTried(k, t1, n, t') && waiting' == waiting
  }

  /** The last part of Add_: entry `n` takes its slot for `source` if that is free or its occupant is
      terrible or has a reference to spare for a newcomer; a newcomer that gets no slot goes. */
  ghost predicate Placed(k: Buckets, t: Tables, n: int, source: NetAddr, now: int, t': Tables)
    requires Shaped(t.fresh', NEW_BUCKET_COUNT) && n in t.info
  {
    var e := Forget(t.info);
    var b := k.New(t.info[n].service, source);
    var p := k.NewPos(t.info[n].service, b);
    var d := t.fresh'[b][p];
    && t'.tried == t.tried
    && (d == -1 || d in t.info)
    && if d == n then t' == t
       else if d == -1 || t.info[d].IsTerrible(now) || (t.info[d].nRefCount > 1 && t.info[n].nRefCount == 0) then
         && Forget(t'.info) == Cleared(e, d)[n := t.info[n].(nRefCount := t.info[n].nRefCount + 1, nRandomPos := 0)]
         && t'.fresh' == Put(t.fresh', b, p, n)
       else if t.info[n].nRefCount == 0 then Forget(t'.info) == e - {n} && t'.fresh' == t.fresh'
       else t' == t
  }

  lemma PlacedWaits(k: Buckets, t: Tables, n: int, source: NetAddr, now: int, t': Tables, waiting: set<int>,
                    nIdCount: int)
    requires Shaped(t.fresh', NEW_BUCKET_COUNT) && n in t.info && Placed(k, t, n, source, now, t')
    ensures Waiting(k, t, waiting, nIdCount) ==> Waiting(k, t', waiting, nIdCount)
  {
    forall m | m in t'.info
      ensures m in t.info && t'.info[m].service == t.info[m].service
    {
      assert m in Forget(t'.info);
      assert m in Forget(t.info);
      assert Forget(t'.info)[m].service == Forget(t.info)[m].service;
    }
    SameWaits(k, t, t', waiting, nIdCount, nIdCount);
  }

  /** How Add_ refreshes a known entry. */
  function Refreshed(e: AddrInfo, addr: Address, penalty: int, now: int): AddrInfo {
    var interval := if now - addr.nTime < 24 * 60 * 60 then 60 * 60 else 24 * 60 * 60;
    var nTime := if addr.nTime != 0 && (e.nTime == 0 || e.nTime < addr.nTime - interval - penalty)
                 then ToUint32(if addr.nTime - penalty < 0 then 0 else addr.nTime - penalty) else e.nTime;
    e.(nTime := nTime, nServices := e.nServices + addr.nServices)
  }

  /** Add_ never looks for another slot for such an entry. */
  predicate Settled(e: AddrInfo, addr: Address) {
    addr.nTime == 0 || (e.nTime != 0 && addr.nTime <= e.nTime) || e.fInTried || e.nRefCount == NEW_BUCKETS_PER_ADDRESS
  }

  lemma SameTimes(info: Infos, n: int, e: AddrInfo)
    requires n in info && TimeOk(e) == TimeOk(info[n])
    ensures TimesOk(info) ==> TimesOk(info[n := e])
  {
  }

  ghost predicate AddedNew(k: Buckets, t: Tables, addr: Address, source: NetAddr, nTimePenalty: int, now: int, n: int,
                           t': Tables)
    requires Shaped(t.fresh', NEW_BUCKET_COUNT)
  {
    var penalty := if addr.service.addr == source then 0 else nTimePenalty;
    var e := NewInfo(addr, source).(nTime := ToUint32(if addr.nTime - penalty < 0 then 0 else addr.nTime - penalty),
                                    nRandomPos := |t.random|);
    var t1 := t.(info := t.info[n := e], addrs := t.addrs[addr.service.addr := n], random := t.random + [n]);
    Placed(k, t1, n, source, now, t')
  }

  ghost predicate AddedOld(k: Buckets, t: Tables, addr: Address, source: NetAddr, nTimePenalty: int, now: int,
                           t': Tables)
    requires Shaped(t.fresh', NEW_BUCKET_COUNT)
  {
    addr.service.addr in t.addrs && t.addrs[addr.service.addr] in t.info &&
    var n := t.addrs[addr.service.addr];
    var penalty := if addr.service.addr == source then 0 else nTimePenalty;
    var e := Refreshed(t.info[n], addr, penalty, now);
    var t1 := t.(info := t.info[n := e]);
    t' == t1 || (!Settled(e, addr) && Placed(k, t1, n, source, now, t'))
  }

  function ToAddress(e: AddrInfo): Address { Address(e.service, e.nTime, e.nServices) }

  /** The addresses of the entries in `r` that are not terrible, in order. */
  ghost function Picked(e: Infos, r: seq<int>, now: int): seq<Address> {
    if r == [] then []
    else
      var n := r[|r| - 1];
      Picked(e, r[..|r| - 1], now) + if n !in e || e[n].IsTerrible(now) then [] else [ToAddress(e[n])]
  }

  lemma PickedNone(e: Infos, now: int)
    ensures Picked(e, [], now) == []
  {
  }

  lemma PickedMore(e: Infos, r: seq<int>, n: nat, now: int)
    requires n < |r| && r[n] in e
    ensures Picked(e, r[..n + 1], now) ==
            Picked(e, r[..n], now) + if e[r[n]].IsTerrible(now) then [] else [ToAddress(e[r[n]])]
  {
    assert r[..n + 1][..n] == r[..n];
  }

  lemma SwapPrefix(r: seq<int>, n: nat, q: nat)
    requires n <= q < |r|
    ensures r[n := r[q]][q := r[n]][..n] == r[..n]
  {
  }

  ghost predicate DistinctAddrs(v: seq<Address>) {
    forall i, j | 0 <= i < j < |v| :: v[i].service.addr != v[j].service.addr
  }

  ghost predicate Picks(e: Infos, r: seq<int>, now: int, i: int, a: Address)
    requires forall j | 0 <= j < |r| :: r[j] in e
  {
    0 <= i < |r| && !e[r[i]].IsTerrible(now) && a == ToAddress(e[r[i]])
  }

  lemma {:induction false} PickedExactly(e: Infos, r: seq<int>, now: int)
    requires forall i | 0 <= i < |r| :: r[i] in e
    requires forall i, j | 0 <= i < j < |r| :: e[r[i]].service.addr != e[r[j]].service.addr
    ensures forall a | a in Picked(e, r, now) :: exists i :: Picks(e, r, now, i, a)
    ensures forall i | 0 <= i < |r| && !e[r[i]].IsTerrible(now) :: ToAddress(e[r[i]]) in Picked(e, r, now)
    ensures DistinctAddrs(Picked(e, r, now))
  {
    if r != [] {
      var q, l := r[..|r| - 1], |r| - 1;
      PickedExactly(e, q, now);
      var w, v := Picked(e, q, now), Picked(e, r, now);
      forall a | a in v
        ensures exists i :: Picks(e, r, now, i, a)
      {
        if a in w {
          var i :| Picks(e, q, now, i, a);
          assert Picks(e, r, now, i, a);
        } else {
          assert Picks(e, r, now, l, a);
        }
      }
      forall a | a in w
        ensures a.service.addr != e[r[l]].service.addr
      {
        var i :| Picks(e, q, now, i, a);
        assert r[i] == q[i];
      }
      forall i, j | 0 <= i < j < |v|
        ensures v[i].service.addr != v[j].service.addr
      {
        assert v[i] == w[i] && w[i] in w;
        if j < |w| {
          assert v[j] == w[j] && w[i].service.addr != w[j].service.addr;
        } else {
          assert v[j] == ToAddress(e[r[l]]) && w[i].service.addr != e[r[l]].service.addr;
        }
      }
    }
  }

  lemma PickedSame(info: Infos, n: int, now: int)
    requires n in info
    ensures n in Forget(info) && Forget(info)[n].IsTerrible(now) == info[n].IsTerrible(now)
    ensures ToAddress(Forget(info)[n]) == ToAddress(info[n])
  {
  }

  lemma PickedSound(k: Buckets, t: Tables, nIdCount: int, now: int, n: nat)
    requires Linked(k, t, {}, nIdCount) && n <= |t.random|
    ensures var v := Picked(Forget(t.info), t.random[..n], now);
      && (forall a | a in v :: exists m :: m in t.info && !t.info[m].IsTerrible(now) && a == ToAddress(t.info[m]))
      && DistinctAddrs(v)
      && (n == |t.random| ==> forall m | m in t.info && !t.info[m].IsTerrible(now) :: ToAddress(t.info[m]) in v)
  {
    hide TriedLinked, NewLinked, InfoOk, Forget, Picked;
    var e, r := Forget(t.info), t.random[..n];
    ForgetKeys(t.info);
    forall i, j | 0 <= i < j < |r|
      ensures e[r[i]].service.addr != e[r[j]].service.addr
    {
      var a, b := t.random[i], t.random[j];
      assert t.info[a].nRandomPos == i && t.info[b].nRandomPos == j;
      assert t.addrs[t.info[a].service.addr] == a && t.addrs[t.info[b].service.addr] == b;
      ForgetGet(t.info, a);
      ForgetGet(t.info, b);
    }
    PickedExactly(e, r, now);
    forall a | a in Picked(e, r, now)
      ensures exists m :: m in t.info && !t.info[m].IsTerrible(now) && a == ToAddress(t.info[m])
    {
      var i :| Picks(e, r, now, i, a);
      ForgetKeys(t.info);
      PickedSame(t.info, r[i], now);
      assert r[i] in t.info && !t.info[r[i]].IsTerrible(now) && a == ToAddress(t.info[r[i]]);
    }
    if n == |t.random| {
      forall m | m in t.info && !t.info[m].IsTerrible(now)
        ensures ToAddress(t.info[m]) in Picked(e, r, now)
      {
        assert r[t.info[m].nRandomPos] == m;
        PickedSame(t.info, m, now);
      }
    }
  }

  /** What one round of ResolveCollisions_ does for a waiting id `n`. */
  ghost predicate Resolved(k: Buckets, t: Tables, n: int, now: int, erase: bool, t': Tables)
    requires Shaped(t.tried, TRIED_BUCKET_COUNT) && Shaped(t.fresh', NEW_BUCKET_COUNT)
  {
    if n !in t.info || !k.net.valid(t.info[n].service.addr) then erase && t' == t
    else
      var o := t.tried[k.Tried(t.info[n].service)][k.TriedPos(t.info[n].service)];
      if o == -1 then erase && GoodEffect(k, t, n, false, now, t', {}, {})
      else
        o in t.info &&
        if now - t.info[o].nLastSuccess < REPLACEMENT_HOURS * 60 * 60 then erase && t' == t
        else if 60 < now - t.info[o].nLastTry < REPLACEMENT_HOURS * 60 * 60 then
          erase && GoodEffect(k, t, n, false, now, t', {}, {})
        else !erase && t' == t
  }

  /** The rounds of one call, from state to state. */
  ghost predicate ResolvedRun(k: Buckets, t: Tables, ids: seq<int>, now: int, erased: seq<bool>, states: seq<Tables>,
                              t': Tables) {
    && |erased| == |ids| && |states| == |ids| + 1 && states[0] == t && states[|ids|] == t'
    && forall i | 0 <= i < |ids| ::
         && Shaped(states[i].tried, TRIED_BUCKET_COUNT) && Shaped(states[i].fresh', NEW_BUCKET_COUNT)
         && Resolved(k, states[i], ids[i], now, erased[i], states[i + 1])
  }

  ghost function Erased(ids: seq<int>, erased: seq<bool>): set<int> {
    set i | 0 <= i < |ids| && i < |erased| && erased[i] :: ids[i]
  }

  predicate Increasing(ids: seq<int>) { forall i, j | 0 <= i < j < |ids| :: ids[i] < ids[j] }

  /** Of `all`, the ids handled come first, in order, and the rest are larger. */
  ghost predicate Sorting(ids: seq<int>, todo: set<int>, all: set<int>) {
    Increasing(ids) && (set n | n in ids) + todo == all && forall n, x | n in ids && x in todo :: n < x
  }

  lemma ResolvedNone(k: Buckets, now: int, t: Tables, todo: set<int>)
    ensures ResolvedRun(k, t, [], now, [], [t], t) && Erased([], []) == {} && Sorting([], todo, todo)
  {
  }

  lemma ResolvedMore(k: Buckets, t: Tables, ids: seq<int>, now: int, erased: seq<bool>, states: seq<Tables>,
                     s: Tables, n: int, erase: bool, t': Tables)
    requires ResolvedRun(k, t, ids, now, erased, states, s)
    requires Shaped(s.tried, TRIED_BUCKET_COUNT) && Shaped(s.fresh', NEW_BUCKET_COUNT)
             && Resolved(k, s, n, now, erase, t')
    ensures ResolvedRun(k, t, ids + [n], now, erased + [erase], states + [t'], t')
    ensures Erased(ids + [n], erased + [erase]) == Erased(ids, erased) + if erase then {n} else {}
  {
    hide Resolved;
    var ids', erased' := ids + [n], erased + [erase];
    forall m
      ensures m in Erased(ids', erased') <==> m in Erased(ids, erased) || (erase && m == n)
    {
      if m in Erased(ids, erased) {
        var i :| 0 <= i < |ids| && erased[i] && ids[i] == m;
        assert erased'[i] && ids'[i] == m;
      }
      if erase && m == n {
        assert erased'[|ids|] && ids'[|ids|] == m;
      }
    }
  }

  lemma SortingStep(ids: seq<int>, todo: set<int>, all: set<int>, n: int)
    requires Sorting(ids, todo, all) && n in todo && forall x | x in todo :: n <= x
    ensures Sorting(ids + [n], todo - {n}, all)
  {
    assert (set m | m in ids + [n]) == (set m | m in ids) + {n};
    assert forall i | 0 <= i < |ids| :: ids[i] in ids;
  }

  lemma SortingEnd(ids: seq<int>, all: set<int>)
    requires Sorting(ids, {}, all)
    ensures Increasing(ids) && (set n | n in ids) == all
  {
  }

  lemma {:induction false} Smallest(s: set<int>)
    requires s != {}
    ensures exists n :: n in s && forall x | x in s :: n <= x
    decreases |s|
  {
    SomeMember(s);
    var n :| n in s;
    if s != {n} {
      Smallest(s - {n});
      var m :| m in s - {n} && forall x | x in s - {n} :: m <= x;
      var least := if m < n then m else n;
      forall x | x in s
        ensures least <= x
      {
        assert x == n || x in s - {n};
      }
    }
  }

  lemma NoNewWait(k: Buckets, t: Tables, n: int, now: int, t': Tables, waiting: set<int>, waiting': set<int>)
    requires Shaped(t.tried, TRIED_BUCKET_COUNT) && Shaped(t.fresh', NEW_BUCKET_COUNT) && n in t.info
    requires GoodEffect(k, t, n, false, now, t', waiting, waiting')
    ensures GoodEffect(k, t, n, false, now, t', {}, {}) && waiting' == waiting
  {
  }

  lemma FewerWait(k: Buckets, t: Tables, waiting: set<int>, nIdCount: int, n: int)
    ensures Waiting(k, t, waiting, nIdCount) ==> Waiting(k, t, waiting - {n}, nIdCount)
  {
  }

  function TriedSlot(k: Buckets, t: Table, s: Service): int
    requires Shaped(t, TRIED_BUCKET_COUNT)
  {
    t[k.Tried(s)][k.TriedPos(s)]
  }

  class AddrMan {
    const net: Net
    var nKey: Key
    var nIdCount: int
    var mapInfo: Infos
    var mapAddr: map<NetAddr, int>
    var vRandom: seq<int>
    var nTried: int
    var vvTried: Table
    var nNew: int
    var vvNew: Table
    var nLastGood: int
    var triedCollisions: set<int>

    function Keyed(): Buckets reads this { Buckets(net, nKey) }

    ghost function State(): Tables reads this { Tables(mapInfo, mapAddr, vRandom, vvTried, vvNew) }

    /** Every redundant structure agrees with every other; ids in `loose` are in no table. */
    ghost predicate Linked(loose: set<int>)
      reads this
    {
      AddrManTables.Linked(Keyed(), State(), loose, nIdCount)
    }

    ghost predicate Consistent()
      reads this
    {
      Linked({}) && nTried == |TriedIds(mapInfo)| && nNew == |NewIds(mapInfo)|
    }

    /** What Check_ tests. */
    ghost predicate Checked()
      reads this
    {
      Consistent() && TimesOk(mapInfo)
    }

    /** The waiting collisions are real ones. */
    ghost predicate CollisionsOk()
      reads this
    {
      Waiting(Keyed(), State(), triedCollisions, nIdCount)
    }

    ghost function Entries(): Infos reads this { Forget(mapInfo) }

    constructor (net: Net, key: Key)
      ensures this.net == net && nKey == key
      ensures Checked() && CollisionsOk() && State() == NoTables() && nIdCount == 0 && triedCollisions == {}
              && nLastGood == 1
    {
      this.net := net;
      nKey := key;
      nIdCount, nTried, nNew, nLastGood := 0, 0, 0, 1;
      mapInfo, mapAddr, vRandom, triedCollisions := map[], map[], [], {};
      vvNew, vvTried := Empty(NEW_BUCKET_COUNT), Empty(TRIED_BUCKET_COUNT);
    }

    method Find(addr: NetAddr) returns (nId: int)
      requires Linked({})
      ensures nId == -1 <==> addr !in mapAddr
      ensures nId != -1 ==> nId == mapAddr[addr] && nId in mapInfo && mapInfo[nId].service.addr == addr
    {
      hide TriedLinked, NewLinked;
      nId := if addr in mapAddr && mapAddr[addr] in mapInfo then mapAddr[addr] else -1;
    }

    method Create(addr: Address, source: NetAddr, ghost loose: set<int>) returns (nId: int)
      requires Linked(loose) && addr.service.addr !in mapAddr
      modifies `nIdCount, `mapInfo, `mapAddr, `vRandom
      ensures nId == old(nIdCount) && nId !in old(mapInfo) && nIdCount == old(nIdCount) + 1
      ensures mapInfo == old(mapInfo)[nId := NewInfo(addr, source).(nRandomPos := |old(vRandom)|)]
      ensures mapAddr == old(mapAddr)[addr.service.addr := nId] && vRandom == old(vRandom) + [nId]
      ensures Linked(loose + {nId})
    {
      hide AddrManTables.Linked;
      AddLoose(Keyed(), State(), loose, nIdCount, NewInfo(addr, source).(nRandomPos := |vRandom|));
      nId := nIdCount;
      nIdCount := nIdCount + 1;
      mapInfo := mapInfo[nId := NewInfo(addr, source)];
      mapAddr := mapAddr[addr.service.addr := nId];
      mapInfo := mapInfo[nId := mapInfo[nId].(nRandomPos := |vRandom|)];
      vRandom := vRandom + [nId];
    }

    method SwapRandom(pos1: nat, pos2: nat)
      requires RandomLinked(mapInfo, vRandom) && pos1 < |vRandom| && pos2 < |vRandom|
      modifies `mapInfo, `vRandom
      ensures RandomLinked(mapInfo, vRandom)
      ensures vRandom == old(vRandom)[pos1 := old(vRandom)[pos2]][pos2 := old(vRandom)[pos1]]
      ensures Entries() == old(Entries())
    {
      if pos1 == pos2 {
        return;
      }
      var id1, id2 := vRandom[pos1], vRandom[pos2];
      mapInfo := mapInfo[id1 := mapInfo[id1].(nRandomPos := pos2)];
      mapInfo := mapInfo[id2 := mapInfo[id2].(nRandomPos := pos1)];
      vRandom := vRandom[pos1 := id2];
      vRandom := vRandom[pos2 := id1];
    }

    method Delete(nId: int, ghost loose: set<int>)
      requires RandomLinked(mapInfo, vRandom) && nId in mapInfo && !mapInfo[nId].fInTried && mapInfo[nId].nRefCount == 0
      modifies `mapInfo, `mapAddr, `vRandom, `nNew
      ensures RandomLinked(mapInfo, vRandom)
      ensures Entries() == old(Entries()) - {nId} && mapAddr == old(mapAddr) - {old(mapInfo)[nId].service.addr}
      ensures nNew == old(nNew) - 1
      ensures old(Linked(loose)) && nId in loose ==>
                && Linked(loose - {nId})
                && NewIds(mapInfo) == old(NewIds(mapInfo)) - {nId} && nId in old(NewIds(mapInfo))
                && TriedIds(mapInfo) == old(TriedIds(mapInfo))
    {
      hide AddrManTables.Linked, NewIds, TriedIds, Forget;
      ghost var t := State();
      SwapRandom(mapInfo[nId].nRandomPos, |vRandom| - 1);
      assert mapInfo[vRandom[|vRandom| - 1]].nRandomPos == |vRandom| - 1;
      SameServices(t.info, mapInfo);
      if AddrManTables.Linked(Keyed(), t, loose, nIdCount) && nId in loose {
        PositionFree(Keyed(), t, mapInfo, vRandom, loose, nIdCount);
        DropLoose(Keyed(), State(), loose, nIdCount, nId);
      }
      ForgetDrop(mapInfo, vRandom, nId);
      vRandom := vRandom[..|vRandom| - 1];
      mapAddr := mapAddr - {mapInfo[nId].service.addr};
      mapInfo := mapInfo - {nId};
      nNew := nNew - 1;
    }

    method ClearNew(b: nat, p: nat, ghost loose: set<int>)
      requires Linked(loose) && b < NEW_BUCKET_COUNT && p < BUCKET_SIZE
      modifies `mapInfo, `mapAddr, `vRandom, `nNew, `vvNew
      ensures Linked(loose)
      ensures old(vvNew)[b][p] == -1 || (old(vvNew)[b][p] in old(Entries()) && old(vvNew)[b][p] !in loose)
      ensures Entries() == Cleared(old(Entries()), old(vvNew)[b][p])
      ensures vvNew == Put(old(vvNew), b, p, -1)
      ensures nNew - |NewIds(mapInfo)| == old(nNew - |NewIds(mapInfo)|)
      ensures TriedIds(mapInfo) == old(TriedIds(mapInfo))
    {
      hide AddrManTables.Linked, NewIds, TriedIds, Forget, Put;
      LinkedShape(Keyed(), State(), loose, nIdCount);
      if vvNew[b][p] != -1 {
        var d := vvNew[b][p];
        LoosenSlot(Keyed(), State(), loose, nIdCount, b, p);
        assert mapInfo[d].nRefCount > 0;
        mapInfo := mapInfo[d := mapInfo[d].(nRefCount := mapInfo[d].nRefCount - 1)];
        vvNew := Put(vvNew, b, p, -1);
        if mapInfo[d].nRefCount == 0 {
          Delete(d, loose + {d});
          assert loose + {d} - {d} == loose;
        }
      } else {
        PutSame(vvNew, b, p);
      }
    }

    /** The first loop of MakeTried: entry `nId` leaves every new bucket. */
    method LeaveNew(nId: int)
      requires Linked({}) && nId in mapInfo && !mapInfo[nId].fInTried
      modifies `mapInfo, `vvNew
      ensures Linked({nId})
      ensures mapInfo == old(mapInfo)[nId := old(mapInfo)[nId].(nRefCount := 0)]
      ensures vvNew == Without(old(vvNew), nId)
    {
      hide AddrManTables.Linked;
      var k := Keyed();
      LinkedShape(k, State(), {}, nIdCount);
      Referenced(k, State(), {}, nIdCount, nId);
      for bucket := 0 to NEW_BUCKET_COUNT
        invariant nId in mapInfo
        invariant mapInfo == old(mapInfo)[nId := old(mapInfo)[nId].(nRefCount := mapInfo[nId].nRefCount)]
        invariant Linked(if mapInfo[nId].nRefCount == 0 then {nId} else {})
        invariant Shaped(vvNew, NEW_BUCKET_COUNT)
        invariant forall b | 0 <= b < bucket :: vvNew[b] == Without([old(vvNew)[b]], nId)[0]
        invariant forall b | bucket <= b < NEW_BUCKET_COUNT :: vvNew[b] == old(vvNew)[b]
      {
        var pos := k.NewPos(mapInfo[nId].service, bucket);
        ghost var loose := if mapInfo[nId].nRefCount == 0 then {nId} else {};
        LeaveBucket(k, State(), loose, nIdCount, nId, bucket);
        if vvNew[bucket][pos] == nId {
          LoosenSlot(k, State(), loose, nIdCount, bucket, pos);
          assert loose + {nId} == {nId} && loose == {};
          vvNew := Put(vvNew, bucket, pos, -1);
          mapInfo := mapInfo[nId := mapInfo[nId].(nRefCount := mapInfo[nId].nRefCount - 1)];
        }
      }
      assert vvNew == Without(old(vvNew), nId);
      Unheld(k, State(), if mapInfo[nId].nRefCount == 0 then {nId} else {}, nIdCount, nId);
    }

    method MakeTried(nId: int)
      requires Linked({}) && nId in mapInfo && !mapInfo[nId].fInTried
      modifies `mapInfo, `mapAddr, `vRandom, `nNew, `nTried, `vvNew, `vvTried
      ensures Linked({})
      ensures nNew - |NewIds(mapInfo)| == old(nNew - |NewIds(mapInfo)|)
      ensures nTried - |TriedIds(mapInfo)| == old(nTried - |TriedIds(mapInfo)|)
      ensures MadeTried(Keyed(), old(State()), nId, State())
    {
      hide AddrManTables.Linked, Put, Forget, Cleared, TriedIds, NewIds, MadeRoom, MadeTried;
      var k := Keyed();
      ghost var t0 := State();
      LinkedShape(k, t0, {}, nIdCount);
      Referenced(k, t0, {}, nIdCount, nId);
      LeaveNew(nId);
      ghost var t1 := State();
      nNew := nNew - 1;
      CountUpdate(t0.info, nId, mapInfo[nId]);
      assert mapInfo[nId].nRefCount == 0;

      var kb, kp := k.Tried(mapInfo[nId].service), k.TriedPos(mapInfo[nId].service);
      if vvTried[kb][kp] != -1 {
        OccupantTried(k, t0, {}, nIdCount, kb, kp);
        MakeRoom(nId, kb, kp);
        PutGet(t0.tried, kb, kp, -1);
      }
      assert vvTried[kb][kp] == -1;
      LinkedShape(k, State(), {nId}, nIdCount);
      TightenTried(k, State(), {nId}, nIdCount, nId);
      CountUpdate(mapInfo, nId, mapInfo[nId].(fInTried := true));
      assert {nId} - {nId} == {};
      ghost var t2 := State();
      vvTried := Put(vvTried, kb, kp, nId);
      nTried := nTried + 1;
      mapInfo := mapInfo[nId := mapInfo[nId].(fInTried := true)];
      MadeTriedInSteps(k, t0, nId, t1, t2, State());
    }

    /** The second half of MakeTried: the occupant of a tried slot moves to the new table,
        deleting whatever is in its place there. */
    method MakeRoom(ghost nId: int, kb: nat, kp: nat)
      requires Linked({nId}) && nId in mapInfo && kb < TRIED_BUCKET_COUNT && kp < BUCKET_SIZE && vvTried[kb][kp] != -1
      modifies `mapInfo, `mapAddr, `vRandom, `nNew, `nTried, `vvNew, `vvTried
      ensures Linked({nId}) && nId in mapInfo
      ensures mapInfo[nId].(nRandomPos := 0) == old(mapInfo)[nId].(nRandomPos := 0)
      ensures nNew - |NewIds(mapInfo)| == old(nNew - |NewIds(mapInfo)|)
      ensures nTried - |TriedIds(mapInfo)| == old(nTried - |TriedIds(mapInfo)|)
      ensures vvTried == Put(old(vvTried), kb, kp, -1) && MadeRoom(Keyed(), old(State()), kb, kp, State())
    {
      hide AddrManTables.Linked, Put, Forget, Cleared, TriedIds, NewIds, MadeRoom, MadeTried;
      var k := Keyed();
      ghost var t0 := State();
      LinkedShape(k, t0, {nId}, nIdCount);
      OccupantTried(k, State(), {nId}, nIdCount, kb, kp);
      var nIdEvict := vvTried[kb][kp];
      LoosenTried(k, State(), {nId}, nIdCount, nIdEvict);
      CountUpdate(mapInfo, nIdEvict, mapInfo[nIdEvict].(fInTried := false));
      mapInfo := mapInfo[nIdEvict := mapInfo[nIdEvict].(fInTried := false)];
      vvTried := Put(vvTried, kb, kp, -1);
      nTried := nTried - 1;

      ghost var t1 := State();
      var ub := k.New(mapInfo[nIdEvict].service, mapInfo[nIdEvict].source);
      var up := k.NewPos(mapInfo[nIdEvict].service, ub);
      ClearNew(ub, up, {nId} + {nIdEvict});
      PutGet(old(vvNew), ub, up, -1);
      assert vvNew[ub][up] == -1;
      ClearedKeeps(mapInfo, t1.info, t1.fresh'[ub][up], nIdEvict);
      ClearedKeeps(mapInfo, t1.info, t1.fresh'[ub][up], nId);

      TightenNew(k, State(), {nId} + {nIdEvict}, nIdCount, nIdEvict, ub);
      LinkedShape(k, State(), {nId} + {nIdEvict}, nIdCount);
      CountUpdate(mapInfo, nIdEvict, mapInfo[nIdEvict].(nRefCount := 1));
      ghost var t2 := State();
      mapInfo := mapInfo[nIdEvict := mapInfo[nIdEvict].(nRefCount := 1)];
      vvNew := Put(vvNew, ub, up, nIdEvict);
      nNew := nNew + 1;
      MadeRoomInSteps(k, t0, kb, kp, t1, t2, State());
    }

    /** Good_: an address answered at `nTime`. */
    method Good(addr: Service, testBeforeEvict: bool, nTime: int)
      requires Consistent()
      modifies this
      ensures Consistent() && (old(CollisionsOk()) ==> CollisionsOk())
      ensures old(TimesOk(mapInfo)) ==>
                (TimesOk(mapInfo) <==>
                   !Knows(old(State()), addr) || nTime > 0 ||
                   (nTime == 0 && Waits(Keyed(), old(State()), old(mapAddr)[addr.addr], testBeforeEvict)))
      ensures nKey == old(nKey) && nIdCount == old(nIdCount) && nLastGood == nTime
      ensures !Knows(old(State()), addr) ==> State() == old(State()) && triedCollisions == old(triedCollisions)
      ensures Knows(old(State()), addr) ==>
                GoodEffect(Keyed(), old(State()), old(mapAddr)[addr.addr], testBeforeEvict, nTime, State(),
                           old(triedCollisions), triedCollisions)
    {
      hide AddrManTables.Linked, Put, Forget, TriedIds, NewIds, MadeTried, Waiting, TimesOk;
      var k := Keyed();
      ghost var t0 := State();
      LinkedShape(k, t0, {}, nIdCount);
      nLastGood := nTime;
      var nId := Find(addr.addr);
      if nId == -1 {
        return;
      }
      if mapInfo[nId].service != addr {
        return;
      }
      var e := mapInfo[nId].(nLastSuccess := nTime, nLastTry := nTime, nAttempts := 0);
      Restat(k, t0, {}, nIdCount, nId, e);
      CountUpdate(mapInfo, nId, e);
      mapInfo := mapInfo[nId := e];
      SameWaits(k, t0, State(), triedCollisions, nIdCount, nIdCount);
      if !mapInfo[nId].fInTried {
        Promote(nId, testBeforeEvict);
      }
      if TimesOk(t0.info) {
        GoodTimes(k, t0, nId, testBeforeEvict, nTime, State(), old(triedCollisions), triedCollisions);
      }
    }

    /** The last part of Good_: an entry not yet in tried moves there, or waits when that would evict another. */
    method Promote(nId: int, testBeforeEvict: bool)
      requires Consistent() && nId in mapInfo && !mapInfo[nId].fInTried
      modifies `mapInfo, `mapAddr, `vRandom, `nNew, `nTried, `vvNew, `vvTried, `triedCollisions
      ensures Consistent() && (old(CollisionsOk()) ==> CollisionsOk())
      ensures Shaped(old(vvTried), TRIED_BUCKET_COUNT) && Shaped(old(vvNew), NEW_BUCKET_COUNT)
      ensures var k, a := Keyed(), old(mapInfo)[nId].service;
              if testBeforeEvict && old(vvTried)[k.Tried(a)][k.TriedPos(a)] != -1 then
                && State() == old(State())
                && triedCollisions ==
                   if |old(triedCollisions)| < SET_TRIED_COLLISION_SIZE then old(triedCollisions) + {nId}
                   else old(triedCollisions)
              else MadeTried(k, old(State()), nId, State()) && triedCollisions == old(triedCollisions)
    {
      hide AddrManTables.Linked, Put, Forget, TriedIds, NewIds, MadeTried, Waiting;
      var k := Keyed();
      ghost var t := State();
      LinkedShape(k, t, {}, nIdCount);
      // The source gives up here when no bucket is found; that never happens.
      var nUBucket := FindNewBucket(nId);
      var kb, kp := k.Tried(mapInfo[nId].service), k.TriedPos(mapInfo[nId].service);
      if testBeforeEvict && vvTried[kb][kp] != -1 {
        Referenced(k, t, {}, nIdCount, nId);
        OneMoreWaits(k, State(), triedCollisions, nIdCount, nId);
        if |triedCollisions| < SET_TRIED_COLLISION_SIZE {
          triedCollisions := triedCollisions + {nId};
        }
      } else {
        MakeTried(nId);
        MadeTriedWaits(k, t, nId, State(), triedCollisions, nIdCount);
      }
    }

    /** The search loop of Good_, from a random bucket on: an entry that is not in tried is in some bucket. */
    method FindNewBucket(nId: int) returns (nUBucket: int)
      requires Linked({}) && nId in mapInfo && !mapInfo[nId].fInTried
      ensures 0 <= nUBucket < NEW_BUCKET_COUNT
      ensures Shaped(vvNew, NEW_BUCKET_COUNT) && vvNew[nUBucket][Keyed().NewPos(mapInfo[nId].service, nUBucket)] == nId
    {
      hide AddrManTables.Linked;
      var k := Keyed();
      LinkedShape(k, State(), {}, nIdCount);
      var nRnd :| 0 <= nRnd < NEW_BUCKET_COUNT;
      nUBucket := -1;
      var n := 0;
      while n < NEW_BUCKET_COUNT
        invariant 0 <= n <= NEW_BUCKET_COUNT && nUBucket == -1
        invariant forall m | 0 <= m < n :: !HeldAt(k, vvNew, mapInfo[nId].service, nId, Probe(m, nRnd))
      {
        var nB := Probe(n, nRnd);
        if HeldAt(k, vvNew, mapInfo[nId].service, nId, nB) {
          nUBucket := nB;
          break;
        }
        n := n + 1;
      }
      if nUBucket == -1 {
        forall b | 0 <= b < NEW_BUCKET_COUNT
          ensures vvNew[b][k.NewPos(mapInfo[nId].service, b)] != nId
        {
          var m := if b >= nRnd then b - nRnd else b + NEW_BUCKET_COUNT - nRnd;
          assert Probe(m, nRnd) == b;
        }
        Unheld(k, State(), {}, nIdCount, nId);
        Referenced(k, State(), {}, nIdCount, nId);
        assert false;
      }
    }

    method PlaceNew(nId: int, source: NetAddr, now: int)
      requires nId in mapInfo && !mapInfo[nId].fInTried && mapInfo[nId].nRefCount < NEW_BUCKETS_PER_ADDRESS
      requires Linked(if mapInfo[nId].nRefCount == 0 then {nId} else {})
      modifies `mapInfo, `mapAddr, `vRandom, `nNew, `vvNew
      ensures Linked({})
      ensures nNew - |NewIds(mapInfo)| == old(nNew - |NewIds(mapInfo)|)
      ensures TriedIds(mapInfo) == old(TriedIds(mapInfo))
      ensures Placed(Keyed(), old(State()), nId, source, now, State())
    {
      hide AddrManTables.Linked, RandomLinked, Put, Forget, TriedIds, NewIds;
      var k := Keyed();
      ghost var t0 := State();
      ghost var loose := if mapInfo[nId].nRefCount == 0 then {nId} else {};
      LinkedShape(k, t0, loose, nIdCount);
      var b := k.New(mapInfo[nId].service, source);
      var p := k.NewPos(mapInfo[nId].service, b);
      var d := vvNew[b][p];
      if d != -1 {
        OccupantNew(k, t0, loose, nIdCount, b, p);
      }
      if d != nId {
        var fInsert := d == -1;
        if !fInsert {
          if mapInfo[d].IsTerrible(now) || (mapInfo[d].nRefCount > 1 && mapInfo[nId].nRefCount == 0) {
            fInsert := true;
          }
        }
        if fInsert {
          TakeNew(nId, b, p, loose);
        } else if mapInfo[nId].nRefCount == 0 {
          LinkedRandom(k, t0, loose, nIdCount);
          assert loose - {nId} == {};
          Delete(nId, loose);
        } else {
          assert loose == {};
        }
      }
    }

    /** Clears a slot of the new table and gives it to an entry. */
    method TakeNew(nId: int, b: nat, p: nat, ghost loose: set<int>)
      requires nId in mapInfo && !mapInfo[nId].fInTried && mapInfo[nId].nRefCount < NEW_BUCKETS_PER_ADDRESS
      requires Linked(loose) && loose == (if mapInfo[nId].nRefCount == 0 then {nId} else {})
      requires b < NEW_BUCKET_COUNT && p == Keyed().NewPos(mapInfo[nId].service, b) && p < BUCKET_SIZE
               && Shaped(vvNew, NEW_BUCKET_COUNT) && vvNew[b][p] != nId
      modifies `mapInfo, `mapAddr, `vRandom, `nNew, `vvNew
      ensures Linked({})
      ensures nNew - |NewIds(mapInfo)| == old(nNew - |NewIds(mapInfo)|)
      ensures TriedIds(mapInfo) == old(TriedIds(mapInfo))
      ensures var e := old(mapInfo)[nId];
              Forget(mapInfo) == Cleared(Forget(old(mapInfo)), old(vvNew[b][p]))
                                 [nId := e.(nRefCount := e.nRefCount + 1, nRandomPos := 0)]
      ensures vvNew == Put(old(vvNew), b, p, nId)
    {
      hide AddrManTables.Linked, RandomLinked, Put, Forget, TriedIds, NewIds, Cleared;
      var k := Keyed();
      ghost var t0 := State();
      ghost var d := vvNew[b][p];
      ClearNew(b, p, loose);
      PutGet(t0.fresh', b, p, -1);
      ClearedKeeps(mapInfo, t0.info, d, nId);
      TightenNew(k, State(), loose, nIdCount, nId, b);
      assert loose - {nId} == {};
      var e := mapInfo[nId].(nRefCount := mapInfo[nId].nRefCount + 1);
      SameStatus(mapInfo, nId, e);
      ForgetUpdate(mapInfo, nId, e);
      PutTwice(t0.fresh', b, p, -1, nId);
      mapInfo := mapInfo[nId := e];
      vvNew := Put(vvNew, b, p, nId);
    }

    /** Add_: an address heard of from `source`. */
    method Add(addr: Address, source: NetAddr, nTimePenalty: int, now: int) returns (fNew: bool)
      requires Consistent()
      modifies this
      ensures Consistent() && (old(CollisionsOk()) ==> CollisionsOk())
      ensures old(TimesOk(mapInfo)) ==> TimesOk(mapInfo)
      ensures nKey == old(nKey) && nLastGood == old(nLastGood) && triedCollisions == old(triedCollisions)
      ensures nIdCount == old(nIdCount) + if fNew then 1 else 0
      ensures fNew <==> net.routable(addr.service.addr) && addr.service.addr !in old(mapAddr)
      ensures !net.routable(addr.service.addr) ==> State() == old(State())
      ensures fNew ==> AddedNew(Keyed(), old(State()), addr, source, nTimePenalty, now, old(nIdCount), State())
      ensures net.routable(addr.service.addr) && !fNew ==>
                AddedOld(Keyed(), old(State()), addr, source, nTimePenalty, now, State())
    {
      hide AddrManTables.Linked, Forget, TriedIds, NewIds, Placed, Waiting, Refreshed, Settled, ToUint32, TimesOk;
      if !net.routable(addr.service.addr) {
        return false;
      }
      fNew := false;
      var k := Keyed();
      ghost var t0 := State();
      LinkedShape(k, t0, {}, nIdCount);
      var nId := Find(addr.service.addr);
      var penalty := if addr.service.addr == source then 0 else nTimePenalty;
      if nId != -1 {
        var again := Refresh(nId, addr, penalty, now);
        if !again {
          return;
        }
      } else {
        nId := Register(addr, source, penalty);
        fNew := true;
      }
      ghost var t1 := State();
      PlaceNew(nId, source, now);
      PlacedWaits(k, t1, nId, source, now, State(), triedCollisions, nIdCount);
      PlacedTimes(k, t1, nId, source, now, State());
    }

    /** The branch of Add_ for a known address. */
    method Refresh(nId: int, addr: Address, penalty: int, now: int) returns (again: bool)
      requires Consistent() && nId in mapInfo
      modifies `mapInfo
      ensures Consistent() && (old(CollisionsOk()) ==> CollisionsOk())
      ensures old(TimesOk(mapInfo)) ==> TimesOk(mapInfo)
      ensures mapInfo == old(mapInfo)[nId := Refreshed(old(mapInfo)[nId], addr, penalty, now)]
      ensures again ==> !Settled(mapInfo[nId], addr)
                        && !mapInfo[nId].fInTried && 0 < mapInfo[nId].nRefCount < NEW_BUCKETS_PER_ADDRESS
    {
      hide AddrManTables.Linked, TriedIds, NewIds, Waiting;
      var k := Keyed();
      ghost var t0 := State();
      var e := Refreshed(mapInfo[nId], addr, penalty, now);
      SameTimes(mapInfo, nId, e);
      Restat(k, t0, {}, nIdCount, nId, e);
      SameStatus(mapInfo, nId, e);
      mapInfo := mapInfo[nId := e];
      SameWaits(k, t0, State(), triedCollisions, nIdCount, nIdCount);
      Referenced(k, State(), {}, nIdCount, nId);
      RefCountBound(k, State(), {}, nIdCount, nId);
      if Settled(e, addr) {
        return false;
      }
      var draw: nat := *;
      again := Retry(e.nRefCount, draw);
    }

    /** The branch of Add_ for an unknown address. */
    method Register(addr: Address, source: NetAddr, penalty: int) returns (nId: int)
      requires Consistent() && addr.service.addr !in mapAddr
      modifies `nIdCount, `mapInfo, `mapAddr, `vRandom, `nNew
      ensures nId == old(nIdCount) && nId !in old(mapInfo) && nIdCount == old(nIdCount) + 1
      ensures var nTime := ToUint32(if addr.nTime - penalty < 0 then 0 else addr.nTime - penalty);
              var e := NewInfo(addr, source).(nTime := nTime, nRandomPos := |old(vRandom)|);
              mapInfo == old(mapInfo)[nId := e]
      ensures mapAddr == old(mapAddr)[addr.service.addr := nId] && vRandom == old(vRandom) + [nId]
      ensures Linked({nId}) && nTried == |TriedIds(mapInfo)| && nNew == |NewIds(mapInfo)|
      ensures old(TimesOk(mapInfo)) ==> TimesOk(mapInfo)
      ensures old(CollisionsOk()) ==> CollisionsOk()
    {
      hide AddrManTables.Linked, TriedIds, NewIds, Waiting, TimesOk;
      var k := Keyed();
      ghost var t0 := State();
      LinkedShape(k, t0, {}, nIdCount);
      nId := Create(addr, source, {});
      var e := mapInfo[nId];
      e := e.(nTime := ToUint32(if e.nTime - penalty < 0 then 0 else e.nTime - penalty));
      Restat(k, State(), {} + {nId}, nIdCount, nId, e);
      OneMoreNew(t0.info, nId, e);
      mapInfo := mapInfo[nId := e];
      assert mapInfo == t0.info[nId := e];
      if TimesOk(t0.info) {
        TimesUpdate(t0.info, nId, e);
      }
      nNew := nNew + 1;
      SameWaits(k, t0, State(), triedCollisions, old(nIdCount), nIdCount);
      assert {} + {nId} == {nId};
    }

    /** The stochastic test of Add_: another reference is 2^nRefCount times harder to get. RandomInt is `draw` reduced
        to its range. */
    method Retry(nRefCount: int, draw: nat) returns (again: bool)
      ensures again <==> draw % Pow2(Max(nRefCount, 0)) == 0
    {
      var nFactor := 1;
      UnitPow();
      for n := 0 to Max(nRefCount, 0)
        invariant nFactor == Pow2(n)
      {
        nFactor := nFactor * 2;
      }
      again := true;
      if nFactor > 1 && draw % nFactor != 0 {
        again := false;
      }
    }

    /** Attempt_: a connection to `addr` was tried at `nTime`. */
    method Attempt(addr: Service, fCountFailure: bool, nTime: int)
      requires Consistent()
      modifies `mapInfo
      ensures Consistent() && (old(CollisionsOk()) ==> CollisionsOk())
      ensures old(TimesOk(mapInfo)) ==> (TimesOk(mapInfo) <==> !Knows(old(State()), addr) || nTime >= 0)
      ensures if Knows(old(State()), addr) then
                var n := mapAddr[addr.addr];
                var e := old(mapInfo)[n];
                mapInfo == old(mapInfo)[
                             n := if fCountFailure && e.nLastCountAttempt < nLastGood
                                  then e.(nLastTry := nTime, nLastCountAttempt := nTime, nAttempts := e.nAttempts + 1)
                                  else e.(nLastTry := nTime)]
              else mapInfo == old(mapInfo)
    {
      hide AddrManTables.Linked, TriedIds, NewIds, Waiting;
      var nId := Find(addr.addr);
      if nId == -1 {
        return;
      }
      if mapInfo[nId].service != addr {
        return;
      }
      var e := mapInfo[nId].(nLastTry := nTime);
      if fCountFailure && e.nLastCountAttempt < nLastGood {
        e := e.(nLastCountAttempt := nTime, nAttempts := e.nAttempts + 1);
      }
      SetStats(nId, e);
    }

    /** Connected_: `addr` is connected at `nTime`. */
    method Connected(addr: Service, nTime: int)
      requires Consistent()
      modifies `mapInfo
      ensures Consistent() && (old(CollisionsOk()) ==> CollisionsOk())
      ensures old(TimesOk(mapInfo)) ==> TimesOk(mapInfo)
      ensures if Knows(old(State()), addr) && nTime - old(mapInfo)[mapAddr[addr.addr]].nTime > 20 * 60 then
                var n := mapAddr[addr.addr];
                mapInfo == old(mapInfo)[n := old(mapInfo)[n].(nTime := ToUint32(nTime))]
              else mapInfo == old(mapInfo)
    {
      hide AddrManTables.Linked, TriedIds, NewIds, Waiting;
      var nId := Find(addr.addr);
      if nId == -1 {
        return;
      }
      if mapInfo[nId].service != addr {
        return;
      }
      if nTime - mapInfo[nId].nTime > 20 * 60 {
        SetStats(nId, mapInfo[nId].(nTime := ToUint32(nTime)));
      }
    }

    /** SetServices_: the service bits of `addr` became known. */
    method SetServices(addr: Service, nServices: set<nat>)
      requires Consistent()
      modifies `mapInfo
      ensures Consistent() && (old(CollisionsOk()) ==> CollisionsOk())
      ensures old(TimesOk(mapInfo)) ==> TimesOk(mapInfo)
      ensures if Knows(old(State()), addr) then
                var n := mapAddr[addr.addr];
                mapInfo == old(mapInfo)[n := old(mapInfo)[n].(nServices := nServices)]
              else mapInfo == old(mapInfo)
    {
      hide AddrManTables.Linked, TriedIds, NewIds, Waiting;
      var nId := Find(addr.addr);
      if nId == -1 {
        return;
      }
      if mapInfo[nId].service != addr {
        return;
      }
      SetStats(nId, mapInfo[nId].(nServices := nServices));
    }

    method SetStats(nId: int, e: AddrInfo)
      requires Consistent() && nId in mapInfo
      requires e.service == mapInfo[nId].service && e.nRefCount == mapInfo[nId].nRefCount
      requires e.fInTried == mapInfo[nId].fInTried && e.nRandomPos == mapInfo[nId].nRandomPos
      modifies `mapInfo
      ensures Consistent() && (old(CollisionsOk()) ==> CollisionsOk())
      ensures old(TimesOk(mapInfo)) ==> (TimesOk(mapInfo) <==> TimeOk(e))
      ensures mapInfo == old(mapInfo)[nId := e]
    {
      hide AddrManTables.Linked, TriedIds, NewIds, Waiting, TimesOk;
      ghost var t0 := State();
      Restat(Keyed(), t0, {}, nIdCount, nId, e);
      SameStatus(mapInfo, nId, e);
      mapInfo := mapInfo[nId := e];
      SameWaits(Keyed(), t0, State(), triedCollisions, nIdCount, nIdCount);
      if TimesOk(t0.info) {
        TimesUpdate(t0.info, nId, e);
      }
    }

    /** GetAddr_: a random selection of the addresses that are not terrible. */
    method GetAddr(now: int) returns (vAddr: seq<Address>)
      requires Consistent()
      modifies `mapInfo, `vRandom
      ensures Consistent() && (old(CollisionsOk()) ==> CollisionsOk())
      ensures old(TimesOk(mapInfo)) ==> TimesOk(mapInfo)
      ensures Entries() == old(Entries())
      ensures |vAddr| <= GETADDR_MAX && |vAddr| <= GETADDR_MAX_PCT * |mapInfo| / 100
      ensures forall a | a in vAddr ::
                exists n :: n in mapInfo && !mapInfo[n].IsTerrible(now) && a == ToAddress(mapInfo[n])
      ensures DistinctAddrs(vAddr)
      ensures |vAddr| < GETADDR_MAX && |vAddr| < GETADDR_MAX_PCT * |mapInfo| / 100 ==>
                forall n | n in mapInfo && !mapInfo[n].IsTerrible(now) :: ToAddress(mapInfo[n]) in vAddr
    {
      hide AddrManTables.Linked, TriedIds, NewIds, Waiting, Forget, Picked, TimesOk;
      ghost var t0 := State();
      ghost var k := Keyed();
      LinkedRandom(k, t0, {}, nIdCount);
      var nNodes := GETADDR_MAX_PCT * |vRandom| / 100;
      if nNodes > GETADDR_MAX {
        nNodes := GETADDR_MAX;
      }
      vAddr := [];
      PickedNone(Entries(), now);
      var n := 0;
      while n < |vRandom|
        invariant 0 <= n <= |vRandom| == |t0.random| && RandomLinked(mapInfo, vRandom)
        invariant Entries() == Forget(t0.info)
        invariant vAddr == Picked(Forget(t0.info), vRandom[..n], now) && |vAddr| <= nNodes
      {
        if |vAddr| >= nNodes {
          break;
        }
        var nRndPos :| n <= nRndPos < |vRandom|;
        ghost var r := vRandom;
        SwapRandom(n, nRndPos);
        SwapPrefix(r, n, nRndPos);
        ForgetGet(mapInfo, vRandom[n]);
        PickedMore(Forget(t0.info), vRandom, n, now);
        if !mapInfo[vRandom[n]].IsTerrible(now) {
          vAddr := vAddr + [ToAddress(mapInfo[vRandom[n]])];
        }
        n := n + 1;
      }
      PositionFree(k, t0, mapInfo, vRandom, {}, nIdCount);
      SameServices(t0.info, mapInfo);
      SameWaits(k, t0, State(), triedCollisions, nIdCount, nIdCount);
      TimesForget(t0.info);
      TimesForget(mapInfo);
      PickedSound(k, State(), nIdCount, now, n);
    }

    /** ResolveCollisions_: ids waiting for a tried slot get it, give up or go on waiting, by increasing id. */
    method ResolveCollisions(now: int)
      returns (ghost ids: seq<int>, ghost erased: seq<bool>, ghost states: seq<Tables>)
      requires Consistent()
      modifies this
      ensures Consistent() && (old(CollisionsOk()) ==> CollisionsOk())
      ensures old(TimesOk(mapInfo)) && now > 0 ==> TimesOk(mapInfo)
      ensures nKey == old(nKey) && nIdCount == old(nIdCount)
      ensures Increasing(ids) && (set n | n in ids) == old(triedCollisions)
      ensures triedCollisions == old(triedCollisions) - Erased(ids, erased)
      ensures ResolvedRun(Keyed(), old(State()), ids, now, erased, states, State())
    {
      hide AddrManTables.Linked, TriedIds, NewIds, Waiting, TimesOk, Resolved, ResolvedRun, Increasing, Erased, Sorting;
      ids, erased, states := [], [], [State()];
      var todo := triedCollisions;
      ResolvedNone(Keyed(), now, State(), todo);
      while todo != {}
        invariant Consistent() && (old(CollisionsOk()) ==> CollisionsOk())
        invariant old(TimesOk(mapInfo)) && now > 0 ==> TimesOk(mapInfo)
        invariant nKey == old(nKey) && nIdCount == old(nIdCount)
        invariant Sorting(ids, todo, old(triedCollisions))
                  && triedCollisions == old(triedCollisions) - Erased(ids, erased)
        invariant ResolvedRun(Keyed(), old(State()), ids, now, erased, states, State())
        decreases |todo|
      {
        Smallest(todo);
        var idNew :| idNew in todo && forall x | x in todo :: idNew <= x;
        SortingStep(ids, todo, old(triedCollisions), idNew);
        todo := todo - {idNew};
        ghost var t := State();
        LinkedShape(Keyed(), t, {}, nIdCount);
        var erase := Resolve(idNew, now);
        ResolvedMore(Keyed(), old(State()), ids, now, erased, states, t, idNew, erase, State());
        ids, erased, states := ids + [idNew], erased + [erase], states + [State()];
        if erase {
          FewerWait(Keyed(), State(), triedCollisions, nIdCount, idNew);
          triedCollisions := triedCollisions - {idNew};
        }
      }
      SortingEnd(ids, old(triedCollisions));
    }

    /** One round of that loop. */
    method Resolve(idNew: int, now: int) returns (erase: bool)
      requires Consistent()
      modifies this
      ensures Consistent() && (old(CollisionsOk()) ==> CollisionsOk())
      ensures old(TimesOk(mapInfo)) && now > 0 ==> TimesOk(mapInfo)
      ensures nKey == old(nKey) && nIdCount == old(nIdCount) && triedCollisions == old(triedCollisions)
      ensures Resolved(Keyed(), old(State()), idNew, now, erase, State())
    {
      hide AddrManTables.Linked, TriedIds, NewIds, Waiting, GoodEffect, TimesOk, Waits;
      var k := Keyed();
      LinkedShape(k, State(), {}, nIdCount);
      erase := false;
      if idNew !in mapInfo {
        return true;
      }
      var s := mapInfo[idNew].service;
      LinkedAddr(k, State(), {}, nIdCount, idNew);
      var kb, kp := k.Tried(s), k.TriedPos(s);
      if !net.valid(s.addr) {
        erase := true;
      } else if vvTried[kb][kp] != -1 {
        OccupantTried(k, State(), {}, nIdCount, kb, kp);
        var infoOld := mapInfo[vvTried[kb][kp]];
        if now - infoOld.nLastSuccess < REPLACEMENT_HOURS * 60 * 60 {
          erase := true;
        } else if now - infoOld.nLastTry < REPLACEMENT_HOURS * 60 * 60 {
          if now - infoOld.nLastTry > 60 {
            Good(s, false, now);
            NoNewWait(k, old(State()), idNew, now, State(), old(triedCollisions), triedCollisions);
            erase := true;
          }
        }
      } else {
        Good(s, false, now);
        NoNewWait(k, old(State()), idNew, now, State(), old(triedCollisions), triedCollisions);
        erase := true;
      }
    }

    /** SelectTriedCollision_: a random waiting id and the tried entry it would evict. The source looks
        that entry up with operator[], which inserts a blank entry under id -1 when the slot is empty. */
    method SelectTriedCollision() returns (idNew: int, r: Option<AddrInfo>)
      requires Consistent()
      modifies `mapInfo, `triedCollisions
      ensures old(triedCollisions) == {} ==> r == None && mapInfo == old(mapInfo) && triedCollisions == {}
      ensures old(triedCollisions) != {} ==> idNew in old(triedCollisions)
      ensures idNew in old(triedCollisions) && idNew !in old(mapInfo) ==>
                r == None && mapInfo == old(mapInfo) && triedCollisions == old(triedCollisions) - {idNew}
      ensures idNew in old(triedCollisions) && idNew in old(mapInfo) ==>
                var s := old(mapInfo)[idNew].service;
                var o := TriedSlot(Keyed(), vvTried, s);
                && triedCollisions == old(triedCollisions)
                && (Consistent() <==> o != -1)
                && (o != -1 ==> mapInfo == old(mapInfo) && o in mapInfo && mapInfo[o].fInTried && r == Some(mapInfo[o]))
                && (o == -1 ==> mapInfo == old(mapInfo)[-1 := Blank] && r == Some(Blank))
      ensures old(CollisionsOk()) ==> Consistent() && CollisionsOk() && mapInfo == old(mapInfo)
    {
      var k := Keyed();
      idNew := -1;
      if triedCollisions == {} {
        return idNew, None;
      }
      SomeMember(triedCollisions);
      idNew :| idNew in triedCollisions;
      if idNew !in mapInfo {
        triedCollisions := triedCollisions - {idNew};
        return idNew, None;
      }
      var idOld := TriedSlot(k, vvTried, mapInfo[idNew].service);
      if idOld !in mapInfo {
        mapInfo := mapInfo[idOld := Blank];
      }
      r := Some(mapInfo[idOld]);
    }

    /** Clear: everything but the waiting collisions is reset. */
    method Clear(key: Key)
      modifies this
      ensures Checked() && nKey == key && nIdCount == 0 && nLastGood == 1
      ensures State() == Tables(map[], map[], [], Empty(TRIED_BUCKET_COUNT), Empty(NEW_BUCKET_COUNT))
      ensures triedCollisions == old(triedCollisions)
      ensures CollisionsOk() <==> triedCollisions == {}
    {
      hide AddrManTables.Linked, TriedIds, NewIds, Waiting, Empty;
      vRandom, nKey := [], key;
      vvNew, vvTried := Empty(NEW_BUCKET_COUNT), Empty(TRIED_BUCKET_COUNT);
      nIdCount, nTried, nNew, nLastGood := 0, 0, 0, 1;
      mapInfo, mapAddr := map[], map[];
      EmptyLinked(Keyed());
      EmptyWaits(Keyed(), triedCollisions);
    }
  }

  /** The tables of a new manager. */
  function NoTables(): Tables { Tables(map[], map[], [], Empty(TRIED_BUCKET_COUNT), Empty(NEW_BUCKET_COUNT)) }

  lemma EmptyLinked(k: Buckets)
    ensures AddrManTables.Linked(k, NoTables(), {}, 0) && TriedIds(NoTables().info) == {}
            && NewIds(NoTables().info) == {}
  {
  }

  lemma EmptyWaits(k: Buckets, waiting: set<int>)
    ensures Waiting(k, NoTables(), waiting, 0) <==> waiting == {}
  {
    hide Empty;
    if waiting != {} {
      SomeMember(waiting);
    }
  }

  /** The public operations, with the clock each of them reads. */
  datatype Op =
    | OpAdd(addr: Address, source: NetAddr, nTimePenalty: int, now: int)
    | OpGood(service: Service, testBeforeEvict: bool, nTime: int)
    | OpAttempt(service: Service, fCountFailure: bool, nTime: int)
    | OpConnected(service: Service, nTime: int)
    | OpSetServices(service: Service, nServices: set<nat>)
    | OpGetAddr(now: int)
    | OpResolveCollisions(now: int)
    | OpSelectTriedCollision
    | OpClear(key: Key)

  predicate Timed(op: Op) {
    match op
    case OpGood(_, _, t) => t > 0
    case OpAttempt(_, _, t) => t >= 0
    case OpResolveCollisions(t) => t > 0
    case _ => true
  }

  /** Every run from a new manager stays consistent, with real collisions only, up to its end or to a Clear at which a
      collision waits; and it passes Check_ if the times it was given are sensible. */
  method Run(net: Net, key: Key, ops: seq<Op>) returns (m: AddrMan, done: nat)
    ensures m.Consistent() && m.CollisionsOk() && |m.vRandom| == m.nTried + m.nNew
    ensures done <= |ops| && ((forall op | op in ops[..done] :: Timed(op)) ==> m.Checked())
    ensures done < |ops| ==> ops[done].OpClear? && m.triedCollisions != {}
  {
    m := new AddrMan(net, key);
    hide *;
    done := 0;
    while done < |ops|
      invariant fresh(m) && m.Consistent() && m.CollisionsOk()
      invariant done <= |ops| && ((forall op | op in ops[..done] :: Timed(op)) ==> m.Checked())
    {
      if ops[done].OpClear? && m.triedCollisions != {} {
        break;
      }
      assert ops[..done + 1] == ops[..done] + [ops[done]];
      Apply(m, ops[done]);
      done := done + 1;
    }
    Sizes(m);
  }

  method Apply(m: AddrMan, op: Op)
    requires m.Consistent() && m.CollisionsOk() && (op.OpClear? ==> m.triedCollisions == {})
    modifies m
    ensures m.Consistent() && m.CollisionsOk() && m.nKey == if op.OpClear? then op.key else old(m.nKey)
    ensures Timed(op) && old(m.Checked()) ==> m.Checked()
  {
    hide AddrManTables.Linked, Waiting, NewIds, TriedIds, TimesOk, AddedNew, AddedOld, GoodEffect;
    match op
    case OpAdd(addr, source, penalty, now) => var _ := m.Add(addr, source, penalty, now);
    case OpGood(s, test, t) => m.Good(s, test, t);
    case OpAttempt(s, count, t) => m.Attempt(s, count, t);
    case OpConnected(s, t) => m.Connected(s, t);
    case OpSetServices(s, f) => m.SetServices(s, f);
    case OpGetAddr(now) => var _ := m.GetAddr(now);
    case OpResolveCollisions(now) => var _, _, _ := m.ResolveCollisions(now);
    case OpSelectTriedCollision => var _, _ := m.SelectTriedCollision();
    case OpClear(key) => m.Clear(key);
  }

  lemma Sizes(m: AddrMan)
    requires m.Consistent()
    ensures |m.vRandom| == m.nTried + m.nNew
  {
    hide AddrManTables.Linked;
    LinkedRandom(m.Keyed(), m.State(), {}, m.nIdCount);
    SplitIds(m.mapInfo);
  }
}
