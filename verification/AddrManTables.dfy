/** The value layer of the address manager (src/addrman.h, src/addrman.cpp): entries, bucket
    placement, the consistency predicate that Check_ tests, and what single table updates do to it. */
module AddrManTables {

  const TRIED_BUCKET_COUNT: nat := 256
  const NEW_BUCKET_COUNT: nat := 1024
  const BUCKET_SIZE: nat := 64
  const NEW_BUCKETS_PER_ADDRESS: nat := 8
  const HORIZON_DAYS := 30
  const RETRIES := 3
  const MAX_FAILURES := 10
  const MIN_FAIL_DAYS := 7
  const REPLACEMENT_HOURS := 4
  const GETADDR_MAX_PCT := 23
  const GETADDR_MAX := 2500
  const SET_TRIED_COLLISION_SIZE := 10

  type Key = nat
  type NetAddr = nat
  datatype Service = Service(addr: NetAddr, port: nat)
  datatype Address = Address(service: Service, nTime: nat, nServices: set<nat>)

  /** CAddrInfo. */
  datatype AddrInfo = AddrInfo(
    service: Service, nTime: nat, nServices: set<nat>, source: NetAddr,
    nLastTry: int, nLastCountAttempt: int, nLastSuccess: int, nAttempts: int,
    nRefCount: int, fInTried: bool, nRandomPos: int)
  {
    predicate IsTerrible(nNow: int) {
      if nLastTry != 0 && nLastTry >= nNow - 60 then false
      else if nTime > nNow + 10 * 60 then true
      else if nTime == 0 || nNow - nTime > HORIZON_DAYS * 24 * 60 * 60 then true
      else if nLastSuccess == 0 && nAttempts >= RETRIES then true
      else nNow - nLastSuccess > MIN_FAIL_DAYS * 24 * 60 * 60 && nAttempts >= MAX_FAILURES
    }
  }

  function ToUint32(x: int): nat { x % 0x1_0000_0000 }

  function NewInfo(a: Address, source: NetAddr): AddrInfo {
    AddrInfo(a.service, a.nTime, a.nServices, source, 0, 0, 0, 0, 0, false, -1)
  }

  /** A default-constructed CAddrInfo. */
  const Blank := NewInfo(Address(Service(0, 0), 100000000, {}), 0)

  /** Keyed hashes and address classification: uninterpreted. */
  datatype Net = Net(
    tried: (Key, Service) -> nat,
    source: (Key, Service, NetAddr) -> nat,
    position: (Key, bool, nat, Service) -> nat,
    routable: NetAddr -> bool,
    valid: NetAddr -> bool)

  /** The bucket functions under one key. */
  datatype Buckets = Buckets(net: Net, key: Key) {
    function Tried(s: Service): (b: nat) ensures b < TRIED_BUCKET_COUNT {
      net.tried(key, s) % TRIED_BUCKET_COUNT
    }
    function New(s: Service, source: NetAddr): (b: nat) ensures b < NEW_BUCKET_COUNT {
      net.source(key, s, source) % NEW_BUCKET_COUNT
    }
    function NewPos(s: Service, bucket: nat): (p: nat) ensures p < BUCKET_SIZE {
      net.position(key, true, bucket, s) % BUCKET_SIZE
    }
    function TriedPos(s: Service): (p: nat) ensures p < BUCKET_SIZE {
      net.position(key, false, Tried(s), s) % BUCKET_SIZE
    }
  }

  type Infos = map<int, AddrInfo>
  type Table = seq<seq<int>>

  predicate Shaped(t: Table, buckets: nat) {
    |t| == buckets && forall b | 0 <= b < buckets :: |t[b]| == BUCKET_SIZE
  }

  function Empty(buckets: nat): (t: Table)
    ensures Shaped(t, buckets)
    ensures forall b, p | 0 <= b < buckets && 0 <= p < BUCKET_SIZE :: t[b][p] == -1
  {
    seq(buckets, b => seq(BUCKET_SIZE, p => -1))
  }

  function Put(t: Table, b: nat, p: nat, v: int): Table
    requires b < |t| && p < |t[b]|
  {
    t[b := t[b][p := v]]
  }

  lemma PutGet(t: Table, b: nat, p: nat, v: int)
    requires b < |t| && p < |t[b]|
    ensures |Put(t, b, p, v)| == |t| && |Put(t, b, p, v)[b]| == |t[b]| && Put(t, b, p, v)[b][p] == v
  {
  }

  lemma PutTwice(t: Table, b: nat, p: nat, v: int, w: int)
    requires b < |t| && p < |t[b]|
    ensures |Put(t, b, p, v)| == |t| && |Put(t, b, p, v)[b]| == |t[b]|
    ensures Put(Put(t, b, p, v), b, p, w) == Put(t, b, p, w)
  {
    assert t[b][p := v][p := w] == t[b][p := w];
  }

  lemma PutSame(t: Table, b: nat, p: nat)
    requires b < |t| && p < |t[b]|
    ensures Put(t, b, p, t[b][p]) == t
  {
    assert t[b][p := t[b][p]] == t[b];
  }

  /** The table with every occurrence of `n` cleared. */
  function Without(t: Table, n: int): (r: Table)
    ensures |r| == |t|
    ensures forall b | 0 <= b < |t| :: |r[b]| == |t[b]|
    ensures forall b, p | 0 <= b < |t| && 0 <= p < |t[b]| :: r[b][p] == if t[b][p] == n then -1 else t[b][p]
  {
    seq(|t|, b requires 0 <= b < |t| => seq(|t[b]|, p requires 0 <= p < |t[b]| => if t[b][p] == n then -1 else t[b][p]))
  }

  /* ---- What Check_ tests, one redundant structure at a time ---- */

  ghost predicate AddrLinked(info: Infos, addrs: map<NetAddr, int>) {
    && (forall n | n in info :: info[n].service.addr in addrs && addrs[info[n].service.addr] == n)
    && (forall a | a in addrs :: addrs[a] in info && info[addrs[a]].service.addr == a)
  }

  ghost predicate RandomLinked(info: Infos, r: seq<int>) {
    && (forall n | n in info :: 0 <= info[n].nRandomPos < |r| && r[info[n].nRandomPos] == n)
    && (forall i | 0 <= i < |r| :: r[i] in info && info[r[i]].nRandomPos == i)
  }

  ghost predicate TriedLinked(k: Buckets, info: Infos, t: Table) {
    && Shaped(t, TRIED_BUCKET_COUNT)
    && (forall n | n in info && info[n].fInTried :: n == t[k.Tried(info[n].service)][k.TriedPos(info[n].service)])
    && (forall b, p | 0 <= b < TRIED_BUCKET_COUNT && 0 <= p < BUCKET_SIZE && t[b][p] != -1 ::
          t[b][p] in info && info[t[b][p]].fInTried
          && b == k.Tried(info[t[b][p]].service) && p == k.TriedPos(info[t[b][p]].service))
  }

  /** The new buckets whose slot for service `s` holds id `n`. */
  ghost function Holders(k: Buckets, s: Service, n: int, t: Table): set<nat>
    requires Shaped(t, NEW_BUCKET_COUNT)
  {
    set b: nat | b < NEW_BUCKET_COUNT && t[b][k.NewPos(s, b)] == n
  }

  ghost predicate NewLinked(k: Buckets, info: Infos, t: Table) {
    && Shaped(t, NEW_BUCKET_COUNT)
    && (forall n | n in info :: 0 <= n && info[n].nRefCount == |Holders(k, info[n].service, n, t)|)
    && (forall b, p | 0 <= b < NEW_BUCKET_COUNT && 0 <= p < BUCKET_SIZE && t[b][p] != -1 ::
          t[b][p] in info && p == k.NewPos(info[t[b][p]].service, b))
  }

  /** Ids in `loose` are known but momentarily in no table. */
  ghost predicate InfoOk(info: Infos, loose: set<int>, nIdCount: int) {
    && 0 <= nIdCount
    && (forall n | n in info ::
          && 0 <= n < nIdCount
          && info[n].nRefCount <= NEW_BUCKETS_PER_ADDRESS
          && (info[n].fInTried ==> info[n].nRefCount == 0 && n !in loose)
          && (!info[n].fInTried && n !in loose ==> info[n].nRefCount > 0)
          && (n in loose ==> info[n].nRefCount == 0))
  }

  /** The recorded times are no earlier than the epoch, and a tried entry has answered. */
  predicate TimeOk(e: AddrInfo) {
    0 <= e.nLastTry && 0 <= e.nLastSuccess && (e.fInTried ==> e.nLastSuccess != 0)
  }

  ghost predicate TimesOk(info: Infos) { forall n | n in info :: TimeOk(info[n]) }

  lemma TimesUpdate(info: Infos, n: int, e: AddrInfo)
    requires TimesOk(info)
    ensures TimesOk(info[n := e]) <==> TimeOk(e)
  {
    assert info[n := e][n] == e;
  }

  lemma TimesForget(info: Infos)
    ensures TimesOk(Forget(info)) <==> TimesOk(info)
  {
    if TimesOk(Forget(info)) {
      forall n | n in info
        ensures TimeOk(info[n])
      {
        assert TimeOk(Forget(info)[n]);
      }
    }
  }

  ghost function TriedIds(info: Infos): set<int> { set n | n in info && info[n].fInTried }
  ghost function NewIds(info: Infos): set<int> { set n | n in info && !info[n].fInTried }

  /** Entries without their position in vRandom. */
  ghost function Forget(info: Infos): Infos { map n | n in info :: info[n].(nRandomPos := 0) }

  /* ---- Counting facts ---- */

  lemma {:induction false} RandomSize(info: Infos, r: seq<int>)
    requires RandomLinked(info, r)
    ensures |r| == |info|
    decreases |r|
  {
    assert |r| > 0 ==> r[0] in info;
    if forall n :: n !in info {
      assert info.Keys == {};
    } else {
      var n :| n in info;
      assert 0 <= info[n].nRandomPos < |r|;
      var last := r[|r| - 1];
      var rest := info - {last};
      assert info.Keys == rest.Keys + {last};
      RandomSize(rest, r[..|r| - 1]);
    }
  }

  lemma SplitIds(info: Infos)
    ensures |TriedIds(info)| + |NewIds(info)| == |info|
  {
    assert TriedIds(info) + NewIds(info) == info.Keys;
  }

  /** Taking a free slot of its own raises an entry's reference count by one. */
  lemma TakeSlot(k: Buckets, info: Infos, t: Table, n: int, b: nat)
    requires NewLinked(k, info, t) && n in info && b < NEW_BUCKET_COUNT
    requires t[b][k.NewPos(info[n].service, b)] == -1
    ensures NewLinked(k, info[n := info[n].(nRefCount := info[n].nRefCount + 1)],
                      Put(t, b, k.NewPos(info[n].service, b), n))
  {
    var info' := info[n := info[n].(nRefCount := info[n].nRefCount + 1)];
    var t' := Put(t, b, k.NewPos(info[n].service, b), n);
    forall m | m in info'
      ensures info'[m].nRefCount == |Holders(k, info'[m].service, m, t')|
    {
      HoldersTake(k, info[m].service, m, t, b, k.NewPos(info[n].service, b), n);
    }
    hide Holders;
  }

  /** What a bucket holds for a service after one slot has changed. */
  lemma PutAt(t: Table, b: nat, p: nat, v: int, c: nat, q: nat)
    requires Shaped(t, NEW_BUCKET_COUNT) && b < NEW_BUCKET_COUNT && p < BUCKET_SIZE && c < NEW_BUCKET_COUNT
             && q < BUCKET_SIZE
    ensures Shaped(Put(t, b, p, v), NEW_BUCKET_COUNT)
    ensures Put(t, b, p, v)[c][q] == if c == b && q == p then v else t[c][q]
  {
  }

  lemma HoldersTake(k: Buckets, s: Service, m: int, t: Table, b: nat, p: nat, n: int)
    requires Shaped(t, NEW_BUCKET_COUNT) && b < NEW_BUCKET_COUNT && p < BUCKET_SIZE && t[b][p] == -1 && m != -1
    ensures Shaped(Put(t, b, p, n), NEW_BUCKET_COUNT)
    ensures m != n ==> Holders(k, s, m, Put(t, b, p, n)) == Holders(k, s, m, t)
    ensures m == n && p == k.NewPos(s, b) ==> |Holders(k, s, m, Put(t, b, p, n))| == |Holders(k, s, m, t)| + 1
  {
    hide Put;
    PutAt(t, b, p, n, b, p);
    var t' := Put(t, b, p, n);
    var h, h' := Holders(k, s, m, t), Holders(k, s, m, t');
    forall c: nat | c < NEW_BUCKET_COUNT
      ensures c in h' <==> (c in h && !(c == b && k.NewPos(s, c) == p)) || (c == b && k.NewPos(s, c) == p && n == m)
    {
      PutAt(t, b, p, n, c, k.NewPos(s, c));
    }
    if m == n && p == k.NewPos(s, b) {
      assert h' == h + {b};
    } else if m != n {
      assert h' == h;
    }
  }

  /** Clearing an occupied slot lowers its occupant's reference count by one. */
  lemma FreeSlot(k: Buckets, info: Infos, t: Table, b: nat, p: nat)
    requires NewLinked(k, info, t) && b < NEW_BUCKET_COUNT && p < BUCKET_SIZE
    requires t[b][p] != -1
    ensures t[b][p] in info && info[t[b][p]].nRefCount > 0
    ensures NewLinked(k, info[t[b][p] := info[t[b][p]].(nRefCount := info[t[b][p]].nRefCount - 1)], Put(t, b, p, -1))
  {
    var n := t[b][p];
    var info' := info[n := info[n].(nRefCount := info[n].nRefCount - 1)];
    var t' := Put(t, b, p, -1);
    assert b in Holders(k, info[n].service, n, t);
    forall m | m in info'
      ensures info'[m].nRefCount == |Holders(k, info'[m].service, m, t')|
    {
      var s := info[m].service;
      if m == n {
        assert Holders(k, s, m, t') == Holders(k, s, m, t) - {b};
      } else {
        assert Holders(k, s, m, t') == Holders(k, s, m, t);
      }
    }
  }

  /** An entry with no reference can be dropped, and one that is in no table can be added. */
  lemma DropUnreferenced(k: Buckets, info: Infos, t: Table, n: int)
    requires NewLinked(k, info, t) && n in info && info[n].nRefCount == 0
    ensures NewLinked(k, info - {n}, t)
  {
    var held := Holders(k, info[n].service, n, t);
    forall b, p | 0 <= b < NEW_BUCKET_COUNT && 0 <= p < BUCKET_SIZE && t[b][p] != -1
      ensures t[b][p] != n
    {
      assert t[b][p] == n ==> b in held;
    }
  }

  lemma AddUnreferenced(k: Buckets, info: Infos, t: Table, n: int, e: AddrInfo)
    requires NewLinked(k, info, t) && n !in info && 0 <= n && e.nRefCount == 0
    ensures NewLinked(k, info[n := e], t)
  {
    assert Holders(k, e.service, n, t) == {};
  }

  /* ---- The five structures together ---- */

  datatype Tables = Tables(info: Infos, addrs: map<NetAddr, int>, random: seq<int>, tried: Table, fresh': Table)

  ghost predicate Linked(k: Buckets, t: Tables, loose: set<int>, nIdCount: int) {
    && AddrLinked(t.info, t.addrs)
    && RandomLinked(t.info, t.random)
    && TriedLinked(k, t.info, t.tried)
    && NewLinked(k, t.info, t.fresh')
    && InfoOk(t.info, loose, nIdCount)
  }

  lemma LinkedShape(k: Buckets, t: Tables, loose: set<int>, nIdCount: int)
    requires Linked(k, t, loose, nIdCount)
    ensures Shaped(t.fresh', NEW_BUCKET_COUNT) && Shaped(t.tried, TRIED_BUCKET_COUNT)
    ensures forall n | n in t.info :: 0 <= n < nIdCount
  {
  }

  /** All but the vRandom link ignores positions in vRandom. */
  lemma PositionFree(k: Buckets, t: Tables, info: Infos, random: seq<int>, loose: set<int>, nIdCount: int)
    requires Linked(k, t, loose, nIdCount) && Forget(info) == Forget(t.info) && RandomLinked(info, random)
    ensures Linked(k, t.(info := info, random := random), loose, nIdCount)
    ensures info.Keys == t.info.Keys && TriedIds(info) == TriedIds(t.info) && NewIds(info) == NewIds(t.info)
  {
    assert info.Keys == Forget(info).Keys && t.info.Keys == Forget(t.info).Keys;
    forall n | n in info
      ensures info[n].(nRandomPos := 0) == t.info[n].(nRandomPos := 0)
    {
      assert Forget(info)[n] == Forget(t.info)[n];
    }
  }

  /** Dropping the loose entry that sits last in vRandom. */
  lemma DropLoose(k: Buckets, t: Tables, loose: set<int>, nIdCount: int, n: int)
    requires Linked(k, t, loose, nIdCount)
    requires n in t.info && n in loose && t.info[n].nRandomPos == |t.random| - 1
    ensures Linked(k, t.(info := t.info - {n}, addrs := t.addrs - {t.info[n].service.addr},
                         random := t.random[..|t.random| - 1]), loose - {n}, nIdCount)
    ensures NewIds(t.info - {n}) == NewIds(t.info) - {n} && n in NewIds(t.info)
    ensures TriedIds(t.info - {n}) == TriedIds(t.info)
    ensures Forget(t.info - {n}) == Forget(t.info) - {n}
  {
    hide NewIds, TriedIds, Forget;
    DropUnreferenced(k, t.info, t.fresh', n);
    DropIds(t.info, n);
  }

  lemma DropIds(info: Infos, n: int)
    requires n in info && !info[n].fInTried
    ensures NewIds(info - {n}) == NewIds(info) - {n} && n in NewIds(info)
    ensures TriedIds(info - {n}) == TriedIds(info) && Forget(info - {n}) == Forget(info) - {n}
  {
  }

  /** Clearing a slot of the new table; its occupant is loose once it has no reference left. */
  lemma LoosenSlot(k: Buckets, t: Tables, loose: set<int>, nIdCount: int, b: nat, p: nat)
    requires Linked(k, t, loose, nIdCount) && b < NEW_BUCKET_COUNT && p < BUCKET_SIZE && t.fresh'[b][p] != -1
    ensures var d := t.fresh'[b][p];
            && d in t.info && d in Forget(t.info) && t.info[d].nRefCount > 0
                && Forget(t.info)[d] == t.info[d].(nRandomPos := 0) && d !in loose && !t.info[d].fInTried
            && var e := t.info[d].(nRefCount := t.info[d].nRefCount - 1);
            && Linked(k, t.(info := t.info[d := e], fresh' := Put(t.fresh', b, p, -1)),
                      if e.nRefCount == 0 then loose + {d} else loose, nIdCount)
            && NewIds(t.info[d := e]) == NewIds(t.info) && TriedIds(t.info[d := e]) == TriedIds(t.info)
            && Forget(t.info[d := e]) == Forget(t.info)[d := e.(nRandomPos := 0)]
  {
    FreeSlot(k, t.info, t.fresh', b, p);
  }

  lemma ForgetUpdate(info: Infos, n: int, e: AddrInfo)
    ensures Forget(info[n := e]) == Forget(info)[n := e.(nRandomPos := 0)]
    ensures n in info ==> n in Forget(info) && Forget(info)[n] == info[n].(nRandomPos := 0)
  {
  }

  lemma CountUpdate(info: Infos, n: int, e: AddrInfo)
    requires n in info
    ensures |TriedIds(info[n := e])| == |TriedIds(info)| + Ind(e.fInTried) - Ind(info[n].fInTried)
    ensures |NewIds(info[n := e])| == |NewIds(info)| - Ind(e.fInTried) + Ind(info[n].fInTried)
  {
    assert TriedIds(info[n := e]) == if e.fInTried then TriedIds(info) + {n} else TriedIds(info) - {n};
    assert info[n := e].Keys == info.Keys;
    SplitIds(info);
    SplitIds(info[n := e]);
  }

  ghost function Ind(b: bool): int { if b then 1 else 0 }

  /** ClearNew on entries: the occupant `d` of the slot loses a reference and, with its last, goes. */
  ghost function Cleared(e: Infos, d: int): Infos
    requires d == -1 || d in e
  {
    if d == -1 then e
    else if e[d].nRefCount == 1 then e - {d}
    else e[d := e[d].(nRefCount := e[d].nRefCount - 1)]
  }

  lemma ClearedUpdate(e: Infos, d: int, n: int, x: AddrInfo)
    requires (d == -1 || d in e) && n in e && n != d
    ensures n in Cleared(e, d) && Cleared(e, d)[n] == e[n]
    ensures Cleared(e[n := x], d) == Cleared(e, d)[n := x]
  {
  }

  lemma ClearedKeeps(info: Infos, info0: Infos, d: int, n: int)
    requires (d == -1 || d in Forget(info0)) && Forget(info) == Cleared(Forget(info0), d)
    requires n in info0 && n != d
    ensures n in info && info[n].(nRandomPos := 0) == info0[n].(nRandomPos := 0)
  {
    assert n in Forget(info0);
    assert n in Forget(info);
  }

  /** A new entry enters loose, last in vRandom. */
  lemma AddLoose(k: Buckets, t: Tables, loose: set<int>, nIdCount: int, e: AddrInfo)
    requires Linked(k, t, loose, nIdCount) && e.service.addr !in t.addrs
    requires !e.fInTried && e.nRefCount == 0 && e.nRandomPos == |t.random|
    ensures nIdCount !in t.info
    ensures Linked(k, t.(info := t.info[nIdCount := e], addrs := t.addrs[e.service.addr := nIdCount],
                         random := t.random + [nIdCount]), loose + {nIdCount}, nIdCount + 1)
  {
    AddUnreferenced(k, t.info, t.fresh', nIdCount, e);
  }

  /** Changing only statistics of an entry. */
  lemma Restat(k: Buckets, t: Tables, loose: set<int>, nIdCount: int, n: int, e: AddrInfo)
    requires Linked(k, t, loose, nIdCount) && n in t.info
    requires e.service == t.info[n].service && e.nRefCount == t.info[n].nRefCount
    requires e.fInTried == t.info[n].fInTried && e.nRandomPos == t.info[n].nRandomPos
    ensures Linked(k, t.(info := t.info[n := e]), loose, nIdCount)
  {
  }

  lemma LoosenTried(k: Buckets, t: Tables, loose: set<int>, nIdCount: int, n: int)
    requires Linked(k, t, loose, nIdCount) && n in t.info && t.info[n].fInTried
    ensures Linked(k, t.(info := t.info[n := t.info[n].(fInTried := false)],
                         tried := Put(t.tried, k.Tried(t.info[n].service), k.TriedPos(t.info[n].service), -1)),
                   loose + {n}, nIdCount)
  {
  }

  lemma TightenTried(k: Buckets, t: Tables, loose: set<int>, nIdCount: int, n: int)
    requires Linked(k, t, loose, nIdCount) && n in t.info && n in loose
    requires t.tried[k.Tried(t.info[n].service)][k.TriedPos(t.info[n].service)] == -1
    ensures Linked(k, t.(info := t.info[n := t.info[n].(fInTried := true)],
                         tried := Put(t.tried, k.Tried(t.info[n].service), k.TriedPos(t.info[n].service), n)),
                   loose - {n}, nIdCount)
  {
  }

  /** An entry that is not in tried takes one more slot of the new table. */
  lemma TightenNew(k: Buckets, t: Tables, loose: set<int>, nIdCount: int, n: int, b: nat)
    requires Linked(k, t, loose, nIdCount) && n in t.info && !t.info[n].fInTried
    requires t.info[n].nRefCount < NEW_BUCKETS_PER_ADDRESS && b < NEW_BUCKET_COUNT
    requires t.fresh'[b][k.NewPos(t.info[n].service, b)] == -1
    ensures Linked(k, t.(info := t.info[n := t.info[n].(nRefCount := t.info[n].nRefCount + 1)],
                         fresh' := Put(t.fresh', b, k.NewPos(t.info[n].service, b), n)), loose - {n}, nIdCount)
  {
    TakeSlot(k, t.info, t.fresh', n, b);
  }

  lemma Referenced(k: Buckets, t: Tables, loose: set<int>, nIdCount: int, n: int)
    requires Linked(k, t, loose, nIdCount) && n in t.info && n !in loose
    ensures 0 <= n && (t.info[n].nRefCount > 0 <==> !t.info[n].fInTried)
  {
  }

  /** Within one new bucket an entry can only be at its own position. */
  lemma LeaveBucket(k: Buckets, t: Tables, loose: set<int>, nIdCount: int, n: int, b: nat)
    requires Linked(k, t, loose, nIdCount) && n in t.info && b < NEW_BUCKET_COUNT
    ensures var p := k.NewPos(t.info[n].service, b);
            Without([t.fresh'[b]], n)[0] == if t.fresh'[b][p] == n then Put(t.fresh', b, p, -1)[b] else t.fresh'[b]
  {
  }

  /** An entry found at its position in no new bucket has no references. */
  lemma Unheld(k: Buckets, t: Tables, loose: set<int>, nIdCount: int, n: int)
    requires Linked(k, t, loose, nIdCount) && n in t.info
    requires forall b | 0 <= b < NEW_BUCKET_COUNT :: t.fresh'[b][k.NewPos(t.info[n].service, b)] != n
    ensures t.info[n].nRefCount == 0
  {
    assert Holders(k, t.info[n].service, n, t.fresh') == {};
  }

  lemma OccupantTried(k: Buckets, t: Tables, loose: set<int>, nIdCount: int, b: nat, p: nat)
    requires Linked(k, t, loose, nIdCount) && b < TRIED_BUCKET_COUNT && p < BUCKET_SIZE && t.tried[b][p] != -1
    ensures var o := t.tried[b][p];
            && o in t.info && t.info[o].fInTried && t.info[o].nRefCount == 0 && o !in loose
            && b == k.Tried(t.info[o].service) && p == k.TriedPos(t.info[o].service)
  {
  }

  /** Every id waiting for a tried slot that is still known finds that slot occupied. */
  ghost predicate Waiting(k: Buckets, t: Tables, waiting: set<int>, nIdCount: int) {
    Shaped(t.tried, TRIED_BUCKET_COUNT) &&
    forall n | n in waiting ::
      0 <= n < nIdCount
      && (n in t.info ==> t.tried[k.Tried(t.info[n].service)][k.TriedPos(t.info[n].service)] != -1)
  }

  /** Waiting ids stay so while no tried slot empties and no entry changes its service. */
  lemma StillWaiting(k: Buckets, t: Tables, t': Tables, waiting: set<int>, nIdCount: int, nIdCount': int)
    requires Waiting(k, t, waiting, nIdCount) && nIdCount <= nIdCount'
    requires Shaped(t'.tried, TRIED_BUCKET_COUNT)
    requires forall b, p | 0 <= b < TRIED_BUCKET_COUNT && 0 <= p < BUCKET_SIZE && t.tried[b][p] != -1 ::
               t'.tried[b][p] != -1
    requires forall n | n in t'.info && n < nIdCount :: n in t.info && t'.info[n].service == t.info[n].service
    ensures Waiting(k, t', waiting, nIdCount')
  {
  }

  lemma OccupantNew(k: Buckets, t: Tables, loose: set<int>, nIdCount: int, b: nat, p: nat)
    requires Linked(k, t, loose, nIdCount) && b < NEW_BUCKET_COUNT && p < BUCKET_SIZE && t.fresh'[b][p] != -1
    ensures t.fresh'[b][p] in t.info && t.fresh'[b][p] !in loose && t.info[t.fresh'[b][p]].nRefCount > 0
  {
    FreeSlot(k, t.info, t.fresh', b, p);
  }

  lemma SameStatus(info: Infos, n: int, e: AddrInfo)
    requires n in info && e.fInTried == info[n].fInTried
    ensures TriedIds(info[n := e]) == TriedIds(info) && NewIds(info[n := e]) == NewIds(info)
  {
  }

  lemma OneMoreNew(info: Infos, n: int, e: AddrInfo)
    requires n !in info && !e.fInTried
    ensures TriedIds(info[n := e]) == TriedIds(info) && |NewIds(info[n := e])| == |NewIds(info)| + 1
  {
    assert NewIds(info[n := e]) == NewIds(info) + {n};
  }

  lemma OneMoreTried(info: Infos, n: int, e: AddrInfo)
    requires n !in info && e.fInTried
    ensures NewIds(info[n := e]) == NewIds(info) && |TriedIds(info[n := e])| == |TriedIds(info)| + 1
  {
    assert TriedIds(info[n := e]) == TriedIds(info) + {n};
  }

  lemma RefCountBound(k: Buckets, t: Tables, loose: set<int>, nIdCount: int, n: int)
    requires Linked(k, t, loose, nIdCount) && n in t.info
    ensures 0 <= t.info[n].nRefCount <= NEW_BUCKETS_PER_ADDRESS
  {
  }

  lemma ForgetKeys(info: Infos)
    ensures Forget(info).Keys == info.Keys
  {
  }

  lemma ForgetGet(info: Infos, n: int)
    requires n in info
    ensures n in Forget(info) && Forget(info)[n] == info[n].(nRandomPos := 0)
  {
  }

  lemma SameServices(info: Infos, info': Infos)
    requires Forget(info) == Forget(info')
    ensures info'.Keys == info.Keys && forall n | n in info' :: info'[n].service == info[n].service
  {
    assert info.Keys == Forget(info).Keys && info'.Keys == Forget(info').Keys;
    forall n | n in info'
      ensures info'[n].service == info[n].service
    {
      assert Forget(info)[n] == Forget(info')[n];
    }
  }

  lemma LinkedRandom(k: Buckets, t: Tables, loose: set<int>, nIdCount: int)
    requires Linked(k, t, loose, nIdCount)
    ensures RandomLinked(t.info, t.random) && |t.random| == |t.info|
  {
    RandomSize(t.info, t.random);
  }

  lemma LinkedAddr(k: Buckets, t: Tables, loose: set<int>, nIdCount: int, n: int)
    requires Linked(k, t, loose, nIdCount) && n in t.info
    ensures t.info[n].service.addr in t.addrs && t.addrs[t.info[n].service.addr] == n
  {
  }

  lemma ForgetDrop(info: Infos, r: seq<int>, n: int)
    requires RandomLinked(info, r) && n in info && info[n].nRandomPos == |r| - 1
    ensures RandomLinked(info - {n}, r[..|r| - 1]) && Forget(info - {n}) == Forget(info) - {n}
  {
  }
}
