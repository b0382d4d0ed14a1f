/** CAddrMan::Check_ (src/addrman.cpp): the source's own consistency test, run loop by loop, and proved to pass exactly
    on the states it is meant to accept; consistent states as used elsewhere pass it. */
module AddrManCheck {
  import opened Basics
  import opened AddrManTables
  import opened AddrMan

  /** What Check_ demands of one entry. */
  predicate EntryOk(t: Tables, n: int)
    requires n in t.info
  {
    var e := t.info[n];
    && (if e.fInTried then e.nLastSuccess != 0 && e.nRefCount == 0 else 0 < e.nRefCount <= NEW_BUCKETS_PER_ADDRESS)
    && AddrOf(t, e.service.addr) == n
    && 0 <= e.nRandomPos < |t.random| && t.random[e.nRandomPos] == n
    && e.nLastTry >= 0 && e.nLastSuccess >= 0
  }

  /** mapAddr[addr] in C++: zero for an unknown address. */
  function AddrOf(t: Tables, a: NetAddr): int { if a in t.addrs then t.addrs[a] else 0 }

  /** Slot (b, p) comes before slot (n, i). */
  predicate Before(b: nat, p: nat, n: nat, i: nat) { b < n || (b == n && p < i) }

  /* ---- The tried table ---- */

  /** The tried slot holds a tried entry that belongs there. */
  predicate TriedSlotOk(k: Buckets, info: Infos, t: Table, b: nat, p: nat)
    requires Shaped(t, TRIED_BUCKET_COUNT) && b < TRIED_BUCKET_COUNT && p < BUCKET_SIZE
  {
    t[b][p] != -1 ==>
      && t[b][p] in info && info[t[b][p]].fInTried
      && b == k.Tried(info[t[b][p]].service) && p == k.TriedPos(info[t[b][p]].service)
  }

  predicate InOwnSlot(k: Buckets, info: Infos, t: Table, n: int)
    requires Shaped(t, TRIED_BUCKET_COUNT) && n in info
  {
    n != -1 && t[k.Tried(info[n].service)][k.TriedPos(info[n].service)] == n
  }

  /** What Check_ demands of the tried table. */
  ghost predicate TriedOk(k: Buckets, info: Infos, t: Table)
    requires Shaped(t, TRIED_BUCKET_COUNT)
  {
    && (forall n | n in info && info[n].fInTried :: InOwnSlot(k, info, t, n))
    && (forall b, p | 0 <= b < TRIED_BUCKET_COUNT && 0 <= p < BUCKET_SIZE :: TriedSlotOk(k, info, t, b, p))
  }

  /** Tried entries not met in the slots before (b, p). */
  ghost function Unmet(k: Buckets, info: Infos, t: Table, b: nat, p: nat): set<int>
    requires Shaped(t, TRIED_BUCKET_COUNT)
  {
    set n | && n in info && info[n].fInTried
            && !(InOwnSlot(k, info, t, n) && Before(k.Tried(info[n].service), k.TriedPos(info[n].service), b, p))
  }

  ghost predicate TriedMet(k: Buckets, info: Infos, t: Table, b: nat, p: nat, rest: set<int>)
    requires Shaped(t, TRIED_BUCKET_COUNT)
  {
    && (forall c, q | 0 <= c < TRIED_BUCKET_COUNT && 0 <= q < BUCKET_SIZE && Before(c, q, b, p) ::
          TriedSlotOk(k, info, t, c, q))
    && rest == Unmet(k, info, t, b, p)
  }

  lemma TriedStep(k: Buckets, info: Infos, t: Table, b: nat, p: nat, rest: set<int>)
    requires Shaped(t, TRIED_BUCKET_COUNT) && b < TRIED_BUCKET_COUNT && p < BUCKET_SIZE
             && TriedMet(k, info, t, b, p, rest)
    ensures t[b][p] == -1 ==> TriedMet(k, info, t, b, p + 1, rest)
    ensures t[b][p] != -1 && TriedSlotOk(k, info, t, b, p) ==>
            t[b][p] in rest && TriedMet(k, info, t, b, p + 1, rest - {t[b][p]})
    ensures t[b][p] in rest ==> t[b][p] in info && info[t[b][p]].fInTried
  {
    if t[b][p] == -1 {
      assert rest == Unmet(k, info, t, b, p + 1);
    } else if TriedSlotOk(k, info, t, b, p) {
      assert rest - {t[b][p]} == Unmet(k, info, t, b, p + 1);
    }
  }

  lemma TriedNextBucket(k: Buckets, info: Infos, t: Table, b: nat, rest: set<int>)
    requires Shaped(t, TRIED_BUCKET_COUNT) && TriedMet(k, info, t, b, BUCKET_SIZE, rest)
    ensures TriedMet(k, info, t, b + 1, 0, rest)
  {
    assert Unmet(k, info, t, b, BUCKET_SIZE) == Unmet(k, info, t, b + 1, 0);
  }

  lemma TriedStart(k: Buckets, info: Infos, t: Table)
    requires Shaped(t, TRIED_BUCKET_COUNT)
    ensures TriedMet(k, info, t, 0, 0, TriedIds(info))
  {
    assert Unmet(k, info, t, 0, 0) == TriedIds(info);
  }

  lemma TriedEnd(k: Buckets, info: Infos, t: Table, rest: set<int>)
    requires Shaped(t, TRIED_BUCKET_COUNT) && TriedMet(k, info, t, TRIED_BUCKET_COUNT, 0, rest)
    ensures rest == {} <==> TriedOk(k, info, t)
  {
    if rest == {} {
      forall n | n in info && info[n].fInTried
        ensures InOwnSlot(k, info, t, n)
      {
        assert n !in Unmet(k, info, t, TRIED_BUCKET_COUNT, 0);
      }
    }
    if TriedOk(k, info, t) {
      assert Unmet(k, info, t, TRIED_BUCKET_COUNT, 0) == {};
    }
  }

  /** The third loop of Check_: code 0 exactly when every slot is right; the rest are the tried entries not found. */
  method CheckTried(k: Buckets, info: Infos, t: Table, setTried: set<int>) returns (code: int, rest: set<int>)
    requires Shaped(t, TRIED_BUCKET_COUNT) && setTried == TriedIds(info)
    ensures code in {0, -11, -17, -18}
    ensures code == 0 && rest == {} <==> TriedOk(k, info, t)
  {
    hide TriedMet, TriedOk, TriedSlotOk, Shaped, TriedIds;
    TriedStart(k, info, t);
    rest := setTried;
    for n := 0 to TRIED_BUCKET_COUNT
      invariant TriedMet(k, info, t, n, 0, rest)
    {
      BucketSize(t, TRIED_BUCKET_COUNT, n);
      for i := 0 to BUCKET_SIZE
        invariant TriedMet(k, info, t, n, i, rest)
      {
        TriedStep(k, info, t, n, i, rest);
        if t[n][i] != -1 {
          SlotIs(k, info, t, n, i);
          if t[n][i] !in rest {
            NotLinked(k, info, t, n, i);
            return -11, rest;
          }
          if k.Tried(info[t[n][i]].service) != n {
            NotLinked(k, info, t, n, i);
            return -17, rest;
          }
          if k.net.position(k.key, false, n, info[t[n][i]].service) % BUCKET_SIZE != i {
            NotLinked(k, info, t, n, i);
            return -18, rest;
          }
          rest := rest - {t[n][i]};
        }
      }
      TriedNextBucket(k, info, t, n, rest);
    }
    TriedEnd(k, info, t, rest);
    code := 0;
  }

  lemma BucketSize(t: Table, n: nat, b: nat)
    requires Shaped(t, n) && b < n
    ensures b < |t| && |t[b]| == BUCKET_SIZE
  {
  }

  lemma SlotIs(k: Buckets, info: Infos, t: Table, b: nat, p: nat)
    requires Shaped(t, TRIED_BUCKET_COUNT) && b < TRIED_BUCKET_COUNT && p < BUCKET_SIZE
    ensures TriedSlotOk(k, info, t, b, p) <==>
              || t[b][p] == -1
              || (t[b][p] in info && info[t[b][p]].fInTried
                  && b == k.Tried(info[t[b][p]].service) && p == k.TriedPos(info[t[b][p]].service))
    ensures t[b][p] in info && b == k.Tried(info[t[b][p]].service) ==>
            k.TriedPos(info[t[b][p]].service) == k.net.position(k.key, false, b, info[t[b][p]].service) % BUCKET_SIZE
  {
  }

  lemma NotLinked(k: Buckets, info: Infos, t: Table, b: nat, p: nat)
    requires Shaped(t, TRIED_BUCKET_COUNT) && b < TRIED_BUCKET_COUNT && p < BUCKET_SIZE
             && !TriedSlotOk(k, info, t, b, p)
    ensures !TriedOk(k, info, t)
  {
  }

  /* ---- The new table ---- */

  /** Buckets that hold the entry and come before (b, p). */
  ghost function Met(k: Buckets, s: Service, n: int, t: Table, b: nat, p: nat): set<nat>
    requires Shaped(t, NEW_BUCKET_COUNT)
  {
    set c | c in Holders(k, s, n, t) && Before(c, k.NewPos(s, c), b, p)
  }

  predicate NewSlotOk(k: Buckets, info: Infos, t: Table, b: nat, p: nat)
    requires Shaped(t, NEW_BUCKET_COUNT) && b < NEW_BUCKET_COUNT && p < BUCKET_SIZE
  {
    t[b][p] != -1 ==> t[b][p] in info && !info[t[b][p]].fInTried && p == k.NewPos(info[t[b][p]].service, b)
  }

  /** What Check_ demands of the new table. */
  ghost predicate NewOk(k: Buckets, info: Infos, t: Table)
    requires Shaped(t, NEW_BUCKET_COUNT)
  {
    && (forall b, p | 0 <= b < NEW_BUCKET_COUNT && 0 <= p < BUCKET_SIZE :: NewSlotOk(k, info, t, b, p))
    && (forall n | n in info && !info[n].fInTried ::
          n != -1 && info[n].nRefCount == |Holders(k, info[n].service, n, t)|)
  }

  /** An entry under id -1 is met nowhere: such a slot counts as empty. */
  ghost function MetCount(k: Buckets, s: Service, n: int, t: Table, b: nat, p: nat): nat
    requires Shaped(t, NEW_BUCKET_COUNT)
  {
    if n == -1 then 0 else |Met(k, s, n, t, b, p)|
  }

  /** The counter of an entry: references not met yet; gone once there are none. */
  ghost predicate CounterOk(k: Buckets, info: Infos, t: Table, b: nat, p: nat, left: map<int, int>, n: int)
    requires Shaped(t, NEW_BUCKET_COUNT) && n in info
  {
    var m := MetCount(k, info[n].service, n, t, b, p);
    m <= info[n].nRefCount && (n in left <==> m < info[n].nRefCount) && (n in left ==> left[n] == info[n].nRefCount - m)
  }

  ghost predicate NewMet(k: Buckets, info: Infos, t: Table, b: nat, p: nat, left: map<int, int>)
    requires Shaped(t, NEW_BUCKET_COUNT)
  {
    && (forall c, q | 0 <= c < NEW_BUCKET_COUNT && 0 <= q < BUCKET_SIZE && Before(c, q, b, p) ::
          NewSlotOk(k, info, t, c, q))
    && (forall n | n in left :: n in info && !info[n].fInTried)
    && (forall n | n in info && !info[n].fInTried :: CounterOk(k, info, t, b, p, left, n))
  }

  /** Passing a slot adds its bucket for the entry it holds, if that is its place, and for no other. */
  lemma MetStep(k: Buckets, s: Service, n: int, t: Table, b: nat, p: nat)
    requires Shaped(t, NEW_BUCKET_COUNT) && b < NEW_BUCKET_COUNT && p < BUCKET_SIZE
    ensures Met(k, s, n, t, b, p + 1) ==
            Met(k, s, n, t, b, p) + if t[b][p] == n && k.NewPos(s, b) == p then {b} else {}
    ensures b !in Met(k, s, n, t, b, p) || k.NewPos(s, b) != p
  {
  }

  lemma MetStepSize(k: Buckets, s: Service, n: int, t: Table, b: nat, p: nat)
    requires Shaped(t, NEW_BUCKET_COUNT) && b < NEW_BUCKET_COUNT && p < BUCKET_SIZE
    ensures |Met(k, s, n, t, b, p + 1)| ==
            |Met(k, s, n, t, b, p)| + if t[b][p] == n && k.NewPos(s, b) == p then 1 else 0
  {
    hide Met;
    MetStep(k, s, n, t, b, p);
  }

  lemma MetAll(k: Buckets, s: Service, n: int, t: Table)
    requires Shaped(t, NEW_BUCKET_COUNT)
    ensures Met(k, s, n, t, 0, 0) == {} && Met(k, s, n, t, NEW_BUCKET_COUNT, 0) == Holders(k, s, n, t)
  {
  }

  lemma MetNext(k: Buckets, s: Service, n: int, t: Table, b: nat)
    requires Shaped(t, NEW_BUCKET_COUNT)
    ensures Met(k, s, n, t, b, BUCKET_SIZE) == Met(k, s, n, t, b + 1, 0)
  {
  }

  lemma {:induction false} MetWithin(k: Buckets, s: Service, n: int, t: Table, b: nat, p: nat)
    requires Shaped(t, NEW_BUCKET_COUNT)
    ensures |Met(k, s, n, t, b, p)| <= |Holders(k, s, n, t)|
  {
    SubsetSize(Met(k, s, n, t, b, p), Holders(k, s, n, t));
  }

  function Decremented(left: map<int, int>, v: int): map<int, int>
    requires v in left
  {
    if left[v] - 1 == 0 then left - {v} else left[v := left[v] - 1]
  }

  lemma NewStepEmpty(k: Buckets, info: Infos, t: Table, b: nat, p: nat, left: map<int, int>)
    requires Shaped(t, NEW_BUCKET_COUNT) && b < NEW_BUCKET_COUNT && p < BUCKET_SIZE && NewMet(k, info, t, b, p, left)
             && t[b][p] == -1
    ensures NewMet(k, info, t, b, p + 1, left)
  {
    hide Met;
    forall n | n in info && !info[n].fInTried ensures CounterOk(k, info, t, b, p + 1, left, n) {
      assert CounterOk(k, info, t, b, p, left, n);
      MetStepSize(k, info[n].service, n, t, b, p);
    }
  }

  lemma NewStepHeld(k: Buckets, info: Infos, t: Table, b: nat, p: nat, left: map<int, int>)
    requires Shaped(t, NEW_BUCKET_COUNT) && b < NEW_BUCKET_COUNT && p < BUCKET_SIZE && NewMet(k, info, t, b, p, left)
    requires t[b][p] in left && NewSlotOk(k, info, t, b, p) && t[b][p] != -1
    ensures NewMet(k, info, t, b, p + 1, Decremented(left, t[b][p]))
  {
    hide Met;
    var v := t[b][p];
    forall n | n in info && !info[n].fInTried ensures CounterOk(k, info, t, b, p + 1, Decremented(left, v), n) {
      assert CounterOk(k, info, t, b, p, left, n);
      MetStepSize(k, info[n].service, n, t, b, p);
    }
  }

  /** A slot whose entry has no counter left, or sits out of place, refutes the table. */
  lemma NewRefuted(k: Buckets, info: Infos, t: Table, b: nat, p: nat, left: map<int, int>)
    requires Shaped(t, NEW_BUCKET_COUNT) && b < NEW_BUCKET_COUNT && p < BUCKET_SIZE && NewMet(k, info, t, b, p, left)
             && t[b][p] != -1
    requires t[b][p] !in left || (t[b][p] in info && p != k.NewPos(info[t[b][p]].service, b))
    ensures !NewOk(k, info, t)
  {
    hide Met, Holders;
    var v := t[b][p];
    if NewOk(k, info, t) {
      assert NewSlotOk(k, info, t, b, p);
      assert CounterOk(k, info, t, b, p, left, v);
      MetStepSize(k, info[v].service, v, t, b, p);
      MetWithin(k, info[v].service, v, t, b, p + 1);
    }
  }

  lemma NewNextBucket(k: Buckets, info: Infos, t: Table, b: nat, left: map<int, int>)
    requires Shaped(t, NEW_BUCKET_COUNT) && NewMet(k, info, t, b, BUCKET_SIZE, left)
    ensures NewMet(k, info, t, b + 1, 0, left)
  {
    hide Met;
    forall n | n in info && !info[n].fInTried ensures CounterOk(k, info, t, b + 1, 0, left, n) {
      assert CounterOk(k, info, t, b, BUCKET_SIZE, left, n);
      MetNext(k, info[n].service, n, t, b);
    }
  }

  /** The counters before the first slot. */
  ghost predicate Counters(info: Infos, left: map<int, int>) {
    && (forall n | n in left :: n in info && !info[n].fInTried)
    && (forall n | n in info && !info[n].fInTried :: info[n].nRefCount > 0 && n in left && left[n] == info[n].nRefCount)
  }

  lemma NewStart(k: Buckets, info: Infos, t: Table, left: map<int, int>)
    requires Shaped(t, NEW_BUCKET_COUNT) && Counters(info, left)
    ensures NewMet(k, info, t, 0, 0, left)
  {
    hide Met;
    forall n | n in info && !info[n].fInTried ensures CounterOk(k, info, t, 0, 0, left, n) {
      MetAll(k, info[n].service, n, t);
    }
  }

  lemma NewEnd(k: Buckets, info: Infos, t: Table, left: map<int, int>)
    requires Shaped(t, NEW_BUCKET_COUNT) && NewMet(k, info, t, NEW_BUCKET_COUNT, 0, left)
    requires forall n | n in info && !info[n].fInTried :: info[n].nRefCount > 0
    ensures left == map[] <==> NewOk(k, info, t)
  {
    hide Met, Holders;
    forall n | n in info && !info[n].fInTried
      ensures n !in left <==> n != -1 && info[n].nRefCount == |Holders(k, info[n].service, n, t)|
    {
      assert CounterOk(k, info, t, NEW_BUCKET_COUNT, 0, left, n);
      MetAll(k, info[n].service, n, t);
    }
    if NewOk(k, info, t) {
      assert forall n :: n !in left;
      assert left == map[];
    }
    if left == map[] {
      forall b, p | 0 <= b < NEW_BUCKET_COUNT && 0 <= p < BUCKET_SIZE ensures NewSlotOk(k, info, t, b, p) {
        assert Before(b, p, NEW_BUCKET_COUNT, 0);
      }
    }
  }

  /** The last loop of Check_. */
  method CheckNew(k: Buckets, info: Infos, t: Table, mapNew: map<int, int>) returns (code: int, left: map<int, int>)
    requires Shaped(t, NEW_BUCKET_COUNT) && Counters(info, mapNew)
    ensures code in {0, -12, -19}
    ensures code == 0 && left == map[] <==> NewOk(k, info, t)
  {
    hide NewMet, NewOk, Shaped, NewSlotOk, Counters;
    NewStart(k, info, t, mapNew);
    left := mapNew;
    for n := 0 to NEW_BUCKET_COUNT
      invariant NewMet(k, info, t, n, 0, left)
    {
      BucketSize(t, NEW_BUCKET_COUNT, n);
      for i := 0 to BUCKET_SIZE
        invariant NewMet(k, info, t, n, i, left)
      {
        if t[n][i] != -1 {
          if t[n][i] !in left {
            NewRefuted(k, info, t, n, i, left);
            return -12, left;
          }
          NewKnown(k, info, t, n, i, left);
          if k.NewPos(info[t[n][i]].service, n) != i {
            NewRefuted(k, info, t, n, i, left);
            return -19, left;
          }
          NewSlotIs(k, info, t, n, i);
          NewStepHeld(k, info, t, n, i, left);
          left := Decremented(left, t[n][i]);
        } else {
          NewStepEmpty(k, info, t, n, i, left);
        }
      }
      NewNextBucket(k, info, t, n, left);
    }
    CountersPositive(info, mapNew);
    NewEnd(k, info, t, left);
    code := 0;
  }

  lemma CountersPositive(info: Infos, left: map<int, int>)
    requires Counters(info, left)
    ensures forall n | n in info && !info[n].fInTried :: info[n].nRefCount > 0
  {
  }

  lemma NewKnown(k: Buckets, info: Infos, t: Table, b: nat, p: nat, left: map<int, int>)
    requires Shaped(t, NEW_BUCKET_COUNT) && b < NEW_BUCKET_COUNT && p < BUCKET_SIZE && NewMet(k, info, t, b, p, left)
             && t[b][p] in left
    ensures t[b][p] in info && !info[t[b][p]].fInTried
  {
    var v := t[b][p];
    assert v in left;
  }

  lemma NewSlotIs(k: Buckets, info: Infos, t: Table, b: nat, p: nat)
    requires Shaped(t, NEW_BUCKET_COUNT) && b < NEW_BUCKET_COUNT && p < BUCKET_SIZE
    requires t[b][p] in info && !info[t[b][p]].fInTried && p == k.NewPos(info[t[b][p]].service, b)
    ensures NewSlotOk(k, info, t, b, p)
  {
  }

  /* ---- The whole test ---- */

  /** What Check_ tests, in declarative form. */
  ghost predicate Passes(k: Buckets, t: Tables, nTried: int, nNew: int)
    requires Shaped(t.tried, TRIED_BUCKET_COUNT) && Shaped(t.fresh', NEW_BUCKET_COUNT)
  {
    && |t.random| == nTried + nNew && (forall n | n in t.info :: EntryOk(t, n))
    && |TriedIds(t.info)| == nTried && |NewIds(t.info)| == nNew
    && TriedOk(k, t.info, t.tried) && NewOk(k, t.info, t.fresh') && k.key != 0
  }

  /** The first loop of Check_: over all entries, in any order. */
  method CheckEntries(t: Tables) returns (code: int, setTried: set<int>, mapNew: map<int, int>)
    ensures code == 0 <==> forall n | n in t.info :: EntryOk(t, n)
    ensures code in {0, -1, -2, -3, -4, -5, -14, -6, -8}
    ensures code == 0 ==> setTried == TriedIds(t.info) && mapNew.Keys == NewIds(t.info) && Counters(t.info, mapNew)
  {
    hide EntryOk, Counters, NewIds;
    setTried, mapNew := {}, map[];
    var todo := t.info.Keys;
    while todo != {}
      invariant todo <= t.info.Keys && (forall n | n in t.info && n !in todo :: EntryOk(t, n))
      invariant setTried == set n | n in t.info && n !in todo && t.info[n].fInTried
      invariant mapNew == map n | n in t.info && n !in todo && !t.info[n].fInTried :: t.info[n].nRefCount
      decreases |todo|
    {
      SomeMember(todo);
      var n :| n in todo;
      code := CheckEntry(t, n);
      if code != 0 {
        return;
      }
      if t.info[n].fInTried {
        setTried := setTried + {n};
      } else {
        mapNew := mapNew[n := t.info[n].nRefCount];
      }
      todo := todo - {n};
    }
    CountersMade(t, mapNew);
    code := 0;
  }

  lemma CountersMade(t: Tables, mapNew: map<int, int>)
    requires forall n | n in t.info :: EntryOk(t, n)
    requires mapNew == map n | n in t.info && !t.info[n].fInTried :: t.info[n].nRefCount
    ensures mapNew.Keys == NewIds(t.info) && Counters(t.info, mapNew)
  {
    forall n | n in t.info && !t.info[n].fInTried ensures t.info[n].nRefCount > 0 && n in mapNew {
      assert EntryOk(t, n);
    }
  }

  method CheckEntry(t: Tables, n: int) returns (code: int)
    requires n in t.info
    ensures code == 0 <==> EntryOk(t, n)
    ensures code in {0, -1, -2, -3, -4, -5, -14, -6, -8}
  {
    var e := t.info[n];
    if e.fInTried {
      if e.nLastSuccess == 0 {
        return -1;
      }
      if e.nRefCount != 0 {
        return -2;
      }
    } else {
      if e.nRefCount < 0 || e.nRefCount > NEW_BUCKETS_PER_ADDRESS {
        return -3;
      }
      if e.nRefCount == 0 {
        return -4;
      }
    }
    if AddrOf(t, e.service.addr) != n {
      return -5;
    }
    if e.nRandomPos < 0 || e.nRandomPos >= |t.random| || t.random[e.nRandomPos] != n {
      return -14;
    }
    if e.nLastTry < 0 {
      return -6;
    }
    if e.nLastSuccess < 0 {
      return -8;
    }
    return 0;
  }

  /** Check_: zero exactly when the state passes. */
  method Check(m: AddrMan) returns (code: int)
    requires Shaped(m.vvTried, TRIED_BUCKET_COUNT) && Shaped(m.vvNew, NEW_BUCKET_COUNT)
    ensures code == 0 <==> Passes(m.Keyed(), m.State(), m.nTried, m.nNew)
    ensures m.Checked() && m.nKey != 0 ==> code == 0
  {
    hide EntryOk, TriedIds, NewIds, TriedOk, NewOk, Counters, Shaped, AddrManTables.Linked, TimesOk;
    var k := m.Keyed();
    var t := Tables(m.mapInfo, m.mapAddr, m.vRandom, m.vvTried, m.vvNew);
    if m.Checked() {
      ConsistentPasses(k, t, m.nIdCount);
    }
    if |m.vRandom| != m.nTried + m.nNew {
      return -7;
    }
    var setTried, mapNew;
    code, setTried, mapNew := CheckEntries(t);
    if code != 0 {
      return;
    }
    KeyCount(mapNew);
    if |setTried| != m.nTried {
      return -9;
    }
    if |mapNew| != m.nNew {
      return -10;
    }
    code, setTried := CheckTried(k, m.mapInfo, m.vvTried, setTried);
    if code != 0 {
      return;
    }
    code, mapNew := CheckNew(k, m.mapInfo, m.vvNew, mapNew);
    if code != 0 {
      return;
    }
    if |setTried| != 0 {
      return -13;
    }
    if |mapNew| != 0 {
      return -15;
    }
    if m.nKey == 0 {
      return -16;
    }
    return 0;
  }

  lemma KeyCount(m: map<int, int>)
    ensures |m| == |m.Keys|
  {
  }

  /** A consistent manager passes its own test. */
  lemma ConsistentPasses(k: Buckets, t: Tables, nIdCount: int)
    requires Linked(k, t, {}, nIdCount) && TimesOk(t.info)
    ensures Shaped(t.tried, TRIED_BUCKET_COUNT) && Shaped(t.fresh', NEW_BUCKET_COUNT)
    ensures k.key != 0 ==> Passes(k, t, |TriedIds(t.info)|, |NewIds(t.info)|)
  {
    hide Holders;
    RandomSize(t.info, t.random);
    SplitIds(t.info);
    assert forall n | n in t.info :: EntryOk(t, n);
    forall b, p | 0 <= b < NEW_BUCKET_COUNT && 0 <= p < BUCKET_SIZE ensures NewSlotOk(k, t.info, t.fresh', b, p) {
      if t.fresh'[b][p] != -1 {
        OccupantNew(k, t, {}, nIdCount, b, p);
      }
    }
  }

  /** A manager under any sequence of operations at sensible times, with Check_ called after each: it finds nothing, up
      to the end or to a Clear at which a collision waits. */
  method RunChecked(net: Net, key: Key, ops: seq<Op>) returns (codes: seq<int>, m: AddrMan)
    requires key != 0 && forall op | op in ops :: Timed(op) && (op.OpClear? ==> op.key != 0)
    ensures |codes| <= |ops| && forall i | 0 <= i < |codes| :: codes[i] == 0
    ensures |codes| < |ops| ==> ops[|codes|].OpClear? && m.triedCollisions != {} && m.Consistent() && m.CollisionsOk()
  {
    hide AddrManTables.Linked, Passes, Waiting, NewIds, TriedIds, Shaped, TimesOk;
    m := new AddrMan(net, key);
    codes := [];
    for i := 0 to |ops|
      invariant fresh(m) && m.Checked() && m.CollisionsOk() && m.nKey != 0
      invariant |codes| == i && forall j | 0 <= j < i :: codes[j] == 0
    {
      assert ops[i] in ops;
      if ops[i].OpClear? && m.triedCollisions != {} {
        return;
      }
      Apply(m, ops[i]);
      LinkedShape(m.Keyed(), m.State(), {}, m.nIdCount);
      var code := Check(m);
      codes := codes + [code];
    }
  }
}
