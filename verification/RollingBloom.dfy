/** CRollingBloomFilter (src/bloom.h, src/bloom.cpp): two bit planes hold a generation number from 0 to 3 for
    every position. A key is remembered for at least the next 2 * ((N + 1) / 2) insertions. The hash
    function and the filter's size, which the source derives in floating point, are parameters. */
module RollingBloom {
  import opened Words

  type Key = seq<int>
  type Hasher = (nat, int, Key) -> Word

  /* ---- Single bits of a 64-bit word ---- */

  predicate On(x: bv64, bit: bv6) { (x >> bit) & 1 == 1 }

  function And(x: bv64, y: bv64): bv64 { x & y }
  function Or(x: bv64, y: bv64): bv64 { x | y }
  function Xor(x: bv64, y: bv64): bv64 { x ^ y }
  function Not(x: bv64): bv64 { !x }
  function One(v: bool): bv64 { if v then 1 else 0 }
  function Shifted(v: bool, bit: bv6): bv64 { One(v) << bit }
  function Filled(v: bool): bv64 { 0 - One(v) }

  lemma AndBits(x: bv64, y: bv64, bit: bv6)
    ensures On(x & y, bit) == (On(x, bit) && On(y, bit))
  {
  }

  lemma AndIs(x: bv64, y: bv64, bit: bv6)
    ensures On(And(x, y), bit) == (On(x, bit) && On(y, bit))
  {
    hide On;
    AndBits(x, y, bit);
  }

  lemma OrBits(x: bv64, y: bv64, bit: bv6)
    ensures On(x | y, bit) == (On(x, bit) || On(y, bit))
  {
  }

  lemma OrIs(x: bv64, y: bv64, bit: bv6)
    ensures On(Or(x, y), bit) == (On(x, bit) || On(y, bit))
  {
    hide On;
    OrBits(x, y, bit);
  }

  lemma XorBits(x: bv64, y: bv64, bit: bv6)
    ensures On(x ^ y, bit) == (On(x, bit) != On(y, bit))
  {
  }

  lemma XorIs(x: bv64, y: bv64, bit: bv6)
    ensures On(Xor(x, y), bit) == (On(x, bit) != On(y, bit))
  {
    hide On;
    XorBits(x, y, bit);
  }

  lemma NotIs(x: bv64, bit: bv6)
    ensures On(Not(x), bit) == !On(x, bit)
  {
  }

  lemma ShiftedIs(v: bool, bit: bv6, other: bv6)
    ensures On(Shifted(v, bit), other) == (v && bit == other)
  {
  }

  lemma FilledIs(v: bool, bit: bv6)
    ensures On(Filled(v), bit) == v
  {
  }

  /** A word with one bit replaced. */
  function Put(x: bv64, bit: bv6, v: bool): bv64 { Or(And(x, Not(Shifted(true, bit))), Shifted(v, bit)) }

  lemma PutIs(x: bv64, bit: bv6, v: bool, other: bv6)
    ensures On(Put(x, bit, v), other) == if other == bit then v else On(x, other)
  {
    hide On, And, Or, Not, Shifted;
    OrIs(And(x, Not(Shifted(true, bit))), Shifted(v, bit), other);
    AndIs(x, Not(Shifted(true, bit)), other);
    NotIs(Shifted(true, bit), other);
    ShiftedIs(true, bit, other);
    ShiftedIs(v, bit, other);
  }

  /** The wipe mask of one pair of words. */
  function Mask(p1: bv64, p2: bv64, v1: bool, v2: bool): bv64 { Or(Xor(p1, Filled(v1)), Xor(p2, Filled(v2))) }

  lemma MaskIs(p1: bv64, p2: bv64, v1: bool, v2: bool, bit: bv6)
    ensures On(Mask(p1, p2, v1, v2), bit) <==> On(p1, bit) != v1 || On(p2, bit) != v2
  {
    hide On, Or, Xor, Filled;
    OrIs(Xor(p1, Filled(v1)), Xor(p2, Filled(v2)), bit);
    XorIs(p1, Filled(v1), bit);
    XorIs(p2, Filled(v2), bit);
    FilledIs(v1, bit);
    FilledIs(v2, bit);
  }

  /* ---- The generation map ---- */

  datatype Place = Place(pair: nat, bit: bv6)

  function Level(p1: bv64, p2: bv64, bit: bv6): (g: int)
    ensures 0 <= g <= 3
  {
    (if On(p1, bit) then 1 else 0) + (if On(p2, bit) then 2 else 0)
  }

  /** The generation stored at a place. */
  function Gen(d: seq<bv64>, p: Place): (g: int)
    ensures 0 <= g <= 3
  {
    if 2 * p.pair + 1 < |d| then Level(d[2 * p.pair], d[2 * p.pair + 1], p.bit) else 0
  }

  predicate Low(g: int) { g % 2 == 1 }
  predicate High(g: int) { g / 2 == 1 }

  lemma PutLevel(p1: bv64, p2: bv64, bit: bv6, g: int, other: bv6)
    requires 1 <= g <= 3
    ensures Level(Put(p1, bit, Low(g)), Put(p2, bit, High(g)), other) == if other == bit then g
            else Level(p1, p2, other)
  {
    hide On, Put;
    PutIs(p1, bit, Low(g), other);
    PutIs(p2, bit, High(g), other);
  }

  lemma WipeLevel(p1: bv64, p2: bv64, g: int, bit: bv6)
    requires 1 <= g <= 3
    ensures var m := Mask(p1, p2, Low(g), High(g));
            Level(And(p1, m), And(p2, m), bit) == if Level(p1, p2, bit) == g then 0 else Level(p1, p2, bit)
  {
    hide On, Mask, And;
    var m := Mask(p1, p2, Low(g), High(g));
    MaskIs(p1, p2, Low(g), High(g), bit);
    AndIs(p1, m, bit);
    AndIs(p2, m, bit);
  }

  /** Wiping a generation clears exactly its places. */
  ghost predicate WipedTo(d: seq<bv64>, d': seq<bv64>, g: int, n: nat) {
    |d'| == |d| && forall p: Place :: Gen(d', p) == if 2 * p.pair < n && Gen(d, p) == g then 0 else Gen(d, p)
  }

  lemma WipeStep(d: seq<bv64>, e: seq<bv64>, g: int, n: nat)
    requires 1 <= g <= 3 && n % 2 == 0 && n + 1 < |d| && WipedTo(d, e, g, n) && e[n] == d[n] && e[n + 1] == d[n + 1]
    ensures var m := Mask(d[n], d[n + 1], Low(g), High(g));
            WipedTo(d, e[n := And(d[n], m)][n + 1 := And(d[n + 1], m)], g, n + 2)
  {
    hide Level, Mask, And, Low, High;
    var m := Mask(d[n], d[n + 1], Low(g), High(g));
    var f := e[n := And(d[n], m)][n + 1 := And(d[n + 1], m)];
    forall p: Place ensures Gen(f, p) == if 2 * p.pair < n + 2 && Gen(d, p) == g then 0 else Gen(d, p) {
      WipeLevel(d[n], d[n + 1], g, p.bit);
      if 2 * p.pair != n {
        assert Gen(f, p) == Gen(e, p);
      }
    }
  }

  /* ---- Places of a key ---- */

  datatype Layout = Layout(hash: Hasher, nTweak: int, size: nat, nHashFuncs: nat) {
    predicate Fits() { size > 0 && size % 2 == 0 }

    function Spot(key: Key, n: nat): Place
      requires Fits()
    {
      var h := hash(n, nTweak, key);
      Place(FastMod(h, size) / 2, (h % 64) as bv6)
    }
  }

  /** Stamping a key's first k places with a generation changes those places and no others. */
  ghost predicate StampedTo(l: Layout, d: seq<bv64>, d': seq<bv64>, key: Key, g: int, k: nat)
    requires l.Fits()
  {
    && |d'| == |d|
    && (forall n | 0 <= n < k :: Gen(d', l.Spot(key, n)) == g)
    && (forall p: Place :: Gen(d', p) == Gen(d, p) || (Gen(d', p) == g && exists n | 0 <= n < k :: l.Spot(key, n) == p))
  }

  lemma StampStep(l: Layout, d: seq<bv64>, e: seq<bv64>, key: Key, g: int, k: nat)
    requires l.Fits() && |d| == l.size && 1 <= g <= 3 && StampedTo(l, d, e, key, g, k)
    ensures var s := l.Spot(key, k); 2 * s.pair + 1 < |e|
    ensures var s := l.Spot(key, k); var a := 2 * s.pair;
            StampedTo(l, d, e[a := Put(e[a], s.bit, Low(g))][a + 1 := Put(e[a + 1], s.bit, High(g))], key, g, k + 1)
  {
    hide Level, Put, Low, High;
    var s := l.Spot(key, k);
    assert 2 * s.pair + 1 < |e| by { hide Gen; SpotInRange(l, key, k); }
    var a := 2 * s.pair;
    var f := e[a := Put(e[a], s.bit, Low(g))][a + 1 := Put(e[a + 1], s.bit, High(g))];
    forall p: Place ensures Gen(f, p) == if p == s then g else Gen(e, p) {
      PutLevel(e[a], e[a + 1], s.bit, g, p.bit);
    }
    hide Gen;
    StampMore(l, d, e, f, key, g, k);
  }

  lemma SpotInRange(l: Layout, key: Key, n: nat)
    requires l.Fits()
    ensures 2 * l.Spot(key, n).pair + 1 < l.size
  {
  }

  lemma StampMore(l: Layout, d: seq<bv64>, e: seq<bv64>, f: seq<bv64>, key: Key, g: int, k: nat)
    requires l.Fits() && StampedTo(l, d, e, key, g, k) && |f| == |e|
    requires forall p: Place :: Gen(f, p) == if p == l.Spot(key, k) then g else Gen(e, p)
    ensures StampedTo(l, d, f, key, g, k + 1)
  {
    hide Gen;
    forall p: Place
      ensures Gen(f, p) == Gen(d, p) || (Gen(f, p) == g && exists n | 0 <= n < k + 1 :: l.Spot(key, n) == p)
    {
      if p == l.Spot(key, k) {
      } else {
        assert Gen(f, p) == Gen(e, p);
      }
    }
  }

  /** The generation map after an insertion: the key's places carry the current generation, and if the
      generation was just entered, all other places that carried it are unset. */
  ghost predicate Updated(l: Layout, d: seq<bv64>, d': seq<bv64>, key: Key, g: int, rolled: bool)
    requires l.Fits()
  {
    forall p: Place :: Gen(d', p) ==
      if exists n | 0 <= n < l.nHashFuncs :: l.Spot(key, n) == p then g
      else if rolled && Gen(d, p) == g then 0 else Gen(d, p)
  }

  lemma UpdateIs(l: Layout, d: seq<bv64>, e: seq<bv64>, d': seq<bv64>, key: Key, g: int, rolled: bool)
    requires l.Fits() && |d| == l.size && StampedTo(l, e, d', key, g, l.nHashFuncs)
    requires if rolled then WipedTo(d, e, g, |d|) else e == d
    ensures Updated(l, d, d', key, g, rolled)
  {
    forall p: Place ensures rolled && 2 * p.pair >= |d| ==> Gen(d, p) == 0 {
    }
    hide Gen;
    forall p: Place ensures Gen(d', p) ==
        if exists n | 0 <= n < l.nHashFuncs :: l.Spot(key, n) == p then g
        else if rolled && Gen(d, p) == g then 0 else Gen(d, p)
    {
      assert Gen(d', p) == Gen(e, p) || Gen(d', p) == g;
      assert rolled ==> Gen(e, p) == if 2 * p.pair < |d| && Gen(d, p) == g then 0 else Gen(d, p);
    }
  }

  /* ---- Memory of the last keys ---- */

  /** How many generations ago a stored number was current. */
  function Age(g: int, stored: int): int { (g - stored) % 3 }

  /** The generation group of the key inserted a insertions ago, given c in the current group of up to e. */
  function Group(a: int, c: int, e: int): int { if a < c then 0 else if a < c + e then 1 else 2 }

  ghost predicate Young(d: seq<bv64>, p: Place, g: int, group: int) {
    Gen(d, p) != 0 && Age(g, Gen(d, p)) <= group
  }

  ghost predicate Kept(l: Layout, d: seq<bv64>, g: int, key: Key, group: int)
    requires l.Fits()
  {
    forall n | 0 <= n < l.nHashFuncs :: Young(d, l.Spot(key, n), g, group)
  }

  function Back(history: seq<Key>, a: int): Key
    requires 0 <= a < |history|
  {
    history[|history| - 1 - a]
  }

  /** Every key of the current and the two previous generations has all its places set, no older than itself. */
  ghost predicate Remembers(l: Layout, d: seq<bv64>, g: int, c: int, e: int, history: seq<Key>)
    requires l.Fits()
  {
    forall a | 0 <= a < |history| && a < c + 2 * e :: Kept(l, d, g, Back(history, a), Group(a, c, e))
  }

  function NextGen(g: int): int { if g + 1 == 4 then 1 else g + 1 }

  /** Moving to the next generation and wiping it forgets only the oldest of the three. */
  lemma RollKeeps(l: Layout, d: seq<bv64>, d': seq<bv64>, g: int, e: int, history: seq<Key>)
    requires l.Fits() && 1 <= g <= 3 && |d| == l.size && 0 <= e
    requires Remembers(l, d, g, e, e, history) && WipedTo(d, d', NextGen(g), l.size)
    ensures Remembers(l, d', NextGen(g), 0, e, history)
  {
    hide Gen;
    forall a | 0 <= a < |history| && a < 0 + 2 * e
      ensures Kept(l, d', NextGen(g), Back(history, a), Group(a, 0, e))
    {
      var key := Back(history, a);
      assert Kept(l, d, g, key, Group(a, e, e));
      forall n | 0 <= n < l.nHashFuncs ensures Young(d', l.Spot(key, n), NextGen(g), Group(a, 0, e)) {
        assert Young(d, l.Spot(key, n), g, Group(a, e, e));
      }
    }
  }

  /** Stamping the new key keeps the others. */
  lemma StampKeeps(l: Layout, d: seq<bv64>, d': seq<bv64>, g: int, c: int, e: int, history: seq<Key>, key: Key)
    requires l.Fits() && 1 <= g <= 3 && 0 <= c && 0 <= e
    requires Remembers(l, d, g, c, e, history) && StampedTo(l, d, d', key, g, l.nHashFuncs)
    ensures Remembers(l, d', g, c + 1, e, history + [key])
  {
    hide Gen;
    var h' := history + [key];
    forall a | 0 <= a < |h'| && a < c + 1 + 2 * e ensures Kept(l, d', g, Back(h', a), Group(a, c + 1, e)) {
      var k := Back(h', a);
      forall n | 0 <= n < l.nHashFuncs ensures Young(d', l.Spot(k, n), g, Group(a, c + 1, e)) {
        if a > 0 {
          assert k == Back(history, a - 1);
          assert Kept(l, d, g, k, Group(a - 1, c, e));
          assert Young(d, l.Spot(k, n), g, Group(a - 1, c, e));
        }
      }
    }
  }

  class RollingBloomFilter {
    const hash: Hasher
    const nHashFuncs: nat
    const nEntriesPerGeneration: nat
    const data: array<bv64>
    var nEntriesThisGeneration: nat
    var nGeneration: int
    var nTweak: int
    /** The keys inserted since the last reset. */
    ghost var history: seq<Key>

    function Shape(): Layout reads this { Layout(hash, nTweak, data.Length, nHashFuncs) }

    ghost predicate Valid()
      reads this, data
    {
      && Shape().Fits() && 1 <= nGeneration <= 3
      && (nEntriesPerGeneration > 0 ==> nEntriesThisGeneration <= nEntriesPerGeneration)
      && Remembers(Shape(), data[..], nGeneration, nEntriesThisGeneration, nEntriesPerGeneration, history)
    }

    constructor (hash: Hasher, nElements: nat, nHashFuncs: nat, nFilterBits: nat, tweak: int)
      requires nFilterBits > 0
      ensures Valid() && fresh(data) && history == [] && this.hash == hash && this.nHashFuncs == nHashFuncs
      ensures nEntriesPerGeneration == (nElements + 1) / 2 && data.Length == (nFilterBits + 63) / 64 * 2
    {
      this.hash, this.nHashFuncs, nEntriesPerGeneration := hash, nHashFuncs, (nElements + 1) / 2;
      data := new bv64[(nFilterBits + 63) / 64 * 2](_ => 0);
      nEntriesThisGeneration, nGeneration, nTweak, history := 0, 1, tweak, [];
    }

    method Reset(tweak: int)
      requires Valid()
      modifies this, data
      ensures Valid() && history == [] && nTweak == tweak && nEntriesThisGeneration == 0 && nGeneration == 1
      ensures forall p: Place :: Gen(data[..], p) == 0
    {
      nTweak, nEntriesThisGeneration, nGeneration, history := tweak, 0, 1, [];
      for i := 0 to data.Length
        modifies data
        invariant forall j | 0 <= j < i :: data[j] == 0
      {
        data[i] := 0;
      }
    }

    /** The wipe loop. */
    method Wipe()
      requires data.Length % 2 == 0 && 1 <= nGeneration <= 3
      modifies data
      ensures WipedTo(old(data[..]), data[..], nGeneration, data.Length)
    {
      hide Gen, Mask, Low, High, And;
      ghost var d := data[..];
      var nGenerationLow, nGenerationHigh := Low(nGeneration), High(nGeneration);
      var p := 0;
      while p < data.Length
        invariant p % 2 == 0 && p <= data.Length && data[p..] == d[p..]
        invariant WipedTo(d, data[..], nGeneration, p)
      {
        ghost var e := data[..];
        assert e[p] == e[p..][0] == d[p] && e[p + 1] == e[p..][1] == d[p + 1];
        WipeStep(d, e, nGeneration, p);
        var p1, p2 := data[p], data[p + 1];
        var mask := Mask(p1, p2, nGenerationLow, nGenerationHigh);
        data[p] := And(p1, mask);
        data[p + 1] := And(p2, mask);
        assert data[..] == e[p := And(d[p], mask)][p + 1 := And(d[p + 1], mask)];
        p := p + 2;
      }
    }

    /** The hashing loop of insert. */
    method Stamp(vKey: Key)
      requires Shape().Fits() && 1 <= nGeneration <= 3
      modifies data
      ensures StampedTo(Shape(), old(data[..]), data[..], vKey, nGeneration, nHashFuncs)
    {
      hide Gen, Put, Low, High;
      ghost var d := data[..];
      for n := 0 to nHashFuncs
        invariant StampedTo(Shape(), d, data[..], vKey, nGeneration, n)
      {
        ghost var e := data[..];
        StampStep(Shape(), d, e, vKey, nGeneration, n);
        var h := hash(n, nTweak, vKey);
        var bit := (h % 64) as bv6;
        var pos := FastMod(h, data.Length);
        var even := pos - pos % 2;
        data[even] := Put(data[even], bit, Low(nGeneration));
        data[even + 1] := Put(data[even + 1], bit, High(nGeneration));
        assert data[..] == e[even := Put(e[even], bit, Low(nGeneration))]
                            [even + 1 := Put(e[even + 1], bit, High(nGeneration))];
      }
    }

    method Insert(vKey: Key)
      requires Valid()
      modifies this, data
      ensures Valid() && history == old(history) + [vKey] && nTweak == old(nTweak)
      ensures nGeneration == (if old(nEntriesThisGeneration) == nEntriesPerGeneration then NextGen(old(nGeneration))
              else old(nGeneration))
      ensures nEntriesThisGeneration == (if old(nEntriesThisGeneration) == nEntriesPerGeneration then 1
              else old(nEntriesThisGeneration) + 1)
      ensures Updated(Shape(), old(data[..]), data[..], vKey, nGeneration,
              old(nEntriesThisGeneration) == nEntriesPerGeneration)
    {
      hide Gen;
      ghost var l, d := Shape(), data[..];
      if nEntriesThisGeneration == nEntriesPerGeneration {
        ghost var g := nGeneration;
        nEntriesThisGeneration := 0;
        nGeneration := nGeneration + 1;
        if nGeneration == 4 {
          nGeneration := 1;
        }
        Wipe();
        RollKeeps(l, d, data[..], g, nEntriesPerGeneration, history);
      }
      d := data[..];
      ghost var c := nEntriesThisGeneration;
      nEntriesThisGeneration := nEntriesThisGeneration + 1;
      Stamp(vKey);
      UpdateIs(l, old(data[..]), d, data[..], vKey, nGeneration, old(nEntriesThisGeneration) == nEntriesPerGeneration);
      StampKeeps(l, d, data[..], nGeneration, c, nEntriesPerGeneration, history, vKey);
      history := history + [vKey];
    }

    /** Exact: true when every place of the key is set; in particular for each of the last
        2 * nEntriesPerGeneration keys, and for those of the running generation before them. */
    method Contains(vKey: Key) returns (r: bool)
      requires Valid()
      ensures r <==> forall n | 0 <= n < nHashFuncs :: Gen(data[..], Shape().Spot(vKey, n)) != 0
      ensures forall a | 0 <= a < |history| && a < nEntriesThisGeneration + 2 * nEntriesPerGeneration
              && Back(history, a) == vKey :: r
    {
      hide On, Or;
      ghost var d := data[..];
      for n := 0 to nHashFuncs
        invariant forall i | 0 <= i < n :: Gen(d, Shape().Spot(vKey, i)) != 0
      {
        var h := hash(n, nTweak, vKey);
        var bit := (h % 64) as bv6;
        var pos := FastMod(h, data.Length);
        var even := pos - pos % 2;
        OrIs(data[even], data[even + 1], bit);
        assert Gen(d, Shape().Spot(vKey, n)) == Level(data[even], data[even + 1], bit);
        if !On(Or(data[even], data[even + 1]), bit) {
          return false;
        }
      }
      return true;
    }
  }

  /** A filter for nElements answers yes for each of the last nElements keys of any sequence of insertions. */
  method Track(hash: Hasher, nElements: nat, nHashFuncs: nat, nFilterBits: nat, tweak: int, keys: seq<Key>, probe: Key)
    returns (r: bool)
    requires nFilterBits > 0
    ensures (exists i | 0 <= i < |keys| && |keys| - nElements <= i :: keys[i] == probe) ==> r
  {
    hide Gen, Updated;
    var filter := new RollingBloomFilter(hash, nElements, nHashFuncs, nFilterBits, tweak);
    for i := 0 to |keys|
      invariant filter.Valid() && fresh(filter) && fresh(filter.data) && filter.history == keys[..i]
    {
      filter.Insert(keys[i]);
    }
    r := filter.Contains(probe);
    if i :| 0 <= i < |keys| && |keys| - nElements <= i && keys[i] == probe {
      assert Back(filter.history, |keys| - 1 - i) == probe;
    }
  }
}
