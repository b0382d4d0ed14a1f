/** The table of the cuckoo cache (src/cuckoocache.h) as a value: slots with a discard flag and an epoch flag,
    the law that every element sits in one of its eight locations, and what storing, swapping and ageing
    do to the set of live elements and to the size of the current epoch. */
module CuckooTable {
  import opened Words

  type Element = int
  /** The default-constructed element that fills a new table. */
  const DEFAULT: Element := 0
  const WAYS := 8
  type Hasher = (nat, Element) -> Word

  datatype Layout = Layout(hash: Hasher, size: nat) {
    /** compute_hashes. */
    function Loc(e: Element, k: nat): (r: nat)
      requires size > 0
      ensures r < size
    {
      FastMod(hash(k, e), size)
    }

    ghost predicate Home(e: Element, i: nat)
      requires size > 0
    {
      exists k | 0 <= k < WAYS :: Loc(e, k) == i
    }
  }

  datatype Table = Table(slots: seq<Element>, dead: seq<bool>, recent: seq<bool>) {
    predicate Shaped(n: nat) { |slots| == |dead| == |recent| == n }

    /** The elements that may not be overwritten silently. */
    ghost function Live(): set<Element>
      requires Shaped(|slots|)
    {
      set i | 0 <= i < |slots| && !dead[i] :: slots[i]
    }

    function Store(i: nat, e: Element, r: bool): Table
      requires Shaped(|slots|) && i < |slots|
    {
      Table(slots[i := e], dead[i := false], recent[i := r])
    }

    /** Elements of the current epoch become old, elements of the old epoch become discardable. */
    function Aged(): Table
      requires Shaped(|slots|)
    {
      Table(slots, seq(|slots|, i requires 0 <= i < |slots| => dead[i] || !recent[i]), seq(|slots|, _ => false))
    }
  }

  /** Every slot is untouched or holds an element in one of its own locations. */
  ghost predicate Placed(l: Layout, t: Table)
    requires l.size > 0 && t.Shaped(l.size)
  {
    forall i | 0 <= i < l.size :: (t.slots[i] == DEFAULT && t.dead[i]) || l.Home(t.slots[i], i)
  }

  /** No element but the default one is stored twice. */
  ghost predicate Unique(t: Table) {
    forall i, j | 0 <= i < j < |t.slots| :: t.slots[i] == t.slots[j] ==> t.slots[i] == DEFAULT
  }

  ghost predicate Sound(l: Layout, t: Table) { l.size > 0 && t.Shaped(l.size) && Placed(l, t) && Unique(t) }

  /** An element held outside the table. */
  ghost predicate Loose(t: Table, e: Element) { e != DEFAULT ==> e !in t.slots }

  /** The table has exactly the live elements of another plus one, except at most one lost. */
  ghost predicate GainsBut(t: Table, t': Table, e: Element, lost: Element)
    requires t.Shaped(|t.slots|) && t'.Shaped(|t'.slots|)
  {
    t'.Live() + {lost} == t.Live() + {e} + {lost} && t'.Live() <= t.Live() + {e}
  }

  /** Live elements are found at their locations. */
  lemma LiveFound(l: Layout, t: Table, e: Element)
    requires Sound(l, t) && (e in t.Live() || (e in t.slots && e != DEFAULT))
    ensures exists k | 0 <= k < WAYS :: t.slots[l.Loc(e, k)] == e
  {
    var i :| 0 <= i < l.size && t.slots[i] == e && (!t.dead[i] || e != DEFAULT);
    assert l.Home(e, i);
  }

  lemma NotFound(l: Layout, t: Table, e: Element)
    requires Sound(l, t) && forall k | 0 <= k < WAYS :: t.slots[l.Loc(e, k)] != e
    ensures Loose(t, e)
  {
    if e != DEFAULT && e in t.slots {
      LiveFound(l, t, e);
    }
  }

  /** Storing keeps the table sound when the element is loose or is already there. */
  lemma StoreSound(l: Layout, t: Table, i: nat, e: Element, r: bool)
    requires Sound(l, t) && i < l.size && l.Home(e, i) && (Loose(t, e) || t.slots[i] == e)
    ensures Sound(l, t.Store(i, e, r))
  {
    hide Placed, Unique;
    StorePlaced(l, t, i, e, r);
    StoreUnique(t, i, e, r);
  }

  lemma StorePlaced(l: Layout, t: Table, i: nat, e: Element, r: bool)
    requires l.size > 0 && t.Shaped(l.size) && Placed(l, t) && i < l.size && l.Home(e, i)
    ensures Placed(l, t.Store(i, e, r))
  {
    hide l.Home;
  }

  lemma StoreUnique(t: Table, i: nat, e: Element, r: bool)
    requires t.Shaped(|t.slots|) && i < |t.slots| && Unique(t) && (Loose(t, e) || t.slots[i] == e)
    ensures Unique(t.Store(i, e, r))
  {
  }

  /** Filling a discardable slot, or reviving a slot that already holds the element, loses nothing. */
  lemma StoreGains(t: Table, i: nat, e: Element, r: bool)
    requires t.Shaped(|t.slots|) && i < |t.slots| && (t.dead[i] || t.slots[i] == e)
    ensures t.Store(i, e, r).Live() == t.Live() + {e}
  {
    var t' := t.Store(i, e, r);
    assert !t'.dead[i] && t'.slots[i] == e;
    forall x ensures x in t'.Live() <==> x in t.Live() + {e} {
      if x in t'.Live() {
        var j :| 0 <= j < |t'.slots| && !t'.dead[j] && t'.slots[j] == x;
        assert j != i ==> !t.dead[j] && t.slots[j] == x;
      }
      if x in t.Live() {
        var j :| 0 <= j < |t.slots| && !t.dead[j] && t.slots[j] == x;
        assert j == i ==> t.slots[i] == e;
        assert j != i ==> !t'.dead[j] && t'.slots[j] == x;
      }
    }
  }

  /** Swapping into a live slot trades one element for another. */
  lemma SwapTrades(t: Table, i: nat, e: Element, r: bool)
    requires t.Shaped(|t.slots|) && i < |t.slots| && !t.dead[i]
    ensures var x := t.slots[i]; t.Store(i, e, r).Live() + {x} == t.Live() + {e}
  {
    var t', x := t.Store(i, e, r), t.slots[i];
    assert !t'.dead[i] && t'.slots[i] == e;
    assert x in t.Live();
    forall y ensures y in t'.Live() + {x} <==> y in t.Live() + {e} {
      if y in t'.Live() {
        var j :| 0 <= j < |t'.slots| && !t'.dead[j] && t'.slots[j] == y;
        assert j != i ==> !t.dead[j] && t.slots[j] == y;
      }
      if y in t.Live() {
        var j :| 0 <= j < |t.slots| && !t.dead[j] && t.slots[j] == y;
        assert j != i ==> !t'.dead[j] && t'.slots[j] == y;
      }
    }
  }

  lemma SwapLoose(t: Table, i: nat, e: Element, r: bool)
    requires t.Shaped(|t.slots|) && i < |t.slots| && Unique(t) && Loose(t, e)
    ensures Loose(t.Store(i, e, r), t.slots[i])
  {
  }

  /* ---- The current epoch ---- */

  function Flag(dead: bool, recent: bool): nat { if recent && !dead then 1 else 0 }

  function Count(dead: seq<bool>, recent: seq<bool>, n: nat): (c: nat)
    requires n <= |dead| == |recent|
    ensures c <= n
  {
    if n == 0 then 0 else Count(dead, recent, n - 1) + Flag(dead[n - 1], recent[n - 1])
  }

  /** Live elements of the current epoch. */
  function Current(t: Table): nat
    requires t.Shaped(|t.slots|)
  {
    Count(t.dead, t.recent, |t.slots|)
  }

  lemma {:induction false} CountPut(dead: seq<bool>, recent: seq<bool>, n: nat, i: nat, d: bool, r: bool)
    requires n <= |dead| == |recent| && i < |dead|
    ensures Count(dead[i := d], recent[i := r], n) ==
            Count(dead, recent, n) + if i < n then Flag(d, r) - Flag(dead[i], recent[i]) else 0
  {
    if n > 0 {
      CountPut(dead, recent, n - 1, i, d, r);
    }
  }

  lemma StoreCount(t: Table, i: nat, e: Element, r: bool)
    requires t.Shaped(|t.slots|) && i < |t.slots|
    ensures Current(t.Store(i, e, r)) == Current(t) + Flag(false, r) - Flag(t.dead[i], t.recent[i])
  {
    hide Count;
    CountPut(t.dead, t.recent, |t.slots|, i, false, r);
  }

  lemma {:induction false} CountNone(dead: seq<bool>, recent: seq<bool>, n: nat)
    requires n <= |dead| == |recent|
    requires forall i | 0 <= i < n :: Flag(dead[i], recent[i]) == 0
    ensures Count(dead, recent, n) == 0
  {
    if n > 0 {
      CountNone(dead, recent, n - 1);
    }
  }

  /** Marking slots discardable cannot enlarge the epoch. */
  lemma {:induction false} CountMark(dead: seq<bool>, recent: seq<bool>, n: nat, i: nat)
    requires n <= |dead| == |recent| && i < |dead|
    ensures Count(dead[i := true], recent, n) <= Count(dead, recent, n)
    decreases n
  {
    if n > 0 {
      CountMark(dead, recent, n - 1, i);
    }
  }

  /** Ageing leaves the current epoch empty and keeps exactly its elements. */
  lemma AgedIs(l: Layout, t: Table)
    requires Sound(l, t)
    ensures Sound(l, t.Aged()) && Current(t.Aged()) == 0
    ensures t.Aged().Live() == set i | 0 <= i < |t.slots| && !t.dead[i] && t.recent[i] :: t.slots[i]
  {
    var a := t.Aged();
    CountNone(a.dead, a.recent, |a.slots|);
    assert Placed(l, a) by { hide l.Home; }
    var s := set i | 0 <= i < |t.slots| && !t.dead[i] && t.recent[i] :: t.slots[i];
    forall x ensures x in a.Live() <==> x in s {
      if x in a.Live() {
        var i :| 0 <= i < |a.slots| && !a.dead[i] && a.slots[i] == x;
      }
      if x in s {
        var i :| 0 <= i < |t.slots| && !t.dead[i] && t.recent[i] && t.slots[i] == x;
        assert !a.dead[i] && a.slots[i] == x;
      }
    }
  }

  function Marked(t: Table, i: nat): Table
    requires t.Shaped(|t.slots|) && i < |t.slots|
  {
    t.(dead := t.dead[i := true])
  }

  /** Allowing erasure keeps placement and takes exactly that element out of the live ones. */
  lemma MarkedIs(l: Layout, t: Table, i: nat)
    requires Sound(l, t) && i < l.size
    ensures Sound(l, Marked(t, i)) && Current(Marked(t, i)) <= Current(t)
    ensures t.slots[i] != DEFAULT ==> Marked(t, i).Live() == t.Live() - {t.slots[i]}
  {
    var m := Marked(t, i);
    CountMark(t.dead, t.recent, |t.slots|, i);
    assert Placed(l, m) by { hide l.Home; }
    if t.slots[i] != DEFAULT {
      forall x ensures x in m.Live() <==> x in t.Live() && x != t.slots[i] {
        if x in t.Live() && x != t.slots[i] {
          var j :| 0 <= j < |t.slots| && !t.dead[j] && t.slots[j] == x;
          assert !m.dead[j] && m.slots[j] == x;
        }
      }
    }
  }
}
