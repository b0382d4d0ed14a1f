/** The block assembler (src/miner.h, src/miner.cpp). */
module Miner {
  import opened Basics
  import opened Mempool
  import opened AncestorScore

  const MAX_BLOCK_SIGOPS_COST := 80000
  const MAX_CONSECUTIVE_FAILURES := 1000

  ghost function Elems(s: seq<Tx>): set<Tx> { set t | t in s }

  /** Fees carry no prioritisation. */
  ghost predicate PlainFees(p: Pool) { forall t | t in p.entries :: p.entries[t].modifiedFee == p.entries[t].nFee }

  /** The figures of `m` are those of the package of `t` less the entries `s`. */
  ghost predicate Figures(p: Pool, t: Tx, m: Mod, s: set<Tx>)
  {
    && m.nSize == p.Sum(Size, p.Package(t)) - p.Sum(Size, s)
    && m.nSigOpCost == p.Sum(SigOps, p.Package(t)) - p.Sum(SigOps, s)
    && (PlainFees(p) ==> m.nModFees == p.Sum(ModFee, p.Package(t)) - p.Sum(ModFee, s))
  }

  /** What mapModifiedTx means at `t`. `inc[t]` are the included entries accounted for so far at `t`, `sub[t]`
      those of them subtracted from its figures: all its ancestors among them, unless `t` failed before. */
  ghost predicate TracksAt(p: Pool, block: set<Tx>, mod: Modified, sub: map<Tx, set<Tx>>, failed: set<Tx>,
                           inc: map<Tx, set<Tx>>, t: Tx)
    requires t in inc
  {
    var included := p.Anc(t) * inc[t];
    if t in mod then
      && t !in block && t in sub && sub[t] <= included && Figures(p, t, mod[t], sub[t])
      && (t !in failed ==> sub[t] == included)
    else
      t !in sub && (t !in block && t !in failed ==> included == {})
  }

  ghost predicate Tracks(p: Pool, block: set<Tx>, mod: Modified, sub: map<Tx, set<Tx>>, failed: set<Tx>,
                         inc: map<Tx, set<Tx>>)
  {
    && mod.Keys <= p.entries.Keys && inc.Keys == p.entries.Keys
    && forall t | t in p.entries :: TracksAt(p, block, mod, sub, failed, inc, t)
  }

  ghost function Everywhere(p: Pool, s: set<Tx>): map<Tx, set<Tx>> { map t | t in p.entries :: s }

  /** The new figures of `d` when its ancestor `it` is included: the modified fee is subtracted from a
      fresh entry, the base fee from one already present. */
  function Subtracted(p: Pool, mod: Modified, d: Tx, it: Tx): Mod
    requires it in p.entries && d in p.entries
  {
    var e := p.entries[it];
    if d in mod then Mod(mod[d].nSize - p.TxSize(it), mod[d].nModFees - e.nFee, mod[d].nSigOpCost - e.sigOpCost)
    else Mod(Fresh(p, d).nSize - p.TxSize(it), Fresh(p, d).nModFees - e.modifiedFee,
        Fresh(p, d).nSigOpCost - e.sigOpCost)
  }

  lemma AccountFigures(p: Pool, mod: Modified, d: Tx, it: Tx, s: set<Tx>)
    requires d in p.entries && p.Cached(d) && it in p.entries && it !in s
    requires if d in mod then Figures(p, d, mod[d], s) else s == {}
    ensures Figures(p, d, Subtracted(p, mod, d, it), s + {it})
  {
    SumPut(p, Size, s, it);
    SumPut(p, SigOps, s, it);
    SumPut(p, ModFee, s, it);
    SumNothing(p);
  }

  /** One step of UpdatePackagesForAdded. */
  lemma Account(p: Pool, block: set<Tx>, mod: Modified, sub: map<Tx, set<Tx>>, failed: set<Tx>, inc: map<Tx, set<Tx>>,
                it: Tx, d: Tx)
    requires Tracks(p, block, mod, sub, failed, inc)
    requires d in p.entries && p.Cached(d) && it in p.entries && d !in block && it in p.Anc(d) && it !in inc[d]
    ensures Tracks(p, block, mod[d := Subtracted(p, mod, d, it)], sub[d := (if d in sub then sub[d] else {}) + {it}],
                   failed, inc[d := inc[d] + {it}])
  {
    hide Figures, Subtracted, TracksAt;
    var s := if d in sub then sub[d] else {};
    forall t | t in p.entries
      ensures TracksAt(p, block, mod[d := Subtracted(p, mod, d, it)], sub[d := s + {it}], failed,
              inc[d := inc[d] + {it}], t)
    {
      if t == d {
        AccountHere(p, block, mod, sub, failed, inc, it, d);
      } else {
        AccountElsewhere(p, block, mod, sub, failed, inc, d, Subtracted(p, mod, d, it), s + {it}, inc[d] + {it}, t);
      }
    }
  }

  lemma AccountHere(p: Pool, block: set<Tx>, mod: Modified, sub: map<Tx, set<Tx>>, failed: set<Tx>,
                    inc: map<Tx, set<Tx>>, it: Tx, d: Tx)
    requires d in inc && TracksAt(p, block, mod, sub, failed, inc, d)
    requires d in p.entries && p.Cached(d) && it in p.entries && d !in block && it in p.Anc(d) && it !in inc[d]
    ensures TracksAt(p, block, mod[d := Subtracted(p, mod, d, it)], sub[d := (if d in sub then sub[d] else {}) + {it}],
                     failed, inc[d := inc[d] + {it}], d)
  {
    hide Figures, Subtracted;
    AccountFigures(p, mod, d, it, if d in sub then sub[d] else {});
    assert p.Anc(d) * (inc[d] + {it}) == p.Anc(d) * inc[d] + {it};
  }

  lemma AccountElsewhere(p: Pool, block: set<Tx>, mod: Modified, sub: map<Tx, set<Tx>>, failed: set<Tx>,
                         inc: map<Tx, set<Tx>>,
                         d: Tx, m: Mod, s: set<Tx>, i: set<Tx>, t: Tx)
    requires t in inc && t != d && TracksAt(p, block, mod, sub, failed, inc, t)
    ensures TracksAt(p, block, mod[d := m], sub[d := s], failed, inc[d := i], t)
  {
    hide Figures;
  }

  /** Accounting for entries that are no ancestors changes nothing. */
  lemma AccountRest(p: Pool, block: set<Tx>, mod: Modified, sub: map<Tx, set<Tx>>, failed: set<Tx>,
                    inc: map<Tx, set<Tx>>, inc': map<Tx, set<Tx>>)
    requires Tracks(p, block, mod, sub, failed, inc) && inc'.Keys == inc.Keys
    requires forall t | t in p.entries && t !in block :: p.Anc(t) * inc'[t] == p.Anc(t) * inc[t]
    ensures Tracks(p, block, mod, sub, failed, inc')
  {
    hide Figures;
    forall t | t in p.entries
      ensures TracksAt(p, block, mod, sub, failed, inc', t)
    {
      assert TracksAt(p, block, mod, sub, failed, inc, t);
    }
  }

  /** Every ancestor of every entry of the list comes before it, and nothing twice. */
  ghost predicate Ordered(p: Pool, vtx: seq<Tx>)
  {
    forall i | 0 <= i < |vtx| :: vtx[i] in p.entries && vtx[i] !in vtx[..i] && p.Anc(vtx[i]) <= Elems(vtx[..i])
  }

  lemma OrderedMore(p: Pool, vtx: seq<Tx>, t: Tx)
    requires Ordered(p, vtx) && t in p.entries && t !in Elems(vtx) && p.Anc(t) <= Elems(vtx)
    ensures Ordered(p, vtx + [t]) && Elems(vtx + [t]) == Elems(vtx) + {t}
  {
    var w := vtx + [t];
    forall i | 0 <= i < |w|
      ensures w[i] in p.entries && w[i] !in w[..i] && p.Anc(w[i]) <= Elems(w[..i])
    {
      if i < |vtx| {
        assert w[..i] == vtx[..i] && w[i] == vtx[i];
      } else {
        assert w[..i] == vtx;
      }
    }
  }

  /** A block holds the ancestors of all its entries. */
  ghost predicate Closed(p: Pool, block: set<Tx>)
  {
    block <= p.entries.Keys && forall t | t in block :: p.Anc(t) <= block
  }

  lemma OrderedClosed(p: Pool, vtx: seq<Tx>)
    requires Ordered(p, vtx)
    ensures Closed(p, Elems(vtx))
  {
    forall t | t in Elems(vtx)
      ensures t in p.entries && p.Anc(t) <= Elems(vtx)
    {
      var i :| 0 <= i < |vtx| && vtx[i] == t;
      assert Elems(vtx[..i]) <= Elems(vtx);
    }
  }

  /** CalculateDescendants: `t` and everything that depends on it. */
  function Descendants(p: Pool, t: Tx): set<Tx> { set d | d in p.entries && (d == t || t in p.Anc(d)) }

  ghost function AtDescendants(p: Pool, base: set<Tx>, it: Tx, ds: set<Tx>): map<Tx, set<Tx>> {
    map t | t in p.entries :: if t in ds then base + {it} else base
  }

  lemma AtOneMore(p: Pool, base: set<Tx>, it: Tx, ds: set<Tx>, d: Tx)
    requires d in p.entries && d !in ds
    ensures AtDescendants(p, base, it, ds)[d] == base
    ensures AtDescendants(p, base, it, ds + {d}) == AtDescendants(p, base, it, ds)[d := base + {it}]
  {
  }

  lemma AtNone(p: Pool, base: set<Tx>, it: Tx)
    ensures AtDescendants(p, base, it, {}) == Everywhere(p, base)
  {
  }

  lemma AtAll(p: Pool, block: set<Tx>, mod: Modified, sub: map<Tx, set<Tx>>, failed: set<Tx>, base: set<Tx>, it: Tx,
              ds: set<Tx>)
    requires Tracks(p, block, mod, sub, failed, AtDescendants(p, base, it, ds))
    requires forall t | t in p.entries && t !in block && it in p.Anc(t) :: t in ds
    ensures Tracks(p, block, mod, sub, failed, Everywhere(p, base + {it}))
  {
    hide Tracks;
    AccountRest(p, block, mod, sub, failed, AtDescendants(p, base, it, ds), Everywhere(p, base + {it}));
  }

  /** A descendant of a newly included entry is new as well or not included. */
  lemma DescendantOutside(p: Pool, block: set<Tx>, added: set<Tx>, it: Tx, d: Tx)
    requires Closed(p, block - added) && it in added && d in Descendants(p, it) && d !in added
    ensures d !in block && it in p.Anc(d)
  {
  }

  /** No entry leaves the table. */
  ghost predicate Keeps(mod0: Modified, mod: Modified) { mod0.Keys <= mod.Keys }

  lemma KeepsSame(mod: Modified)
    ensures Keeps(mod, mod)
  {
  }

  lemma KeepsMore(mod0: Modified, mod: Modified, t: Tx, m: Mod)
    requires Keeps(mod0, mod)
    ensures Keeps(mod0, mod[t := m])
  {
  }

  lemma KeepsOn(a: Modified, b: Modified, c: Modified)
    requires Keeps(a, b) && Keeps(b, c)
    ensures Keeps(a, c)
  {
  }

  /** Subtracts the newly included `it` from all its descendants outside the block. */
  method UpdateDescendants(p: Pool, it: Tx, alreadyAdded: set<Tx>, mod0: Modified, ghost block: set<Tx>,
                           ghost base: set<Tx>,
                           ghost sub0: map<Tx, set<Tx>>, ghost failed: set<Tx>)
    returns (n: nat, mod: Modified, ghost sub: map<Tx, set<Tx>>)
    requires p.Valid() && it in p.entries && it in alreadyAdded && it !in base && alreadyAdded <= block
    requires Closed(p, block - alreadyAdded)
    requires Tracks(p, block, mod0, sub0, failed, Everywhere(p, base))
    ensures Tracks(p, block, mod, sub, failed, Everywhere(p, base + {it}))
    ensures Keeps(mod0, mod)
  {
    hide *;
    n, mod, sub := 0, mod0, sub0;
    KeepsSame(mod0);
    ghost var ds: set<Tx> := {};
    AtNone(p, base, it);
    var all := Descendants(p, it);
    var todo := all;
    while todo != {}
      invariant todo <= all && ds == all - todo - alreadyAdded && Keeps(mod0, mod)
      invariant Tracks(p, block, mod, sub, failed, AtDescendants(p, base, it, ds))
      decreases |todo|
    {
      SomeMember(todo);
      var desc :| desc in todo;
      InPool(p, it, desc);
      todo := todo - {desc};
      if desc !in alreadyAdded {
        n := n + 1;
        DescendantOutside(p, block, alreadyAdded, it, desc);
        AtOneMore(p, base, it, ds, desc);
        Account(p, block, mod, sub, failed, AtDescendants(p, base, it, ds), it, desc);
        sub := sub[desc := (if desc in sub then sub[desc] else {}) + {it}];
        KeepsMore(mod0, mod, desc, Subtracted(p, mod, desc, it));
        mod := mod[desc := Subtracted(p, mod, desc, it)];
        ds := ds + {desc};
      }
    }
    assert ds == all - alreadyAdded;
    AllDescendants(p, it);
    AtAll(p, block, mod, sub, failed, base, it, ds);
  }

  lemma InPool(p: Pool, it: Tx, d: Tx)
    requires p.Valid() && d in Descendants(p, it)
    ensures d in p.entries && p.Cached(d)
  {
  }

  lemma ClosedIn(p: Pool, block: set<Tx>)
    requires Closed(p, block)
    ensures block <= p.entries.Keys
  {
  }

  lemma ClosedNothing(p: Pool)
    ensures Closed(p, {})
  {
  }

  lemma AllDescendants(p: Pool, it: Tx)
    ensures forall t | t in p.entries && it in p.Anc(t) :: t in Descendants(p, it)
  {
  }

  method UpdatePackagesForAdded(p: Pool, alreadyAdded: set<Tx>, mod0: Modified, ghost block: set<Tx>,
                                ghost sub0: map<Tx, set<Tx>>, ghost failed: set<Tx>)
    returns (nDescendantsUpdated: nat, mod: Modified, ghost sub: map<Tx, set<Tx>>)
    requires p.Valid() && Closed(p, block) && Closed(p, block - alreadyAdded) && alreadyAdded <= block
    requires Tracks(p, block, mod0, sub0, failed, Everywhere(p, block - alreadyAdded))
    ensures Tracks(p, block, mod, sub, failed, Everywhere(p, block))
    ensures Keeps(mod0, mod)
  {
    hide *;
    ClosedIn(p, block);
    nDescendantsUpdated, mod, sub := 0, mod0, sub0;
    KeepsSame(mod0);
    ghost var base := block - alreadyAdded;
    var todo := alreadyAdded;
    while todo != {}
      invariant todo <= alreadyAdded && base == block - todo && Keeps(mod0, mod)
      invariant Tracks(p, block, mod, sub, failed, Everywhere(p, base))
      decreases |todo|
    {
      SomeMember(todo);
      var it :| it in todo;
      var n;
      ghost var mod1 := mod;
      n, mod, sub := UpdateDescendants(p, it, alreadyAdded, mod, block, base, sub, failed);
      KeepsOn(mod0, mod1, mod);
      nDescendantsUpdated := nDescendantsUpdated + n;
      todo := todo - {it};
      base := base + {it};
    }
    assert base == block;
  }

  /* ---- SortForBlock ---- */

  /** CompareTxIterByAncestorCount. */
  predicate Before(p: Pool, a: Tx, b: Tx)
    requires a in p.entries && b in p.entries
  {
    if p.entries[a].nCountWithAncestors != p.entries[b].nCountWithAncestors
    then p.entries[a].nCountWithAncestors < p.entries[b].nCountWithAncestors
    else a < b
  }

  lemma {:induction false} HasFirst(p: Pool, s: set<Tx>)
    requires s != {} && s <= p.entries.Keys
    ensures exists x :: x in s && forall y | y in s && y != x :: Before(p, x, y)
    decreases |s|
  {
    var x := Pick(s);
    var q := s - {x};
    assert s == q + {x};
    if q == {} {
      assert x in s && forall y | y in s && y != x :: Before(p, x, y);
    } else {
      HasFirst(p, q);
      var m :| m in q && forall y | y in q && y != m :: Before(p, m, y);
      var f := if Before(p, m, x) then m else x;
      forall y | y in s && y != f
        ensures Before(p, f, y)
      {
        assert y == x || y in q;
      }
    }
  }

  /** An entry has more ancestors than each of its ancestors. */
  lemma AncestorFirst(p: Pool, a: Tx, t: Tx)
    requires p.Valid() && t in p.entries && a in p.Anc(t)
    ensures a in p.entries && Before(p, a, t)
  {
    assert p.Cached(a) && p.Cached(t);
    assert p.Package(t) == p.Package(a) + (p.Package(t) - p.Package(a));
    assert t in p.Package(t) - p.Package(a);
  }

  /** Nothing twice, and every ancestor within the package first. */
  ghost predicate Sorted(p: Pool, package: set<Tx>, sorted: seq<Tx>) {
    forall i | 0 <= i < |sorted| :: sorted[i] !in sorted[..i] && p.Anc(sorted[i]) * package <= Elems(sorted[..i])
  }

  lemma SortedNone(p: Pool, package: set<Tx>)
    ensures Sorted(p, package, [])
  {
  }

  /** SortForBlock: the package in an order fit for a block. */
  method SortForBlock(p: Pool, package: set<Tx>) returns (sorted: seq<Tx>)
    requires p.Valid() && package <= p.entries.Keys
    ensures Elems(sorted) == package && |sorted| == |package|
    ensures Sorted(p, package, sorted)
  {
    hide Pool.Valid, Before, Sorted;
    SortedNone(p, package);
    sorted := [];
    var rest := package;
    while rest != {}
      invariant rest <= package && Elems(sorted) == package - rest && |sorted| == |package| - |rest|
      invariant Sorted(p, package, sorted)
      decreases |rest|
    {
      HasFirst(p, rest);
      var x :| x in rest && forall y | y in rest && y != x :: Before(p, x, y);
      forall a | a in p.Anc(x) * package
        ensures a in Elems(sorted)
      {
        AncestorFirst(p, a, x);
        BeforeStrict(p, a, x);
      }
      SortedMore(p, package, sorted, x);
      sorted := sorted + [x];
      rest := rest - {x};
    }
  }

  lemma BeforeStrict(p: Pool, a: Tx, b: Tx)
    requires a in p.entries && b in p.entries && Before(p, a, b)
    ensures a != b && !Before(p, b, a)
  {
  }

  lemma SortedMore(p: Pool, package: set<Tx>, sorted: seq<Tx>, x: Tx)
    requires Sorted(p, package, sorted)
    requires x !in Elems(sorted) && p.Anc(x) * package <= Elems(sorted)
    ensures var w := sorted + [x];
            && Elems(w) == Elems(sorted) + {x}
            && Sorted(p, package, w)
  {
    var w := sorted + [x];
    forall i | 0 <= i < |w|
      ensures w[i] !in w[..i] && p.Anc(w[i]) * package <= Elems(w[..i])
    {
      if i < |sorted| {
        assert w[..i] == sorted[..i] && w[i] == sorted[i];
      } else {
        assert w[..i] == sorted;
      }
    }
  }

  /* ---- What the figures of a candidate are worth ---- */

  /** What is still to be included with `t`: onlyUnconfirmed of its ancestors, and itself. */
  ghost function Missing(p: Pool, block: set<Tx>, t: Tx): set<Tx> { p.Anc(t) - block + {t} }

  lemma MissingSum(p: Pool, m: Measure, block: set<Tx>, t: Tx)
    requires t !in block && t !in p.Anc(t)
    ensures p.Sum(m, Missing(p, block, t)) == p.Sum(m, p.Package(t)) - p.Sum(m, p.Anc(t) * block)
  {
    SumUnion(p, m, p.Anc(t) * block, Missing(p, block, t));
    assert p.Anc(t) * block + Missing(p, block, t) == p.Package(t);
  }

  /** The figures of a modified entry never fall below what is still to be included with it, and are
      exact unless it failed before. */
  lemma FiguresBound(p: Pool, block: set<Tx>, mod: Modified, sub: map<Tx, set<Tx>>, failed: set<Tx>, t: Tx)
    requires p.Valid() && Tracks(p, block, mod, sub, failed, Everywhere(p, block)) && t in mod
    ensures t in p.entries && t !in block
    ensures mod[t].nSize >= p.Sum(Size, Missing(p, block, t)) >= 0
    ensures mod[t].nSigOpCost >= p.Sum(SigOps, Missing(p, block, t)) >= 0
    ensures t !in failed ==>
            mod[t].nSize == p.Sum(Size, Missing(p, block, t))
            && mod[t].nSigOpCost == p.Sum(SigOps, Missing(p, block, t))
    ensures t !in failed && PlainFees(p) ==> mod[t].nModFees == p.Sum(ModFee, Missing(p, block, t))
  {
    assert TracksAt(p, block, mod, sub, failed, Everywhere(p, block), t);
    hide Pool.Valid, Tracks;
    NotOwnAncestor(p, t);
    MissingSum(p, Size, block, t);
    MissingSum(p, SigOps, block, t);
    MissingSum(p, ModFee, block, t);
    SumSubset(p, Size, sub[t], p.Anc(t) * block);
    SumSubset(p, SigOps, sub[t], p.Anc(t) * block);
    SumNonNegative(p, Size, Missing(p, block, t));
    SumNonNegative(p, SigOps, Missing(p, block, t));
  }

  lemma NotOwnAncestor(p: Pool, t: Tx)
    requires p.Valid() && t in p.entries
    ensures t !in p.Anc(t) && p.Anc(t) <= p.entries.Keys
  {
  }

  lemma PoolCached(p: Pool, t: Tx)
    requires p.Valid() && t in p.entries
    ensures p.Cached(t)
  {
  }

  lemma NoneIncluded(p: Pool, block: set<Tx>, mod: Modified, sub: map<Tx, set<Tx>>, failed: set<Tx>, t: Tx)
    requires Tracks(p, block, mod, sub, failed, Everywhere(p, block))
    requires t in p.entries && t !in block && t !in mod && t !in failed
    ensures p.Anc(t) * block == {}
  {
    assert TracksAt(p, block, mod, sub, failed, Everywhere(p, block), t);
  }

  /** The cached figures of an entry that is neither modified nor failed are exact. */
  lemma CachedExact(p: Pool, block: set<Tx>, mod: Modified, sub: map<Tx, set<Tx>>, failed: set<Tx>, t: Tx)
    requires p.Valid() && Tracks(p, block, mod, sub, failed, Everywhere(p, block))
    requires t in p.entries && t !in block && t !in mod && t !in failed
    ensures p.entries[t].nSizeWithAncestors == p.Sum(Size, Missing(p, block, t)) >= 0
    ensures p.entries[t].nSigOpCostWithAncestors == p.Sum(SigOps, Missing(p, block, t)) >= 0
    ensures p.entries[t].nModFeesWithAncestors == p.Sum(ModFee, Missing(p, block, t))
  {
    hide Pool.Valid, Tracks;
    NoneIncluded(p, block, mod, sub, failed, t);
    PoolCached(p, t);
    assert Missing(p, block, t) == p.Package(t);
    SumNonNegative(p, Size, Missing(p, block, t));
    SumNonNegative(p, SigOps, Missing(p, block, t));
  }

  lemma DropFailed(p: Pool, block: set<Tx>, mod: Modified, sub: map<Tx, set<Tx>>, failed: set<Tx>,
                   inc: map<Tx, set<Tx>>, t: Tx)
    requires Tracks(p, block, mod, sub, failed, inc)
    ensures Tracks(p, block, mod - {t}, sub - {t}, failed + {t}, inc)
  {
    hide Figures;
    forall u | u in p.entries
      ensures TracksAt(p, block, mod - {t}, sub - {t}, failed + {t}, inc, u)
    {
      assert TracksAt(p, block, mod, sub, failed, inc, u);
    }
  }

  lemma DropIncluded(p: Pool, block: set<Tx>, mod: Modified, sub: map<Tx, set<Tx>>, failed: set<Tx>,
                     inc: map<Tx, set<Tx>>, t: Tx)
    requires Tracks(p, block, mod, sub, failed, inc)
    ensures Tracks(p, block + {t}, mod - {t}, sub - {t}, failed, inc)
  {
    hide Figures;
    forall u | u in p.entries
      ensures TracksAt(p, block + {t}, mod - {t}, sub - {t}, failed, inc, u)
    {
      assert TracksAt(p, block, mod, sub, failed, inc, u);
    }
  }

  lemma TracksNothing(p: Pool, block: set<Tx>)
    ensures Tracks(p, block, map[], map[], {}, Everywhere(p, {}))
  {
  }

  lemma MissingPackage(p: Pool, block: set<Tx>, t: Tx)
    requires p.Valid() && t in p.entries && t !in block
    ensures var m := Missing(p, block, t);
            m <= p.entries.Keys && m !! block && t in m && forall u | u in m :: p.Anc(u) <= block + m
  {
  }

  lemma MissingIs(p: Pool, block: set<Tx>, t: Tx)
    ensures Missing(p, block, t) == p.Anc(t) - block + {t}
  {
  }

  lemma FreshIs(p: Pool, t: Tx)
    requires t in p.entries
    ensures Fresh(p, t).nSize == p.entries[t].nSizeWithAncestors
            && Fresh(p, t).nSigOpCost == p.entries[t].nSigOpCostWithAncestors
  {
  }

  lemma ElemsTake(s: seq<Tx>, i: nat)
    requires i <= |s|
    ensures Elems(s[..0]) == {}
    ensures i < |s| ==> Elems(s[..i + 1]) == Elems(s[..i]) + {s[i]} && s[i] in Elems(s)
    ensures Elems(s[..i]) <= Elems(s)
  {
    assert i < |s| ==> s[..i + 1] == s[..i] + [s[i]];
  }

  lemma SortedAt(p: Pool, package: set<Tx>, sorted: seq<Tx>, i: nat)
    requires Sorted(p, package, sorted) && i < |sorted|
    ensures sorted[i] !in Elems(sorted[..i]) && p.Anc(sorted[i]) * package <= Elems(sorted[..i])
  {
  }

  lemma Grown(a: set<Tx>, b: set<Tx>, t: Tx)
    requires b <= a && t in a && t !in b
    ensures |b| < |a|
  {
    assert a == b + (a - b);
  }

  /* ---- The assembler ---- */

  /** Real transactions have sizes, and so then have the figures of their packages. */
  lemma SizedFigures(p: Pool, block: set<Tx>, mod: Modified, sub: map<Tx, set<Tx>>, failed: set<Tx>)
    requires p.Valid() && PositiveSizes(p) && Tracks(p, block, mod, sub, failed, Everywhere(p, block))
    ensures AllSized(p, mod) && forall t | t in p.entries :: Sized(p, t, Fresh(p, t))
  {
    hide Tracks, Pool.TxSize, Pool.Sum, Pool.Ordered;
    forall t | t in mod
      ensures Sized(p, t, mod[t])
    {
      FiguresBound(p, block, mod, sub, failed, t);
      AtLeastOwn(p, Missing(p, block, t), t);
    }
    forall t | t in p.entries
      ensures Sized(p, t, Fresh(p, t))
    {
      assert p.Cached(t);
      AtLeastOwn(p, p.Package(t), t);
    }
  }

  lemma AtLeastOwn(p: Pool, s: set<Tx>, t: Tx)
    requires t in s && t in p.entries
    ensures p.Sum(Size, s) >= p.TxSize(t)
  {
    hide Pool.Sum, Pool.TxSize;
    SumTake(p, Size, s, t);
    SumNonNegative(p, Size, s - {t});
  }

  /** The next candidate: the best of the modified set, or of mapTx when that is better or all there is. */
  method NextCandidate(p: Pool, order: seq<Tx>, mi0: nat, mod: Modified)
    returns (iter: Tx, fUsingModified: bool, mi: nat)
    requires (forall t | t in order :: t in p.entries) && mod.Keys <= p.entries.Keys
    requires mi0 < |order| || (mi0 == |order| && mod != map[])
    ensures if fUsingModified then iter in mod && mi == mi0 else mi0 < |order| && iter == order[mi0] && mi == mi0 + 1
    ensures iter in p.entries
    ensures InOrder(p, order) && AllSized(p, mod) && (forall t | t in order :: Sized(p, t, Fresh(p, t))) ==>
              Best(p, order, Choice(mi0, mod, iter, if fUsingModified then mod[iter] else Fresh(p, iter)))
  {
    hide Outranks, Sized, AllSized, InOrder, Best;
    ghost var ranked := InOrder(p, order) && AllSized(p, mod) && forall t | t in order :: Sized(p, t, Fresh(p, t));
    mi, iter := mi0, -1;
    if mod != map[] {
      iter := BestModified(p, mod);
    }
    fUsingModified := mi == |order|;
    if fUsingModified {
      if ranked {
        ModifiedBest(p, order, mi, mod, iter);
      }
    } else {
      ghost var best := iter;
      if mod != map[] && Outranks(p, iter, mod[iter], order[mi], Fresh(p, order[mi])) {
        if ranked {
          ModifiedBest(p, order, mi, mod, iter);
        }
        fUsingModified := true;
      } else {
        if ranked {
          NextBest(p, order, mi, mod, best);
        }
        iter := order[mi];
        mi := mi + 1;
      }
    }
  }

  datatype Outcome = LowFee | TooLarge | NotFinal | Included

  class BlockAssembler {
    const pool: Pool
    const nBlockMaxWeight: nat
    const fIncludeWitness: bool
    const minFee: nat -> int  // blockMinFeeRate.GetFee
    var vtx: seq<Tx>          // without the coinbase
    var inBlock: set<Tx>
    var nBlockWeight: nat
    var nBlockSigOpsCost: nat
    var nBlockTx: nat
    var nFees: int

    predicate Eligible(t: Tx)
    {
      t in pool.entries && pool.entries[t].isFinal && (fIncludeWitness || !pool.entries[t].hasWitness)
    }

    /** The list is in a valid order and the running totals are right. */
    ghost predicate Consistent()
      reads this
    {
      && pool.Valid() && Ordered(pool, vtx) && inBlock == Elems(vtx)
      && nBlockWeight == 4000 + pool.Sum(Weight, inBlock)
      && nBlockSigOpsCost == 400 + pool.Sum(SigOps, inBlock)
      && nFees == pool.Sum(Fee, inBlock)
      && nBlockTx == |vtx| == |inBlock|
    }

    /** The block is within its limits and holds only what may go in. */
    ghost predicate WithinLimits()
      reads this
    {
      && (inBlock == {} || nBlockWeight < nBlockMaxWeight) && nBlockSigOpsCost < MAX_BLOCK_SIGOPS_COST
      && forall t | t in inBlock :: Eligible(t)
    }

    constructor (pool: Pool, maxWeightOption: nat, fIncludeWitness: bool, minFee: nat -> int)
      requires pool.Valid()
      ensures Consistent() && WithinLimits() && inBlock == {}
      ensures this.pool == pool && 4000 <= nBlockMaxWeight <= MAX_BLOCK_WEIGHT - 4000
      ensures 4000 <= maxWeightOption <= MAX_BLOCK_WEIGHT - 4000 ==> nBlockMaxWeight == maxWeightOption
    {
      this.pool, this.fIncludeWitness, this.minFee := pool, fIncludeWitness, minFee;
      var w := if maxWeightOption < MAX_BLOCK_WEIGHT - 4000 then maxWeightOption else MAX_BLOCK_WEIGHT - 4000;
      nBlockMaxWeight := if w < 4000 then 4000 else w;
      vtx, inBlock, nBlockWeight, nBlockSigOpsCost, nBlockTx, nFees := [], {}, 4000, 400, 0, 0;
      SumNothing(pool);
    }

    predicate TestPackage(packageSize: int, packageSigOpsCost: int)
      reads this
    {
      !(nBlockWeight + pool.scale * packageSize >= nBlockMaxWeight)
      && !(nBlockSigOpsCost + packageSigOpsCost >= MAX_BLOCK_SIGOPS_COST)
    }

    method TestPackageTransactions(package: set<Tx>) returns (ok: bool)
      requires package <= pool.entries.Keys
      ensures ok <==> forall t | t in package :: Eligible(t)
    {
      ok := true;
      var todo := package;
      while todo != {}
        invariant todo <= package && forall t | t in package - todo :: Eligible(t)
        decreases |todo|
      {
        SomeMember(todo);
        var it :| it in todo;
        if !pool.entries[it].isFinal {
          return false;
        }
        if !fIncludeWitness && pool.entries[it].hasWitness {
          return false;
        }
        todo := todo - {it};
      }
    }

    method AddToBlock(t: Tx)
      requires Consistent() && t in pool.entries && t !in inBlock && pool.Anc(t) <= inBlock
      modifies this
      ensures Consistent() && vtx == old(vtx) + [t] && inBlock == old(inBlock) + {t}
    {
      hide Pool.Valid, Ordered, Pool.Sum, Elems;
      OrderedMore(pool, vtx, t);
      SumPut(pool, Weight, inBlock, t);
      SumPut(pool, SigOps, inBlock, t);
      SumPut(pool, Fee, inBlock, t);
      vtx := vtx + [t];
      nBlockWeight := nBlockWeight + pool.entries[t].nTxWeight;
      nBlockTx := nBlockTx + 1;
      nBlockSigOpsCost := nBlockSigOpsCost + pool.entries[t].sigOpCost;
      nFees := nFees + pool.entries[t].nFee;
      inBlock := inBlock + {t};
    }

    /** Adds a sorted package and erases it from the modified entries. */
    method AddPackage(sorted: seq<Tx>, mod0: Modified, ghost package: set<Tx>, ghost sub0: map<Tx, set<Tx>>,
                      ghost failed: set<Tx>)
      returns (mod: Modified, ghost sub: map<Tx, set<Tx>>)
      requires Consistent() && Elems(sorted) == package && Sorted(pool, package, sorted)
      requires package <= pool.entries.Keys && package !! inBlock
               && forall t | t in package :: pool.Anc(t) <= inBlock + package
      requires Tracks(pool, inBlock, mod0, sub0, failed, Everywhere(pool, inBlock))
      modifies this
      ensures Consistent() && vtx == old(vtx) + sorted && inBlock == old(inBlock) + package
      ensures Tracks(pool, inBlock, mod, sub, failed, Everywhere(pool, old(inBlock)))
      ensures mod.Keys == mod0.Keys - package
    {
      hide *;
      mod, sub := mod0, sub0;
      ghost var inc := Everywhere(pool, inBlock);
      ElemsTake(sorted, 0);
      for i := 0 to |sorted|
        invariant Consistent() && vtx == old(vtx) + sorted[..i] && inBlock == old(inBlock) + Elems(sorted[..i])
        invariant mod.Keys == mod0.Keys - Elems(sorted[..i])
        invariant Tracks(pool, inBlock, mod, sub, failed, inc)
      {
        ElemsTake(sorted, i);
        SortedAt(pool, package, sorted, i);
        DropIncluded(pool, inBlock, mod, sub, failed, inc, sorted[i]);
        AddToBlock(sorted[i]);
        mod := mod - {sorted[i]};
        sub := sub - {sorted[i]};
        assert sorted[..i + 1] == sorted[..i] + [sorted[i]];
      }
      assert sorted[..|sorted|] == sorted;
    }

    lemma ClosedBlock()
      requires Consistent()
      ensures pool.Valid() && Closed(pool, inBlock) && |inBlock| <= |pool.entries|
    {
      OrderedClosed(pool, vtx);
      assert pool.entries.Keys == inBlock + (pool.entries.Keys - inBlock);
    }

    lemma Fits(package: set<Tx>, size: int, sigOps: int)
      requires Consistent() && WithinLimits() && TestPackage(size, sigOps) && package !! inBlock
      requires size >= pool.Sum(Size, package) && sigOps >= pool.Sum(SigOps, package)
      ensures 4000 + pool.Sum(Weight, inBlock + package) < nBlockMaxWeight
      ensures 400 + pool.Sum(SigOps, inBlock + package) < MAX_BLOCK_SIGOPS_COST
    {
      hide Pool.Valid, Pool.Sum, Ordered;
      SumUnion(pool, Weight, inBlock, package);
      SumUnion(pool, SigOps, inBlock, package);
      WeightBound(pool, package);
    }

    /** Includes a package that passed the tests; its limits were tested on figures never below its own. */
    method Include(iter: Tx, package: set<Tx>, figures: Mod, mod0: Modified, ghost sub0: map<Tx, set<Tx>>,
                   ghost failed: set<Tx>)
      returns (n: nat, mod: Modified, ghost sub: map<Tx, set<Tx>>)
      requires Consistent() && WithinLimits() && iter in pool.entries && iter !in inBlock
      requires package == Missing(pool, inBlock, iter) && forall t | t in package :: Eligible(t)
      requires TestPackage(figures.nSize, figures.nSigOpCost)
      requires figures.nSize >= pool.Sum(Size, package) && figures.nSigOpCost >= pool.Sum(SigOps, package)
      requires Tracks(pool, inBlock, mod0, sub0, failed, Everywhere(pool, inBlock))
      modifies this
      ensures Consistent() && WithinLimits() && inBlock == old(inBlock) + package && iter in inBlock
      ensures Tracks(pool, inBlock, mod, sub, failed, Everywhere(pool, inBlock)) && mod0.Keys - package <= mod.Keys
    {
      hide Pool.Valid, Pool.Sum, Ordered, Tracks, Sorted, Closed, Elems, TestPackage;
      ghost var block := inBlock;
      ClosedBlock();
      MissingPackage(pool, inBlock, iter);
      Fits(package, figures.nSize, figures.nSigOpCost);
      var sortedEntries := SortForBlock(pool, package);
      mod, sub := AddPackage(sortedEntries, mod0, package, sub0, failed);
      ClosedBlock();
      assert inBlock - package == block;
      n, mod, sub := UpdatePackagesForAdded(pool, package, mod, inBlock, sub, failed);
    }

    /** One candidate of addPackageTxs, from its fee test to its inclusion with all missing ancestors. */
    method Consider(iter: Tx, fUsingModified: bool, mod0: Modified, failed0: set<Tx>, ghost sub0: map<Tx, set<Tx>>)
      returns (outcome: Outcome, n: nat, mod: Modified, failed: set<Tx>, ghost sub: map<Tx, set<Tx>>)
      requires Consistent() && WithinLimits()
      requires Tracks(pool, inBlock, mod0, sub0, failed0, Everywhere(pool, inBlock))
      requires if fUsingModified then iter in mod0
               else iter in pool.entries && iter !in inBlock && iter !in mod0 && iter !in failed0
      modifies this
      ensures Consistent() && WithinLimits() && Tracks(pool, inBlock, mod, sub, failed, Everywhere(pool, inBlock))
              && |inBlock| <= |pool.entries|
      ensures outcome == Included ==> iter in inBlock && old(inBlock) <= inBlock && |inBlock| > |old(inBlock)|
                                      && failed == failed0 && mod0.Keys - (inBlock - old(inBlock)) <= mod.Keys
      ensures inBlock - old(inBlock) <= pool.Package(iter)
      ensures outcome != Included ==> inBlock == old(inBlock)
      ensures outcome in {TooLarge, NotFinal} ==> && mod == (if fUsingModified then mod0 - {iter} else mod0)
                                                  && failed == (if fUsingModified then failed0 + {iter} else failed0)
      ensures outcome == NotFinal || (outcome == TooLarge && iter !in failed0) ==> Refused(inBlock, iter)
    {
      hide *;
      n, mod, failed, sub := 0, mod0, failed0, sub0;
      ClosedBlock();
      if fUsingModified {
        FiguresBound(pool, inBlock, mod, sub, failed, iter);
      } else {
        CachedExact(pool, inBlock, mod, sub, failed, iter);
      }
      var figures := if fUsingModified then mod[iter] else Fresh(pool, iter);
      FreshIs(pool, iter);
      if figures.nModFees < minFee(figures.nSize) {
        outcome := LowFee;
        return;
      }
      if !TestPackage(figures.nSize, figures.nSigOpCost) {
        if iter !in failed {
          TooBig(iter, figures);
        }
        outcome := TooLarge;
      } else {
        var ancestors := pool.Anc(iter) - inBlock + {iter};
        MissingIs(pool, inBlock, iter);
        NotOwnAncestor(pool, iter);
        var ok := TestPackageTransactions(ancestors);
        if ok {
          ghost var before := inBlock;
          n, mod, sub := Include(iter, ancestors, figures, mod, sub, failed);
          Grown(inBlock, before, iter);
          WithinPackage(pool, before, iter);
          ClosedBlock();
          outcome := Included;
          return;
        }
        NotEligible(iter);
        outcome := NotFinal;
      }
      if fUsingModified {
        DropFailed(pool, inBlock, mod, sub, failed, Everywhere(pool, inBlock), iter);
        mod, sub := mod - {iter}, sub - {iter};
        failed := failed + {iter};
      }
    }

    /** addPackageTxs. `order` is mapTx by ancestor score. Also returned: whether the loop ran to its end, with which
        block each refused candidate was first refused, and every choice of a candidate that was made. */
    method AddPackageTxs(order: seq<Tx>)
      returns (nPackagesSelected: nat, nDescendantsUpdated: nat, ghost finished: bool, ghost refused: map<Tx, set<Tx>>,
               ghost choices: seq<Choice>)
      requires Consistent() && WithinLimits() && forall t | t in order :: t in pool.entries
      modifies this
      ensures Consistent() && WithinLimits() && old(inBlock) <= inBlock
      ensures Accounted(refused, old(inBlock), inBlock)
      ensures finished ==> forall t | t in order :: t in inBlock || t in refused
      ensures nPackagesSelected == 0 <==> inBlock == old(inBlock)
      ensures Noted(pool, order, old(inBlock), inBlock, refused, choices)
    {
      hide *;
      nPackagesSelected, nDescendantsUpdated, finished, refused, choices := 0, 0, false, map[], [];
      var failedTx: set<Tx> := {};
      ClosedBlock();
      TracksNothing(pool, inBlock);
      assert inBlock - inBlock == {};
      ClosedNothing(pool);
      var _, mapModifiedTx, sub := UpdatePackagesForAdded(pool, inBlock, map[], inBlock, map[], failedTx);
      var mi: nat, nConsecutiveFailed := 0, 0;
      LogStart(order, inBlock, mapModifiedTx.Keys);
      NotedNone(pool, order, inBlock, refused);
      while mi < |order| || mapModifiedTx != map[]
        invariant Consistent() && WithinLimits() && |inBlock| <= |pool.entries| && mi <= |order|
        invariant Tracks(pool, inBlock, mapModifiedTx, sub, failedTx, Everywhere(pool, inBlock))
        invariant Log(order, mi, old(inBlock), inBlock, refused, mapModifiedTx.Keys) && failedTx <= refused.Keys
        invariant nPackagesSelected == 0 <==> inBlock == old(inBlock)
        invariant Noted(pool, order, old(inBlock), inBlock, refused, choices)
        decreases |pool.entries| - |inBlock|, |order| - mi + |mapModifiedTx|
      {
        if mi < |order| && (order[mi] in mapModifiedTx || order[mi] in inBlock || order[mi] in failedTx) {
          LogNext(order, mi, old(inBlock), inBlock, refused, mapModifiedTx.Keys);
          mi := mi + 1;
          continue;
        }
        ghost var at := mi;
        var iter, fUsingModified;
        ghost var c;
        iter, fUsingModified, mi, c := Choose(order, mi, mapModifiedTx, sub, failedTx);
        ghost var before, was, keys, doubted := inBlock, refused, mapModifiedTx.Keys, iter in failedTx;
        var outcome, n;
        outcome, n, mapModifiedTx, failedTx, sub := Consider(iter, fUsingModified, mapModifiedTx, failedTx, sub);
        if outcome != LowFee && outcome != Included {
          refused := Refuse(refused, inBlock, iter, outcome == NotFinal || !doubted);
        }
        NotedMore(pool, order, old(inBlock), before, inBlock, was, refused, choices, c);
        choices := choices + [c];
        if outcome == LowFee {
          LogBlock(order, at, old(inBlock), inBlock, refused, keys);
          return;
        }
        if outcome == Included {
          LogIn(order, at, mi, old(inBlock), before, inBlock, refused, keys, mapModifiedTx.Keys, iter);
          nConsecutiveFailed := 0;
          nPackagesSelected := nPackagesSelected + 1;
          nDescendantsUpdated := nDescendantsUpdated + n;
        } else {
          LogOut(order, at, mi, old(inBlock), inBlock, was, refused, keys, mapModifiedTx.Keys, iter);
          if outcome == TooLarge {
            nConsecutiveFailed := nConsecutiveFailed + 1;
            if nConsecutiveFailed > MAX_CONSECUTIVE_FAILURES && nBlockWeight > nBlockMaxWeight - 4000 {
              LogBlock(order, mi, old(inBlock), inBlock, refused, mapModifiedTx.Keys);
              return;
            }
          }
        }
      }
      finished := true;
      LogEnd(order, old(inBlock), inBlock, refused, mapModifiedTx);
    }

    /** The next candidate, and the choice made. */
    method Choose(order: seq<Tx>, mi0: nat, mod: Modified, ghost sub: map<Tx, set<Tx>>, ghost failed: set<Tx>)
      returns (iter: Tx, fUsingModified: bool, mi: nat, ghost c: Choice)
      requires pool.Valid() && (forall t | t in order :: t in pool.entries)
      requires Tracks(pool, inBlock, mod, sub, failed, Everywhere(pool, inBlock))
      requires mi0 < |order| || (mi0 == |order| && mod != map[])
      ensures if fUsingModified then iter in mod && mi == mi0 else mi0 < |order| && iter == order[mi0] && mi == mi0 + 1
      ensures iter in pool.entries
      ensures c == Choice(mi0, mod, iter, if fUsingModified then mod[iter] else Fresh(pool, iter))
      ensures PositiveSizes(pool) && InOrder(pool, order) ==> Best(pool, order, c)
    {
      hide InOrder, Best, AllSized, Sized, PositiveSizes, Pool.Valid, TracksAt;
      if PositiveSizes(pool) {
        SizedFigures(pool, inBlock, mod, sub, failed);
      }
      iter, fUsingModified, mi := NextCandidate(pool, order, mi0, mod);
      c := Choice(mi0, mod, iter, if fUsingModified then mod[iter] else Fresh(pool, iter));
    }

    /** With this block the transaction's package would exceed a limit or holds something that may not go in. */
    ghost predicate Refused(block: set<Tx>, t: Tx) {
      || 4000 + pool.Sum(Weight, block)
          + pool.scale * pool.Sum(Size, Missing(pool, block, t)) >= nBlockMaxWeight
      || 400 + pool.Sum(SigOps, block) + pool.Sum(SigOps, Missing(pool, block, t)) >= MAX_BLOCK_SIGOPS_COST
      || exists a | a in Missing(pool, block, t) :: !Eligible(a)
    }

    /** Each refused transaction was refused with a block the assembler really had. */
    ghost predicate Accounted(refused: map<Tx, set<Tx>>, from: set<Tx>, upto: set<Tx>) {
      forall t | t in refused :: from <= refused[t] <= upto && Refused(refused[t], t)
    }

    /** Keeps the first refusal only. */
    ghost function Refuse(refused: map<Tx, set<Tx>>, block: set<Tx>, t: Tx, first: bool): (r: map<Tx, set<Tx>>)
      ensures r == if first then refused[t := block] else refused
    {
      if first then refused[t := block] else refused
    }

    /** What has become of the candidates before mi. */
    ghost predicate Log(order: seq<Tx>, mi: nat, from: set<Tx>, block: set<Tx>, refused: map<Tx, set<Tx>>, mod: set<Tx>)
      requires mi <= |order|
    {
      from <= block && Accounted(refused, from, block) && Passed(order, mi, block, refused.Keys, mod)
    }

    lemma LogStart(order: seq<Tx>, block: set<Tx>, mod: set<Tx>)
      ensures Log(order, 0, block, block, map[], mod)
    {
    }

    lemma LogBlock(order: seq<Tx>, mi: nat, from: set<Tx>, block: set<Tx>, refused: map<Tx, set<Tx>>, mod: set<Tx>)
      requires mi <= |order| && Log(order, mi, from, block, refused, mod)
      ensures from <= block && Accounted(refused, from, block)
    {
    }

    lemma LogNext(order: seq<Tx>, mi: nat, from: set<Tx>, block: set<Tx>, refused: map<Tx, set<Tx>>, mod: set<Tx>)
      requires mi < |order| && Log(order, mi, from, block, refused, mod)
               && (order[mi] in mod || order[mi] in block || order[mi] in refused)
      ensures Log(order, mi + 1, from, block, refused, mod)
    {
    }

    /** The candidate went in, with its package. */
    lemma LogIn(order: seq<Tx>, at: nat, mi: nat, from: set<Tx>, block: set<Tx>, block': set<Tx>,
                refused: map<Tx, set<Tx>>,
                mod: set<Tx>, mod': set<Tx>, iter: Tx)
      requires at <= |order| && mi <= |order| && Log(order, at, from, block, refused, mod)
      requires mi == at || (mi == at + 1 && order[at] == iter)
      requires block <= block' && iter in block' && mod - (block' - block) <= mod'
      ensures Log(order, mi, from, block', refused, mod')
    {
      hide Refused;
    }

    /** The candidate was refused, now or before. */
    lemma LogOut(order: seq<Tx>, at: nat, mi: nat, from: set<Tx>, block: set<Tx>, was: map<Tx, set<Tx>>,
                 refused: map<Tx, set<Tx>>,
                 mod: set<Tx>, mod': set<Tx>, iter: Tx)
      requires at <= |order| && mi <= |order| && Log(order, at, from, block, was, mod)
      requires mi == at || (mi == at + 1 && order[at] == iter)
      requires iter in refused && (refused == was || (Refused(block, iter) && refused == was[iter := block]))
               && mod - {iter} <= mod'
      ensures Log(order, mi, from, block, refused, mod')
    {
      hide Refused;
    }

    lemma LogEnd(order: seq<Tx>, from: set<Tx>, block: set<Tx>, refused: map<Tx, set<Tx>>, mod: Modified)
      requires mod == map[] && Log(order, |order|, from, block, refused, mod.Keys)
      ensures from <= block && Accounted(refused, from, block) && forall t | t in order :: t in block || t in refused
    {
      hide Refused;
    }

    lemma TooBig(t: Tx, figures: Mod)
      requires Consistent() && !TestPackage(figures.nSize, figures.nSigOpCost)
      requires figures.nSize == pool.Sum(Size, Missing(pool, inBlock, t))
               && figures.nSigOpCost == pool.Sum(SigOps, Missing(pool, inBlock, t))
      ensures Refused(inBlock, t)
    {
      hide Pool.Sum, Pool.Valid, Ordered, Elems;
    }

    lemma NotEligible(t: Tx)
      requires exists a | a in Missing(pool, inBlock, t) :: !Eligible(a)
      ensures Refused(inBlock, t)
    {
    }
  }

  /** What went into the block belongs to the package of a chosen candidate, what was refused was chosen, and each
      choice was the best there was. */
  ghost predicate Noted(p: Pool, order: seq<Tx>, from: set<Tx>, block: set<Tx>, refused: map<Tx, set<Tx>>,
                        choices: seq<Choice>)
    requires forall t | t in order :: t in p.entries
  {
    && (forall t | t in block && t !in from :: exists i | 0 <= i < |choices| :: t in p.Package(choices[i].iter))
    && (forall t | t in refused :: exists i | 0 <= i < |choices| :: choices[i].iter == t)
    && (PositiveSizes(p) && InOrder(p, order) ==> forall i | 0 <= i < |choices| :: Best(p, order, choices[i]))
  }

  lemma NotedNone(p: Pool, order: seq<Tx>, block: set<Tx>, refused: map<Tx, set<Tx>>)
    requires (forall t | t in order :: t in p.entries) && refused == map[]
    ensures Noted(p, order, block, block, refused, [])
  {
  }

  /** One more choice was made. */
  lemma NotedMore(p: Pool, order: seq<Tx>, from: set<Tx>, block: set<Tx>, block': set<Tx>, refused: map<Tx, set<Tx>>,
                  refused': map<Tx, set<Tx>>, choices: seq<Choice>, c: Choice)
    requires (forall t | t in order :: t in p.entries) && Noted(p, order, from, block, refused, choices)
    requires block' - block <= p.Package(c.iter) && refused'.Keys <= refused.Keys + {c.iter}
    requires PositiveSizes(p) && InOrder(p, order) ==> Best(p, order, c)
    ensures Noted(p, order, from, block', refused', choices + [c])
  {
    hide Best, InOrder, PositiveSizes, Pool.Package;
    var more := choices + [c];
    assert more[|choices|] == c;
    forall t | t in block' && t !in from
      ensures exists i | 0 <= i < |more| :: t in p.Package(more[i].iter)
    {
      if t in block {
        var i :| 0 <= i < |choices| && t in p.Package(choices[i].iter);
        assert more[i] == choices[i];
      }
    }
    forall t | t in refused'
      ensures exists i | 0 <= i < |more| :: more[i].iter == t
    {
      if t in refused {
        var i :| 0 <= i < |choices| && choices[i].iter == t;
        assert more[i] == choices[i];
      }
    }
  }

  lemma WithinPackage(p: Pool, block: set<Tx>, t: Tx)
    ensures Missing(p, block, t) <= p.Package(t)
  {
  }

  /** The candidates looked at so far are in the block, refused, or wait in the modified set. */
  ghost predicate Passed(order: seq<Tx>, mi: nat, block: set<Tx>, refused: set<Tx>, mod: set<Tx>)
    requires mi <= |order|
  {
    forall i | 0 <= i < mi :: order[i] in block || order[i] in refused || order[i] in mod
  }
}
