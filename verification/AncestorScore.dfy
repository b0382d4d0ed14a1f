/** CompareTxMemPoolEntryByAncestorFee (src/txmempool.h) and the entries it ranks for the block assembler (src/miner.h):
    an entry counts with the lower of its own fee rate and that of its package. Products are exact here. */
module AncestorScore {
  import opened Basics
  import opened Mempool

  /** CTxMemPoolModifiedEntry. */
  datatype Mod = Mod(nSize: int, nModFees: int, nSigOpCost: int)
  type Modified = map<Tx, Mod>

  function Fresh(p: Pool, d: Tx): Mod
    requires d in p.entries
  {
    Mod(p.entries[d].nSizeWithAncestors, p.entries[d].nModFeesWithAncestors, p.entries[d].nSigOpCostWithAncestors)
  }

  /** A fee and the size it is paid for. */
  datatype Rate = Rate(fee: int, size: int)

  /** GetModFeeAndSize. */
  function RateOf(p: Pool, t: Tx, m: Mod): Rate
    requires t in p.entries
  {
    if p.entries[t].modifiedFee * m.nSize > m.nModFees * p.TxSize(t) then Rate(m.nModFees, m.nSize)
    else Rate(p.entries[t].modifiedFee, p.TxSize(t))
  }

  /** The comparison: by rate, then by hash. */
  predicate Better(a: Rate, s: Tx, b: Rate, t: Tx) {
    var f1, f2 := a.fee * b.size, a.size * b.fee;
    if f1 == f2 then s < t else f1 > f2
  }

  predicate Outranks(p: Pool, s: Tx, a: Mod, t: Tx, b: Mod)
    requires s in p.entries && t in p.entries
  {
    Better(RateOf(p, s, a), s, RateOf(p, t, b), t)
  }

  /** Both fees are paid for something. */
  predicate Sized(p: Pool, t: Tx, m: Mod) { t in p.entries && p.TxSize(t) > 0 && m.nSize > 0 }

  /** The rate used is the lower of the two. */
  lemma RateIsLower(p: Pool, t: Tx, m: Mod)
    requires Sized(p, t, m)
    ensures var r := RateOf(p, t, m);
            && r.size > 0
            && r.fee * p.TxSize(t) <= p.entries[t].modifiedFee * r.size
            && r.fee * m.nSize <= m.nModFees * r.size
            && (r == Rate(m.nModFees, m.nSize) || r == Rate(p.entries[t].modifiedFee, p.TxSize(t)))
  {
  }

  /** Cross products carry over a rate in the middle. */
  lemma CrossTransitive(f1: int, s1: int, f2: int, s2: int, f3: int, s3: int)
    requires s1 > 0 && s2 > 0 && s3 > 0 && f1 * s2 >= s1 * f2 && f2 * s3 >= s2 * f3
    ensures f1 * s3 >= s1 * f3
    ensures f1 * s2 > s1 * f2 || f2 * s3 > s2 * f3 ==> f1 * s3 > s1 * f3
  {
    Scale(s1 * f2, f1 * s2, s3);
    Scale(s2 * f3, f2 * s3, s1);
    var l, r := f1 * s3, s1 * f3;
    assert (f1 * s2) * s3 == s2 * l && (s1 * f2) * s3 == s1 * (f2 * s3) && s1 * (s2 * f3) == s2 * r;
    if l < r {
      Scale(l + 1, r, s2);
      assert false;
    }
    if l == r {
      assert s2 * l == s2 * r;
    }
  }

  lemma Scale(a: int, b: int, k: int)
    requires a <= b && k > 0
    ensures a * k <= b * k && k * a <= k * b
    ensures a < b ==> a * k < b * k && k * a < k * b
  {
  }

  /** The comparison is a strict total order. */
  lemma BetterTransitive(a: Rate, r: Tx, b: Rate, s: Tx, c: Rate, t: Tx)
    requires a.size > 0 && b.size > 0 && c.size > 0 && Better(a, r, b, s) && Better(b, s, c, t)
    ensures Better(a, r, c, t)
  {
    CrossTransitive(a.fee, a.size, b.fee, b.size, c.fee, c.size);
    if a.fee * c.size == a.size * c.fee {
      CrossTransitive(c.fee, c.size, b.fee, b.size, a.fee, a.size);
    }
  }

  lemma BetterTotal(a: Rate, s: Tx, b: Rate, t: Tx)
    ensures !(Better(a, s, b, t) && Better(b, t, a, s))
    ensures s != t ==> Better(a, s, b, t) || Better(b, t, a, s)
  {
    assert a.fee * b.size == b.size * a.fee && a.size * b.fee == b.fee * a.size;
  }

  lemma OutranksTransitive(p: Pool, r: Tx, a: Mod, s: Tx, b: Mod, t: Tx, c: Mod)
    requires Sized(p, r, a) && Sized(p, s, b) && Sized(p, t, c) && Outranks(p, r, a, s, b) && Outranks(p, s, b, t, c)
    ensures Outranks(p, r, a, t, c)
  {
    hide RateOf, Better, Pool.TxSize;
    RateIsLower(p, r, a);
    RateIsLower(p, s, b);
    RateIsLower(p, t, c);
    BetterTransitive(RateOf(p, r, a), r, RateOf(p, s, b), s, RateOf(p, t, c), t);
  }

  /** What does not outrank the best does not outrank what the best does not outrank. */
  lemma BelowBest(p: Pool, t: Tx, a: Mod, best: Tx, b: Mod, s: Tx, c: Mod)
    requires Sized(p, t, a) && Sized(p, best, b) && Sized(p, s, c)
    requires !Outranks(p, t, a, best, b) && !Outranks(p, best, b, s, c) && (t == best ==> a == b)
    ensures !Outranks(p, t, a, s, c)
  {
    hide RateOf, Better, Pool.TxSize;
    BetterTotal(RateOf(p, t, a), t, RateOf(p, best, b), best);
    if t != best && Outranks(p, t, a, s, c) {
      OutranksTransitive(p, best, b, t, a, s, c);
    }
  }

  predicate AllSized(p: Pool, mod: Modified) { forall t | t in mod :: Sized(p, t, mod[t]) }

  ghost predicate PositiveSizes(p: Pool) { forall t | t in p.entries :: p.TxSize(t) > 0 }

  /** mapTx by ancestor score. */
  ghost predicate InOrder(p: Pool, order: seq<Tx>)
    requires forall t | t in order :: t in p.entries
  {
    forall i, j | 0 <= i < j < |order| :: Outranks(p, order[i], Fresh(p, order[i]), order[j], Fresh(p, order[j]))
  }

  /** The first entry of mapModifiedTx by ancestor score. */
  method BestModified(p: Pool, mod: Modified) returns (best: Tx)
    requires mod != map[] && mod.Keys <= p.entries.Keys
    ensures best in mod
    ensures AllSized(p, mod) ==> forall t | t in mod :: !Outranks(p, t, mod[t], best, mod[best])
  {
    hide Outranks, Sized;
    SomeKey(mod);
    best :| best in mod;
    NotOwnRank(p, best, mod[best]);
    var todo := mod.Keys - {best};
    while todo != {}
      invariant todo <= mod.Keys && best in mod
      invariant AllSized(p, mod) ==> forall t | t in mod && t !in todo :: !Outranks(p, t, mod[t], best, mod[best])
      decreases |todo|
    {
      SomeMember(todo);
      var t :| t in todo;
      todo := todo - {t};
      if Outranks(p, t, mod[t], best, mod[best]) {
        if AllSized(p, mod) {
          StillBest(p, mod, todo, best, t);
        }
        best := t;
      }
    }
  }

  lemma NotOwnRank(p: Pool, t: Tx, m: Mod)
    requires t in p.entries
    ensures !Outranks(p, t, m, t, m)
  {
    hide RateOf, Better;
    BetterTotal(RateOf(p, t, m), t, RateOf(p, t, m), t);
  }

  lemma StillBest(p: Pool, mod: Modified, todo: set<Tx>, best: Tx, t: Tx)
    requires mod.Keys <= p.entries.Keys && AllSized(p, mod) && best in mod && t in mod
    requires Outranks(p, t, mod[t], best, mod[best])
    requires forall s | s in mod && s !in todo && s != t :: !Outranks(p, s, mod[s], best, mod[best])
    ensures forall s | s in mod && s !in todo :: !Outranks(p, s, mod[s], t, mod[t])
  {
    hide Outranks, Sized;
    NotOwnRank(p, t, mod[t]);
    forall s | s in mod && s !in todo
      ensures !Outranks(p, s, mod[s], t, mod[t])
    {
      if s != t && Outranks(p, s, mod[s], t, mod[t]) {
        OutranksTransitive(p, s, mod[s], t, mod[t], best, mod[best]);
      }
    }
  }

  /** A candidate for inclusion, with what there was to choose from. */
  datatype Choice = Choice(at: nat, mod: Modified, iter: Tx, figures: Mod)

  /** Nothing left in either index outranks the candidate. */
  ghost predicate Best(p: Pool, order: seq<Tx>, c: Choice)
    requires forall t | t in order :: t in p.entries
  {
    && c.mod.Keys <= p.entries.Keys && c.iter in p.entries
    && (forall t | t in c.mod :: !Outranks(p, t, c.mod[t], c.iter, c.figures))
    && (forall k | c.at <= k < |order| :: !Outranks(p, order[k], Fresh(p, order[k]), c.iter, c.figures))
  }

  /** Of the rest of mapTx the next entry ranks first. */
  lemma NextIsFirst(p: Pool, order: seq<Tx>, at: nat, k: nat)
    requires (forall t | t in order :: t in p.entries) && InOrder(p, order) && at <= k < |order|
    ensures !Outranks(p, order[k], Fresh(p, order[k]), order[at], Fresh(p, order[at]))
  {
    hide RateOf, Better;
    BetterTotal(RateOf(p, order[at], Fresh(p, order[at])), order[at], RateOf(p, order[k], Fresh(p, order[k])),
        order[k]);
    assert at < k ==> Outranks(p, order[at], Fresh(p, order[at]), order[k], Fresh(p, order[k]));
  }

  /** The best modified entry is chosen: it outranks the next entry of mapTx, if there is one. */
  lemma ModifiedBest(p: Pool, order: seq<Tx>, at: nat, mod: Modified, best: Tx)
    requires (forall t | t in order :: t in p.entries && Sized(p, t, Fresh(p, t))) && InOrder(p, order) && at <= |order|
    requires mod.Keys <= p.entries.Keys && AllSized(p, mod) && best in mod
    requires forall t | t in mod :: !Outranks(p, t, mod[t], best, mod[best])
    requires at < |order| ==> Outranks(p, best, mod[best], order[at], Fresh(p, order[at]))
    ensures Best(p, order, Choice(at, mod, best, mod[best]))
  {
    hide Outranks, Sized, InOrder;
    forall k | at <= k < |order|
      ensures !Outranks(p, order[k], Fresh(p, order[k]), best, mod[best])
    {
      NextIsFirst(p, order, at, k);
      if Outranks(p, order[k], Fresh(p, order[k]), best, mod[best]) {
        OutranksTransitive(p, order[k], Fresh(p, order[k]), best, mod[best], order[at], Fresh(p, order[at]));
      }
    }
  }

  /** The next entry of mapTx is chosen: the best modified entry, if there is one, does not outrank it. */
  lemma NextBest(p: Pool, order: seq<Tx>, at: nat, mod: Modified, best: Tx)
    requires (forall t | t in order :: t in p.entries && Sized(p, t, Fresh(p, t))) && InOrder(p, order) && at < |order|
    requires mod.Keys <= p.entries.Keys && AllSized(p, mod)
    requires mod != map[] ==> best in mod && (forall t | t in mod :: !Outranks(p, t, mod[t], best, mod[best]))
                              && !Outranks(p, best, mod[best], order[at], Fresh(p, order[at]))
    ensures Best(p, order, Choice(at, mod, order[at], Fresh(p, order[at])))
  {
    hide Outranks, Sized, InOrder;
    forall k | at <= k < |order|
      ensures !Outranks(p, order[k], Fresh(p, order[k]), order[at], Fresh(p, order[at]))
    {
      NextIsFirst(p, order, at, k);
    }
    forall t | t in mod
      ensures !Outranks(p, t, mod[t], order[at], Fresh(p, order[at]))
    {
      BelowBest(p, t, mod[t], best, mod[best], order[at], Fresh(p, order[at]));
    }
  }
}
