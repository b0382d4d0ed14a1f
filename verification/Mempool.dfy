/** What the block assembler sees of the memory pool (src/txmempool.h, src/policy/policy.cpp): entries,
    the ancestor relation and the totals cached per entry. */
module Mempool {
  import opened Basics

  /** WITNESS_SCALE_FACTOR, which is 2, or 4 in the legacy mode (src/consensus/consensus.h, src/init.cpp). */
  type Scale = x: int | x > 0 witness 1

  type Tx = int  // a transaction, ordered by hash

  /** CTxMemPoolEntry; `isFinal` is what IsFinalTx says for the block being built. */
  datatype Entry = Entry(
    nTxWeight: nat, sigOpCost: nat, nFee: int, modifiedFee: int, isFinal: bool, hasWitness: bool,
    nCountWithAncestors: nat, nSizeWithAncestors: nat, nModFeesWithAncestors: int, nSigOpCostWithAncestors: int)

  datatype Measure = Weight | Size | SigOps | Fee | ModFee

  datatype Pool = Pool(entries: map<Tx, Entry>, ancestors: map<Tx, set<Tx>>, nBytesPerSigOp: nat, scale: Scale) {
    /** Ancestry is a strict partial order on the entries, and the cached totals are right. */
    ghost predicate Valid() {
      Ordered() && forall t | t in entries :: Cached(t)
    }

    ghost predicate Ordered() {
      && (forall t | t in entries :: Anc(t) <= entries.Keys && t !in Anc(t))
      && (forall t, a | t in entries && a in Anc(t) :: Anc(a) <= Anc(t))
    }

    function Anc(t: Tx): set<Tx> { if t in ancestors then ancestors[t] else {} }

    ghost predicate Cached(t: Tx)
      requires t in entries
    {
      && entries[t].nCountWithAncestors == |Package(t)|
      && entries[t].nSizeWithAncestors == Sum(Size, Package(t))
      && entries[t].nModFeesWithAncestors == Sum(ModFee, Package(t))
      && entries[t].nSigOpCostWithAncestors == Sum(SigOps, Package(t))
    }

    /** GetVirtualTransactionSize. */
    function TxSize(t: Tx): (n: nat)
      requires t in entries
      ensures entries[t].nTxWeight <= scale * n
    {
      var e := entries[t];
      var w := if e.nTxWeight < e.sigOpCost * nBytesPerSigOp then e.sigOpCost * nBytesPerSigOp else e.nTxWeight;
      RoundedUp(w, scale);
      (w + scale - 1) / scale
    }

    function Value(m: Measure, t: Tx): int {
      if t !in entries then 0 else
      match m
      case Weight => entries[t].nTxWeight
      case Size => TxSize(t)
      case SigOps => entries[t].sigOpCost
      case Fee => entries[t].nFee
      case ModFee => entries[t].modifiedFee
    }

    ghost function Sum(m: Measure, s: set<Tx>): int
      decreases |s|
    {
      if |s| == 0 then 0 else Value(m, Pick(s)) + Sum(m, s - {Pick(s)})
    }

    /** A transaction and its ancestors: what the cached totals cover. */
    ghost function Package(t: Tx): set<Tx> { Anc(t) + {t} }
  }

  lemma RoundedUp(w: nat, k: Scale)
    ensures 0 <= (w + k - 1) / k && w <= k * ((w + k - 1) / k)
  {
  }

  ghost function Pick(s: set<Tx>): (x: Tx)
    requires |s| != 0
    ensures x in s
  {
    SomeMember(s);
    var x :| x in s;
    x
  }

  lemma {:induction false} SumTake(p: Pool, m: Measure, s: set<Tx>, x: Tx)
    requires x in s
    ensures p.Sum(m, s) == p.Value(m, x) + p.Sum(m, s - {x})
    decreases |s|
  {
    var y := Pick(s);
    if y != x {
      SumTake(p, m, s - {y}, x);
      SumTake(p, m, s - {x}, y);
      assert s - {y} - {x} == s - {x} - {y};
    }
  }

  lemma SumPut(p: Pool, m: Measure, s: set<Tx>, x: Tx)
    requires x !in s
    ensures p.Sum(m, s + {x}) == p.Sum(m, s) + p.Value(m, x)
  {
    SumTake(p, m, s + {x}, x);
    assert s + {x} - {x} == s;
  }

  lemma {:induction false} SumUnion(p: Pool, m: Measure, a: set<Tx>, b: set<Tx>)
    requires a !! b
    ensures p.Sum(m, a + b) == p.Sum(m, a) + p.Sum(m, b)
    decreases |b|
  {
    if |b| == 0 {
      assert a + b == a;
    } else {
      var x := Pick(b);
      SumTake(p, m, b, x);
      SumUnion(p, m, a, b - {x});
      SumPut(p, m, a + (b - {x}), x);
      assert a + (b - {x}) + {x} == a + b;
    }
  }

  lemma {:induction false} SumNonNegative(p: Pool, m: Measure, s: set<Tx>)
    requires m == Weight || m == Size || m == SigOps
    ensures p.Sum(m, s) >= 0
    decreases |s|
  {
    if |s| != 0 {
      var x := Pick(s);
      SumTake(p, m, s, x);
      SumNonNegative(p, m, s - {x});
    }
  }

  lemma SumSubset(p: Pool, m: Measure, a: set<Tx>, b: set<Tx>)
    requires a <= b && (m == Weight || m == Size || m == SigOps)
    ensures p.Sum(m, a) <= p.Sum(m, b)
    ensures p.Sum(m, b - a) == p.Sum(m, b) - p.Sum(m, a)
  {
    SumUnion(p, m, a, b - a);
    assert a + (b - a) == b;
    SumNonNegative(p, m, b - a);
  }

  /** Weight never exceeds the scaled size. */
  lemma {:induction false} WeightBound(p: Pool, s: set<Tx>)
    ensures p.Sum(Weight, s) <= p.scale * p.Sum(Size, s)
    decreases |s|
  {
    hide Pool.Value;
    if |s| != 0 {
      var x := Pick(s);
      SumTake(p, Weight, s, x);
      SumTake(p, Size, s, x);
      WeightBound(p, s - {x});
      OwnWeight(p, x);
      Distributes(p.scale, p.Value(Size, x), p.Sum(Size, s - {x}));
    }
  }

  lemma OwnWeight(p: Pool, x: Tx)
    ensures p.Value(Weight, x) <= p.scale * p.Value(Size, x)
  {
  }

  lemma Distributes(k: int, a: int, b: int)
    ensures k * (a + b) == k * a + k * b
  {
  }

  lemma SumNothing(p: Pool)
    ensures forall m :: p.Sum(m, {}) == 0
  {
  }
}
