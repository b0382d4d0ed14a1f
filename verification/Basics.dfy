/** What several of the models share. */
module Basics {

  datatype Option<+T> = None | Some(value: T)

  /** src/consensus/consensus.h. */
  const MAX_BLOCK_WEIGHT := 4000000

  /** The value WITNESS_SCALE_FACTOR has from the start (src/primitives/block.cpp), and so when the constants made from
      it get theirs; the legacy mode raises it later. */
  const WITNESS_SCALE_FACTOR_PART := 2

  function Max(a: int, b: int): int { if a < b then b else a }

  lemma SomeMember(s: set<int>)
    requires |s| != 0
    ensures exists x :: x in s
  {
    if forall x :: x !in s {
      assert false;
    }
  }

  lemma SomeKey<V>(m: map<int, V>)
    requires |m| != 0
    ensures exists k :: k in m
  {
    if forall k :: k !in m {
      assert false;
    }
  }

  lemma {:induction false} SubsetSize<T>(a: set<T>, b: set<T>)
    requires a <= b
    ensures |a| <= |b|
    decreases |a|
  {
    if a != {} {
      var x :| x in a;
      SubsetSize(a - {x}, b - {x});
    }
  }
}
