/** The cuckoo cache and its packed discard flags (src/cuckoocache.h). The hash function is a parameter, and so
    is the search depth, which the source computes with a floating point logarithm. */
module CuckooCache {
  import opened Basics
  import opened Words
  import opened CuckooTable

  /** bit_packed_atomic_flags: eight flags to a byte. */
  class BitPackedFlags {
    var mem: array<bv8>

    predicate IsSet(i: nat)
      requires i / 8 < mem.Length
      reads this, mem
    {
      Bit(mem[i / 8], i % 8)
    }

    /** The flags as a list. */
    function Flags(n: nat): seq<bool>
      requires n <= 8 * mem.Length
      reads this, mem
    {
      seq(n, i requires 0 <= i < n <= 8 * mem.Length reads this, mem => IsSet(i))
    }

    constructor (size: nat)
      ensures fresh(mem) && mem.Length == (size + 7) / 8
      ensures Flags(size) == seq(size, _ => true)
    {
      mem := new bv8[(size + 7) / 8](_ => 0xFF);
      new;
      forall i | 0 <= i < size ensures IsSet(i) {
        AllBits(i % 8);
      }
    }

    method BitSet(s: nat, ghost n: nat)
      requires s < n <= 8 * mem.Length
      modifies mem
      ensures Flags(n) == old(Flags(n))[s := true]
    {
      hide Bit, WithBit;
      ghost var before := mem[..];
      mem[s / 8] := WithBit(mem[s / 8], true, s % 8);
      forall i | 0 <= i < n ensures IsSet(i) == (old(IsSet(i)) || i == s) {
        SetBit(before[s / 8], true, s % 8, i % 8);
      }
    }

    method BitUnset(s: nat, ghost n: nat)
      requires s < n <= 8 * mem.Length
      modifies mem
      ensures Flags(n) == old(Flags(n))[s := false]
    {
      hide Bit, WithoutBit;
      ghost var before := mem[..];
      mem[s / 8] := WithoutBit(mem[s / 8], s % 8);
      forall i | 0 <= i < n ensures IsSet(i) == (old(IsSet(i)) && i != s) {
        ClearBit(before[s / 8], s % 8, i % 8);
      }
    }
  }

  /** How far the current epoch can overshoot its size. */
  function Slack(epochSize: nat): nat { Max(1, epochSize / 16) }

  /** Some location of the element is discardable or already holds it. */
  ghost predicate Room(l: Layout, t: Table, e: Element)
    requires l.size > 0 && t.Shaped(l.size)
  {
    exists k | 0 <= k < WAYS :: Open(l, t, e, k)
  }

  ghost predicate Open(l: Layout, t: Table, e: Element, k: nat)
    requires l.size > 0 && t.Shaped(l.size)
  {
    t.dead[l.Loc(e, k)] || t.slots[l.Loc(e, k)] == e
  }

  ghost predicate Full(l: Layout, t: Table, e: Element)
    requires l.size > 0 && t.Shaped(l.size)
  {
    forall k | 0 <= k < WAYS :: !t.dead[l.Loc(e, k)]
  }

  class Cache {
    const hash: Hasher
    const size: nat
    const depthLimit: nat
    const epochSize: nat
    const collectionFlags: BitPackedFlags
    var table: seq<Element>
    var epochFlags: seq<bool>
    var epochHeuristicCounter: nat

    function Shape(): Layout { Layout(hash, size) }

    predicate Sized()
      reads this, collectionFlags
    {
      0 < size < TWO_32 && depthLimit >= 1 && epochSize >= 1 && size <= 8 * collectionFlags.mem.Length
          && |table| == |epochFlags| == size
    }

    function Contents(): Table
      requires Sized()
      reads this, collectionFlags, collectionFlags.mem
    {
      Table(table, collectionFlags.Flags(size), epochFlags)
    }

    /** The law of placement, and the bound on the current epoch. */
    ghost predicate Valid()
      reads this, collectionFlags, collectionFlags.mem
    {
      && Sized() && Sound(Shape(), Contents())
      && Current(Contents()) + epochHeuristicCounter <= epochSize + Slack(epochSize)
    }

    constructor (hash: Hasher, newSize: Word, depthLimit: nat)
      requires depthLimit >= 1
      ensures Valid() && fresh(collectionFlags) && fresh(collectionFlags.mem)
      ensures size == Max(2, newSize) && epochSize == Max(1, (45 * size) % TWO_32 / 100)
              && epochHeuristicCounter == epochSize
      ensures Contents().Live() == {} && Current(Contents()) == 0
    {
      this.hash, this.depthLimit := hash, depthLimit;
      size := Max(2, newSize);
      epochSize := Max(1, (45 * Max(2, newSize)) % TWO_32 / 100);
      collectionFlags := new BitPackedFlags(Max(2, newSize));
      table := seq(Max(2, newSize), _ => DEFAULT);
      epochFlags := seq(Max(2, newSize), _ => false);
      epochHeuristicCounter := Max(1, (45 * Max(2, newSize)) % TWO_32 / 100);
      new;
      CountNone(collectionFlags.Flags(size), epochFlags, size);
    }

    method AllowErase(n: nat)
      requires Sized() && n < size
      modifies collectionFlags.mem
      ensures Contents() == old(Contents()).(dead := old(Contents()).dead[n := true])
    {
      collectionFlags.BitSet(n, size);
    }

    method PleaseKeep(n: nat)
      requires Sized() && n < size
      modifies collectionFlags.mem
      ensures Contents() == old(Contents()).(dead := old(Contents()).dead[n := false])
    {
      collectionFlags.BitUnset(n, size);
    }

    /** Keeps an element at a location and marks it recent or not. */
    method Settle(loc: nat, e: Element, epoch: bool)
      requires Sized() && loc < size
      modifies this`table, this`epochFlags, collectionFlags.mem
      ensures Sized() && Contents() == old(Contents()).Store(loc, e, epoch)
    {
      table := table[loc := e];
      PleaseKeep(loc);
      epochFlags := epochFlags[loc := epoch];
    }

    method CountUnused() returns (c: nat)
      requires Sized()
      ensures c == Current(Contents())
    {
      c := 0;
      for i := 0 to size
        invariant c == Count(Contents().dead, Contents().recent, i)
      {
        if epochFlags[i] && !collectionFlags.IsSet(i) {
          c := c + 1;
        }
      }
    }

    method Age()
      requires Sized()
      modifies this`epochFlags, collectionFlags.mem
      ensures Sized() && Contents() == old(Contents()).Aged()
    {
      ghost var t := Contents();
      for i := 0 to size
        invariant Sized() && Contents().slots == t.slots
        invariant forall j | 0 <= j < size :: Contents().dead[j] == if j < i then t.Aged().dead[j] else t.dead[j]
        invariant forall j | 0 <= j < size :: Contents().recent[j] == if j < i then false else t.recent[j]
      {
        if epochFlags[i] {
          epochFlags := epochFlags[i := false];
        } else {
          AllowErase(i);
        }
      }
    }

    /** Leaves room for one more current element. The epochs are aged exactly when the counter has run out and
        the current epoch is full. */
    method EpochCheck()
      requires Valid()
      modifies this`epochFlags, this`epochHeuristicCounter, collectionFlags.mem
      ensures Sized() && Sound(Shape(), Contents())
      ensures Contents() == if old(epochHeuristicCounter) == 0
              && old(Current(Contents())) >= epochSize then old(Contents()).Aged() else old(Contents())
      ensures Current(Contents()) + epochHeuristicCounter < epochSize + Slack(epochSize)
      ensures epochHeuristicCounter == NextCounter(old(Current(Contents())), old(epochHeuristicCounter), epochSize)
    {
      hide Count, Sound, Bit;
      if epochHeuristicCounter != 0 {
        epochHeuristicCounter := epochHeuristicCounter - 1;
        return;
      }
      var epochUnusedCount := CountUnused();
      if epochUnusedCount >= epochSize {
        AgedIs(Shape(), Contents());
        Age();
        epochHeuristicCounter := epochSize;
      } else {
        epochHeuristicCounter := Max(1, Max(epochSize / 16, epochSize - epochUnusedCount));
      }
    }

    /** First location, if any, that holds the element. */
    method Find(e: Element) returns (k: nat)
      requires Sized()
      ensures k <= WAYS && (k < WAYS ==> table[Shape().Loc(e, k)] == e)
      ensures forall j | 0 <= j < k :: table[Shape().Loc(e, j)] != e
    {
      k := 0;
      while k < WAYS && table[Shape().Loc(e, k)] != e
        invariant k <= WAYS && forall j | 0 <= j < k :: table[Shape().Loc(e, j)] != e
      {
        k := k + 1;
      }
    }

    /** First location, if any, that is discardable. */
    method FindDead(e: Element) returns (k: nat)
      requires Sized()
      ensures k <= WAYS && (k < WAYS ==> Contents().dead[Shape().Loc(e, k)])
      ensures forall j | 0 <= j < k :: !Contents().dead[Shape().Loc(e, j)]
    {
      k := 0;
      while k < WAYS && !collectionFlags.IsSet(Shape().Loc(e, k))
        invariant k <= WAYS && forall j | 0 <= j < k :: !Contents().dead[Shape().Loc(e, j)]
      {
        k := k + 1;
      }
    }

    /** The location after the one just used, among the eight of the element; the second one when the last
        location is not among them. */
    method NextLoc(e: Element, lastLoc: int) returns (k: nat)
      requires Sized()
      ensures k < WAYS
      ensures (forall j | 0 <= j < WAYS :: Shape().Loc(e, j) != lastLoc) ==> k == 1
      ensures forall j | 0 <= j < WAYS ::
                Shape().Loc(e, j) == lastLoc && (forall i | 0 <= i < j :: Shape().Loc(e, i) != lastLoc) ==>
                  k == (j + 1) % WAYS
    {
      var f := 0;
      while f < WAYS && Shape().Loc(e, f) != lastLoc
        invariant f <= WAYS && forall j | 0 <= j < f :: Shape().Loc(e, j) != lastLoc
      {
        f := f + 1;
      }
      k := (1 + f) % 8;
    }

    /** One round of the search: the element is settled, or trades places with a live one. */
    method Round(e: Element, lastLoc: int, lastEpoch: bool) returns (done: bool, e': Element, loc: nat, epoch': bool)
      requires Sized() && Sound(Shape(), Contents()) && Loose(Contents(), e)
      modifies this`table, this`epochFlags, collectionFlags.mem
      ensures Sized() && Sound(Shape(), Contents())
      ensures done ==> && Contents().Live() == old(Contents().Live()) + {e}
                       && Current(Contents()) == old(Current(Contents())) + Flag(false, lastEpoch)
      ensures !done ==> && old(Full(Shape(), Contents(), e)) && Loose(Contents(), e')
                        && Contents().Live() + {e'} == old(Contents().Live()) + {e}
                        && Current(Contents()) + Flag(false, epoch') == old(Current(Contents()))
                            + Flag(false, lastEpoch)
    {
      hide Count, Unique, Placed, Bit, Loose, Flag;
      ghost var l, t := Shape(), Contents();
      var k := FindDead(e);
      if k < WAYS {
        loc := Shape().Loc(e, k);
        assert l.Home(e, loc);
        StoreSound(l, t, loc, e, lastEpoch);
        StoreGains(t, loc, e, lastEpoch);
        StoreCount(t, loc, e, lastEpoch);
        DeadIsNotCurrent(t, loc);
        Settle(loc, e, lastEpoch);
        done, e', epoch' := true, e, lastEpoch;
      } else {
        k := NextLoc(e, lastLoc);
        loc := Shape().Loc(e, k);
        assert l.Home(e, loc);
        StoreSound(l, t, loc, e, lastEpoch);
        SwapTrades(t, loc, e, lastEpoch);
        SwapLoose(t, loc, e, lastEpoch);
        StoreCount(t, loc, e, lastEpoch);
        LiveFlag(t, loc);
        done, e', epoch' := false, table[loc], epochFlags[loc];
        StoreKeepsDead(t, loc, e, lastEpoch);
        table := table[loc := e];
        epochFlags := epochFlags[loc := lastEpoch];
      }
    }

    /** The search: starting from an element in none of its locations, at most depthLimit rounds. */
    method Search(e0: Element) returns (ghost lost: Element)
      requires Sized() && Sound(Shape(), Contents()) && Loose(Contents(), e0)
      requires forall k | 0 <= k < WAYS :: table[Shape().Loc(e0, k)] != e0
      modifies this`table, this`epochFlags, collectionFlags.mem
      ensures Sized() && Sound(Shape(), Contents()) && GainsBut(old(Contents()), Contents(), e0, lost)
      ensures Current(Contents()) <= old(Current(Contents())) + 1
      ensures old(Room(Shape(), Contents(), e0)) ==> Contents().Live() == old(Contents()).Live() + {e0}
    {
      hide Current, Sound, Bit, Loose, Open, Full, Room;
      ghost var l, t := Shape(), Contents();
      ghost var live := t.Live();
      var e, lastLoc, lastEpoch, depth := e0, TWO_32 - 1, true, 0;
      while depth < depthLimit
        invariant depth <= depthLimit && Sized() && Sound(l, Contents()) && Loose(Contents(), e)
        invariant Contents().Live() + {e} == live + {e0}
        invariant Current(Contents()) + Flag(false, lastEpoch) == Current(t) + 1
        invariant depth == 0 ==> Contents() == t && e == e0
        invariant depth > 0 ==> !Room(l, t, e0)
      {
        var done;
        done, e, lastLoc, lastEpoch := Round(e, lastLoc, lastEpoch);
        if done {
          return e0;
        }
        if depth == 0 {
          Crowded(l, t, e0);
        }
        depth := depth + 1;
      }
      lost := e;
    }

    /** Every element stays in a location of its own, at most one live element or the new one is dropped, nothing
        is dropped when there is room, and the current epoch stays within its bound. */
    method Insert(e: Element)
      requires Valid()
      modifies this, collectionFlags.mem
      ensures Valid() && epochHeuristicCounter ==
              NextCounter(old(Current(Contents())), old(epochHeuristicCounter), epochSize)
      ensures var t := Checked(old(Contents()), old(epochHeuristicCounter), epochSize);
              && (exists lost: Element :: GainsBut(t, Contents(), e, lost))
              && (Room(Shape(), t, e) ==> Contents().Live() == t.Live() + {e})
    {
      hide Current, Sound, Bit, Loose, Open, Full, Room;
      EpochCheck();
      ghost var l, t := Shape(), Contents();
      assert t == Checked(old(Contents()), old(epochHeuristicCounter), epochSize);
      var k := Find(e);
      if k < WAYS {
        var loc := Shape().Loc(e, k);
        assert l.Home(e, loc);
        StoreSound(l, t, loc, e, true);
        StoreGains(t, loc, e, true);
        StoreCount(t, loc, e, true);
        Settle(loc, e, true);
        assert GainsBut(t, Contents(), e, e);
      } else {
        NotFound(l, t, e);
        ghost var lost := Search(e);
        assert GainsBut(t, Contents(), e, lost);
      }
    }

    /** Finds every live element; a second query gives the same answer even when the first one allowed erasure. */
    method Contains(e: Element, erase: bool) returns (r: bool)
      requires Valid()
      modifies collectionFlags.mem
      ensures Valid() && Contents().slots == old(Contents()).slots && Contents().recent == old(Contents()).recent
      ensures r <==> exists k | 0 <= k < WAYS :: table[Shape().Loc(e, k)] == e
      ensures e in old(Contents()).Live() ==> r
      ensures e != DEFAULT ==> (r <==> e in table)
      ensures !(r && erase) ==> Contents() == old(Contents())
      ensures r && erase && e != DEFAULT ==> Contents().Live() == old(Contents()).Live() - {e}
    {
      hide Current, Sound, Bit;
      var k := Find(e);
      r := k < WAYS;
      FoundExactly(Shape(), Contents(), e);
      if r && erase {
        MarkedIs(Shape(), Contents(), Shape().Loc(e, k));
        AllowErase(Shape().Loc(e, k));
      }
    }
  }

  /** When the next scan is due. */
  function NextCounter(current: nat, counter: nat, epochSize: nat): nat {
    if counter != 0 then counter - 1
    else if current >= epochSize then epochSize
    else Max(1, Max(epochSize / 16, epochSize - current))
  }

  /** The table after the epoch check. */
  function Checked(t: Table, counter: nat, epochSize: nat): Table
    requires t.Shaped(|t.slots|)
  {
    if counter == 0 && Current(t) >= epochSize then t.Aged() else t
  }

  lemma FoundExactly(l: Layout, t: Table, e: Element)
    requires Sound(l, t)
    ensures (e in t.Live() || (e in t.slots && e != DEFAULT)) ==> exists k | 0 <= k < WAYS :: t.slots[l.Loc(e, k)] == e
  {
    if e in t.Live() || (e in t.slots && e != DEFAULT) {
      LiveFound(l, t, e);
    }
  }

  lemma DeadIsNotCurrent(t: Table, i: nat)
    requires t.Shaped(|t.slots|) && i < |t.slots| && t.dead[i]
    ensures Flag(t.dead[i], t.recent[i]) == 0
  {
  }

  lemma LiveFlag(t: Table, i: nat)
    requires t.Shaped(|t.slots|) && i < |t.slots| && !t.dead[i]
    ensures Flag(t.dead[i], t.recent[i]) == Flag(false, t.recent[i])
  {
  }

  lemma StoreKeepsDead(t: Table, i: nat, e: Element, r: bool)
    requires t.Shaped(|t.slots|) && i < |t.slots| && !t.dead[i]
    ensures t.Store(i, e, r).dead == t.dead
  {
  }

  lemma Crowded(l: Layout, t: Table, e: Element)
    requires l.size > 0 && t.Shaped(l.size) && Full(l, t, e) && forall k | 0 <= k < WAYS :: t.slots[l.Loc(e, k)] != e
    ensures !Room(l, t, e)
  {
  }
}
