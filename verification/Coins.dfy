/** The coin cache object (CCoinsViewCache of src/coins.h and src/coins.cpp), stacked to any depth on a
    coin database. Every method is tied to a function on view values; what those mean is in CoinsView. */
module Coins {
  import opened Basics
  import opened CoinsView

  lemma MergeStep(cc: CoinsMap, m: CoinsMap, o: OutPoint, e: Entry)
    requires o !in m
    ensures OptAt(Merged(cc, m), o) == OptAt(cc, o)
    ensures Merged(cc, m[o := e]) == match EntryAfter(OptAt(cc, o), e)
                                     case None => Merged(cc, m) - {o}
                                     case Some(x) => Merged(cc, m)[o := x]
  {
  }

  lemma MergeNone(cc: CoinsMap)
    ensures Merged(cc, map[]) == cc
  {
  }

  lemma MergeUsage(cc: CoinsMap, o: OutPoint, e: Entry)
    ensures o in cc ==> Usage(cc - {o}) == Usage(cc) - cc[o].coin.nUsage
    ensures o !in cc ==> cc - {o} == cc
    ensures Usage(cc[o := e]) == Usage(cc) - (if o in cc then cc[o].coin.nUsage else 0) + e.coin.nUsage
  {
    UsagePut(cc, o, e);
    if o in cc {
      UsageWithout(cc, o);
    }
  }

  lemma DbMergeStep(coins: map<OutPoint, Coin>, m: CoinsMap, o: OutPoint, e: Entry)
    requires o !in m
    ensures DbMerged(coins, m[o := e]) == if !e.dirty then DbMerged(coins, m)
                                          else if e.coin.IsSpent() then DbMerged(coins, m) - {o}
                                          else DbMerged(coins, m)[o := e.coin]
  {
  }

  lemma DbMergeNone(coins: map<OutPoint, Coin>)
    ensures DbMerged(coins, map[]) == coins
  {
  }

  /** `m` split into the entries handled and those to come. */
  ghost predicate Parted(m: CoinsMap, done: CoinsMap, todo: CoinsMap) { done.Keys !! todo.Keys && done + todo == m }

  lemma PartedStart(m: CoinsMap)
    ensures Parted(m, map[], m)
  {
  }

  lemma PartedStep(m: CoinsMap, done: CoinsMap, todo: CoinsMap, o: OutPoint)
    requires Parted(m, done, todo) && o in todo
    ensures Parted(m, done[o := todo[o]], todo - {o}) && o !in done && o in m && m[o] == todo[o]
            && |todo - {o}| < |todo|
  {
    assert (todo - {o}).Keys == todo.Keys - {o};
  }

  lemma PartedEnd(m: CoinsMap, done: CoinsMap)
    requires Parted(m, done, map[])
    ensures done == m
  {
  }

  ghost predicate NoneMisapplied(cc: CoinsMap, m: CoinsMap) {
    forall o | o in m :: !Misapplied(OptAt(cc, o), m[o])
  }

  lemma NoneMisappliedStart(cc: CoinsMap)
    ensures NoneMisapplied(cc, map[])
  {
  }

  lemma OneMisapplied(cc: CoinsMap, m: CoinsMap, o: OutPoint)
    requires o in m && Misapplied(OptAt(cc, o), m[o])
    ensures !NoneMisapplied(cc, m)
  {
  }

  /** The throw of BatchWrite is unreachable from Flush. */
  lemma NoneMisappliedBelow(v: View)
    requires Valid(v) && v.Cache? && v.base.Cache?
    ensures NoneMisapplied(v.base.cacheCoins, v.cacheCoins)
  {
    forall o | o in v.cacheCoins
      ensures !Misapplied(OptAt(v.base.cacheCoins, o), v.cacheCoins[o])
    {
      NeverMisapplied(v, o);
    }
  }

  lemma NoneMisappliedStep(cc: CoinsMap, m: CoinsMap, o: OutPoint, e: Entry)
    requires NoneMisapplied(cc, m) && !Misapplied(OptAt(cc, o), e)
    ensures NoneMisapplied(cc, m[o := e])
  {
  }

  /** CCoinsViewDB, as far as the caches use it. */
  class CoinsDb {
    var coins: map<OutPoint, Coin>
    var best: Hash
    var heads: seq<Hash>

    function Model(): View reads this { Db(coins, best, heads) }

    method GetCoin(o: OutPoint) returns (found: bool, coin: Coin)
      ensures found <==> o in coins
      ensures found ==> coin == coins[o]
    {
      found := o in coins;
      coin := if found then coins[o] else EmptyCoin;
    }

    /** BatchWrite, entry by entry in any order; `aborted` stands for a failed assert. */
    method BatchWrite(m: CoinsMap, h: Hash) returns (aborted: bool)
      modifies this
      ensures aborted <==> Refuses(old(Model()), h)
      ensures Model() == if aborted then old(Model()) else BatchWritten(old(Model()), m, h)
    {
      hide DbMerged, Parted;
      if h == NullHash {
        return true;
      }
      var oldTip := best;
      if oldTip == NullHash {
        if |heads| == 2 {
          if heads[0] != h {
            return true;
          }
          oldTip := heads[1];
        }
      }
      best, heads := NullHash, [h, oldTip];
      DbMergeNone(coins);
      PartedStart(m);
      var todo, done: CoinsMap := m, map[];
      while todo != map[]
        invariant Parted(m, done, todo)
        invariant coins == DbMerged(old(coins), done)
        decreases |todo|
      {
        SomeKey(todo);
        var o :| o in todo;
        var e := todo[o];
        PartedStep(m, done, todo, o);
        DbMergeStep(old(coins), done, o, e);
        todo, done := todo - {o}, done[o := e];
        if e.dirty {
          if e.coin.IsSpent() {
            coins := coins - {o};
          } else {
            coins := coins[o := e.coin];
          }
        }
      }
      PartedEnd(m, done);
      best, heads := h, [];
      aborted := false;
    }
  }

  class CoinsViewCache {
    const parent: CoinsViewCache?  // the cache below, or null when that is the database
    const db: CoinsDb
    const depth: nat
    var cacheCoins: CoinsMap
    var cachedCoinsUsage: int
    var hashBlock: Hash

    /** This cache and everything below it. */
    ghost function Objects(): set<object>
      decreases depth
    {
      {this} + if parent == null then {db} else if parent.depth < depth then parent.Objects() else {}
    }

    ghost predicate Linked()
      decreases depth
    {
      parent != null ==> parent.depth < depth && parent.Linked() && this !in parent.Objects()
    }

    ghost function Below(): View
      requires Linked()
      reads if parent == null then {db} else parent.Objects()
      decreases depth, 0
    {
      if parent == null then Db(db.coins, db.best, db.heads) else parent.Model()
    }

    ghost function Model(): View
      requires Linked()
      reads Objects()
      decreases depth, 1
    {
      Cache(cacheCoins, cachedCoinsUsage, hashBlock, Below())
    }

    constructor (parent: CoinsViewCache?, db: CoinsDb)
      requires parent != null ==> parent.Linked()
      ensures Linked() && this.parent == parent && this.db == db
      ensures Model() == Cache(map[], 0, NullHash, if parent == null then Db(db.coins, db.best, db.heads)
              else parent.Model())
    {
      this.parent, this.db := parent, db;
      depth := if parent == null then 0 else parent.depth + 1;
      cacheCoins, cachedCoinsUsage, hashBlock := map[], 0, NullHash;
      new;
      if parent != null {
        parent.NotBelow(this);
      }
    }

    lemma {:induction false} NotBelow(c: CoinsViewCache)
      requires c.depth > depth
      ensures c !in Objects()
      decreases depth
    {
      if parent != null && parent.depth < depth {
        parent.NotBelow(c);
      }
    }

    method FetchCoin(o: OutPoint) returns (found: bool)
      requires Linked() && Valid(Model())
      modifies Objects()
      ensures Model() == Fetched(old(Model()), o)
      ensures found <==> o in cacheCoins
      decreases depth, 0
    {
      hide LayerOk, Usage;
      if o in cacheCoins {
        return true;
      }
      var tmp;
      if parent == null {
        found, tmp := db.GetCoin(o);
      } else {
        assert Model().base == parent.Model();
        found, tmp := parent.GetCoin(o);
      }
      if !found {
        return;
      }
      cacheCoins := cacheCoins[o := Entry(tmp, false, false)];
      if tmp.IsSpent() {
        cacheCoins := cacheCoins[o := Entry(tmp, false, true)];
      }
      cachedCoinsUsage := cachedCoinsUsage + tmp.nUsage;
    }

    method GetCoin(o: OutPoint) returns (found: bool, coin: Coin)
      requires Linked() && Valid(Model())
      modifies Objects()
      ensures Model() == Fetched(old(Model()), o)
      ensures found <==> Lookup(old(Model()), o).Some?
      ensures found ==> coin == Lookup(old(Model()), o).value
      decreases depth, 1
    {
      FetchedEntry(Model(), o);
      found := FetchCoin(o);
      coin := EmptyCoin;
      if found {
        coin := cacheCoins[o].coin;
        found := !coin.IsSpent();
      }
    }

    method HaveCoin(o: OutPoint) returns (found: bool)
      requires Linked() && Valid(Model())
      modifies Objects()
      ensures Model() == Fetched(old(Model()), o)
      ensures found <==> Lookup(old(Model()), o).Some?
    {
      FetchedEntry(Model(), o);
      found := FetchCoin(o);
      found := found && !cacheCoins[o].coin.IsSpent();
    }

    method AccessCoin(o: OutPoint) returns (coin: Coin)
      requires Linked() && Valid(Model())
      modifies Objects()
      ensures Model() == Fetched(old(Model()), o)
      ensures Unspent(coin) == Lookup(old(Model()), o)
    {
      FetchedEntry(Model(), o);
      var found := FetchCoin(o);
      coin := if found then cacheCoins[o].coin else EmptyCoin;
    }

    /** AddCoin; `threw` stands for the exception. */
    method AddCoin(o: OutPoint, coin: Coin, possibleOverwrite: bool) returns (threw: bool)
      requires Linked() && Valid(Model()) && !coin.IsSpent()
      modifies this
      ensures threw <==> AddThrows(old(Model()), o, coin, possibleOverwrite)
      ensures !threw ==> Model() == Added(old(Model()), o, coin, possibleOverwrite)
      ensures threw ==> && cacheCoins == old(cacheCoins) && o in cacheCoins
                        && cachedCoinsUsage == old(cachedCoinsUsage) - cacheCoins[o].coin.nUsage
      ensures possibleOverwrite || Lookup(old(Model()), o) == None ==> !threw
    {
      if coin.unspendable {
        return false;
      }
      var it := EntryAt(cacheCoins, o);
      var isFresh := false;
      if o in cacheCoins {
        cachedCoinsUsage := cachedCoinsUsage - it.coin.nUsage;
      }
      if !possibleOverwrite {
        if !it.coin.IsSpent() {
          return true;
        }
        isFresh := !it.dirty;
      }
      cacheCoins := cacheCoins[o := Entry(coin, true, it.isFresh || isFresh)];
      cachedCoinsUsage := cachedCoinsUsage + coin.nUsage;
      threw := false;
    }

    method SpendCoin(o: OutPoint) returns (found: bool, moveout: Coin)
      requires Linked() && Valid(Model())
      modifies Objects()
      ensures Model() == Spent(old(Model()), o)
      ensures found <==> o in Fetched(old(Model()), o).cacheCoins
      ensures found ==> moveout == Fetched(old(Model()), o).cacheCoins[o].coin
      ensures Lookup(old(Model()), o).Some? ==> found && moveout == Lookup(old(Model()), o).value
    {
      hide Lookup, Valid;
      FetchedEntry(Model(), o);
      found := FetchCoin(o);
      moveout := EmptyCoin;
      if !found {
        return;
      }
      var e := cacheCoins[o];
      cachedCoinsUsage := cachedCoinsUsage - e.coin.nUsage;
      moveout := e.coin;
      if e.isFresh {
        cacheCoins := cacheCoins - {o};
      } else {
        cacheCoins := cacheCoins[o := Entry(e.coin.Clear(), true, e.isFresh)];
      }
    }

    method Uncache(o: OutPoint)
      requires Linked()
      modifies this
      ensures Model() == Uncached(old(Model()), o)
    {
      if o in cacheCoins && !cacheCoins[o].dirty && !cacheCoins[o].isFresh {
        cachedCoinsUsage := cachedCoinsUsage - cacheCoins[o].coin.nUsage;
        cacheCoins := cacheCoins - {o};
      }
    }

    /** One round of the loop of BatchWrite; `threw` stands for the exception. */
    method WriteEntry(o: OutPoint, e: Entry) returns (threw: bool)
      requires Linked() && cachedCoinsUsage == Usage(cacheCoins)
      modifies `cacheCoins, `cachedCoinsUsage
      ensures threw <==> Misapplied(OptAt(old(cacheCoins), o), e)
      ensures !threw ==> cachedCoinsUsage == Usage(cacheCoins)
      ensures !threw ==> cacheCoins == match EntryAfter(OptAt(old(cacheCoins), o), e)
                                       case None => old(cacheCoins) - {o}
                                       case Some(x) => old(cacheCoins)[o := x]
      ensures Below() == old(Below())
    {
      hide Usage;
      threw := false;
      MergeUsage(cacheCoins, o,
          e.(dirty := true, isFresh := if o in cacheCoins then cacheCoins[o].isFresh else e.isFresh));
      if !e.dirty {
        return;
      }
      if o !in cacheCoins {
        if !(e.isFresh && e.coin.IsSpent()) {
          cacheCoins := cacheCoins[o := Entry(e.coin, true, e.isFresh)];
          cachedCoinsUsage := cachedCoinsUsage + e.coin.nUsage;
        }
      } else {
        var us := cacheCoins[o];
        if e.isFresh && !us.coin.IsSpent() {
          return true;
        }
        cachedCoinsUsage := cachedCoinsUsage - us.coin.nUsage;
        if us.isFresh && e.coin.IsSpent() {
          cacheCoins := cacheCoins - {o};
        } else {
          cacheCoins := cacheCoins[o := Entry(e.coin, true, us.isFresh)];
          cachedCoinsUsage := cachedCoinsUsage + e.coin.nUsage;
        }
      }
    }

    /** BatchWrite, entry by entry in any order. */
    method BatchWrite(m: CoinsMap, h: Hash) returns (threw: bool)
      requires Linked() && Valid(Model())
      modifies this
      ensures threw <==> !NoneMisapplied(old(cacheCoins), m)
      ensures !threw ==> Model() == BatchWritten(old(Model()), m, h)
    {
      hide Merged, Usage, Lookup, EntryOk, Parted, NoneMisapplied, EntryAfter, Misapplied;
      MergeNone(cacheCoins);
      PartedStart(m);
      NoneMisappliedStart(cacheCoins);
      var todo, done: CoinsMap := m, map[];
      while todo != map[]
        invariant Parted(m, done, todo)
        invariant cacheCoins == Merged(old(cacheCoins), done) && cachedCoinsUsage == Usage(cacheCoins)
        invariant NoneMisapplied(old(cacheCoins), done) && Below() == old(Below())
        decreases |todo|
      {
        SomeKey(todo);
        var o :| o in todo;
        var e := todo[o];
        PartedStep(m, done, todo, o);
        MergeStep(old(cacheCoins), done, o, e);
        threw := WriteEntry(o, e);
        if threw {
          OneMisapplied(old(cacheCoins), m, o);
          return;
        }
        NoneMisappliedStep(old(cacheCoins), done, o, e);
        todo, done := todo - {o}, done[o := e];
      }
      PartedEnd(m, done);
      hashBlock := h;
      threw := false;
    }

    /** Flush: the parent, cache or database, takes over every change. It fails exactly on a database that refuses the
        block hash, in particular a null one; the exception of a parent cache is unreachable. */
    method Flush() returns (failed: bool)
      requires Linked() && Valid(Model())
      modifies Objects()
      ensures failed <==> FlushAborts(old(Model()))
      ensures Model() == if failed then old(Model()) else Flushed(old(Model())).value
    {
      hide Usage, Merged, LayerOk, Lookup, NoneMisapplied, DbMerged;
      if parent == null {
        failed := db.BatchWrite(cacheCoins, hashBlock);
      } else {
        assert Model().base == parent.Model() && parent.Model().cacheCoins == parent.cacheCoins;
        NoneMisappliedBelow(Model());
        failed := parent.BatchWrite(cacheCoins, hashBlock);
      }
      if failed {
        return;
      }
      cacheCoins := map[];
      cachedCoinsUsage := 0;
    }

    method SetBestBlock(h: Hash)
      requires Linked()
      modifies this
      ensures Model() == BestSet(old(Model()), h)
    {
      hashBlock := h;
    }

    method GetBestBlock() returns (h: Hash)
      requires Linked()
      modifies Objects()
      ensures Model() == BestFetched(old(Model())) && h == BestBlock(old(Model()))
      decreases depth
    {
      if hashBlock == NullHash {
        if parent == null {
          hashBlock := db.best;
        } else {
          var b := parent.GetBestBlock();
          hashBlock := b;
        }
      }
      h := hashBlock;
    }
  }
}
