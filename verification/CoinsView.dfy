/** Coin views as values (src/coins.h, src/coins.cpp, src/txdb.cpp): a database at the bottom and any number of
    write-back caches on it, and what each operation makes of such a stack. A database that was interrupted while
    writing has no best block, and two heads: the block it was being brought to and the one it came from. */
module CoinsView {
  import opened Basics

  type OutPoint = int
  type Hash = int
  const NullHash: Hash := 0

  /** Coin. `nUsage` is the dynamic memory its script holds, `unspendable` what its script says of it. */
  datatype Coin = Coin(nValue: int, script: seq<int>, nHeight: nat, fCoinBase: bool, nUsage: nat, unspendable: bool) {
    predicate IsSpent() { nValue == -1 }
    function Clear(): Coin { Coin(-1, [], 0, false, 0, false) }
  }

  const EmptyCoin := Coin(-1, [], 0, false, 0, false)

  /** CCoinsCacheEntry, with its two flags. */
  datatype Entry = Entry(coin: Coin, dirty: bool, isFresh: bool)
  type CoinsMap = map<OutPoint, Entry>

  datatype View =
    | Db(coins: map<OutPoint, Coin>, best: Hash, heads: seq<Hash>)
    | Cache(cacheCoins: CoinsMap, nUsage: int, hashBlock: Hash, base: View)

  function Unspent(c: Coin): Option<Coin> { if c.IsSpent() then None else Some(c) }

  /** The coin a view shows at an outpoint: the flat map the stack stands for. */
  function Lookup(v: View, o: OutPoint): Option<Coin> {
    match v
    case Db(coins, _, _) => if o in coins then Some(coins[o]) else None
    case Cache(cc, _, _, base) => if o in cc then Unspent(cc[o].coin) else Lookup(base, o)
  }

  function BestBlock(v: View): Hash {
    match v
    case Db(_, best, _) => best
    case Cache(_, _, h, base) => if h == NullHash then BestBlock(base) else h
  }

  /* ---- Memory accounting ---- */

  ghost function Usage(m: CoinsMap): int
    decreases |m|
  {
    if |m| == 0 then 0 else m[Pick(m)].coin.nUsage + Usage(m - {Pick(m)})
  }

  ghost function Pick(m: CoinsMap): (o: OutPoint)
    requires |m| != 0
    ensures o in m
  {
    SomeKey(m);
    var o :| o in m;
    o
  }

  lemma {:induction false} UsageWithout(m: CoinsMap, o: OutPoint)
    requires o in m
    ensures Usage(m) == m[o].coin.nUsage + Usage(m - {o})
    decreases |m|
  {
    var p := Pick(m);
    if p != o {
      UsageWithout(m - {p}, o);
      UsageWithout(m - {o}, p);
      assert m - {p} - {o} == m - {o} - {p};
    }
  }

  lemma UsagePut(m: CoinsMap, o: OutPoint, e: Entry)
    ensures Usage(m[o := e]) == Usage(m) - (if o in m then m[o].coin.nUsage else 0) + e.coin.nUsage
  {
    hide Usage;
    UsageWithout(m[o := e], o);
    assert m[o := e] - {o} == m - {o};
    if o in m {
      UsageWithout(m, o);
    } else {
      assert m - {o} == m;
    }
  }

  /* ---- The invariant ---- */

  /** What the flags of an entry promise about the view below. */
  ghost predicate EntryOk(e: Entry, below: Option<Coin>) {
    && (e.isFresh ==> below == None)
    && (!e.dirty ==> Unspent(e.coin) == below)
  }

  ghost predicate LayerOk(cc: CoinsMap, usage: int, base: View) {
    usage == Usage(cc) && forall o | o in cc :: EntryOk(cc[o], Lookup(base, o))
  }

  ghost predicate Valid(v: View) {
    match v
    case Db(coins, _, _) => forall o | o in coins :: !coins[o].IsSpent()
    case Cache(cc, usage, _, base) => Valid(base) && LayerOk(cc, usage, base)
  }

  lemma LayerRebase(cc: CoinsMap, usage: int, base: View, base': View)
    requires LayerOk(cc, usage, base) && SameCoins(base, base')
    ensures LayerOk(cc, usage, base')
  {
    hide Usage, Lookup;
  }

  lemma LayerPut(cc: CoinsMap, usage: int, base: View, o: OutPoint, e: Entry)
    requires LayerOk(cc, usage, base) && EntryOk(e, Lookup(base, o))
    ensures LayerOk(cc[o := e], usage - (if o in cc then cc[o].coin.nUsage else 0) + e.coin.nUsage, base)
  {
    hide Usage, Lookup, EntryOk;
    UsagePut(cc, o, e);
  }

  lemma LayerDrop(cc: CoinsMap, usage: int, base: View, o: OutPoint)
    requires LayerOk(cc, usage, base) && o in cc
    ensures LayerOk(cc - {o}, usage - cc[o].coin.nUsage, base)
  {
    hide Usage, Lookup, EntryOk;
    UsageWithout(cc, o);
  }

  ghost predicate SameCoins(v: View, w: View) { forall o :: Lookup(v, o) == Lookup(w, o) }

  /** Same depth, and every layer shows the same coins and best block. */
  ghost predicate SameViews(v: View, w: View) {
    && SameCoins(v, w)
    && BestBlock(v) == BestBlock(w)
    && v.Cache? == w.Cache?
    && (v.Cache? ==> SameViews(v.base, w.base))
  }

  /* ---- Reading ---- */

  /** FetchCoin, which fills every layer it passes on its way down. */
  function Fetched(v: View, o: OutPoint): View {
    match v
    case Db(_, _, _) => v
    case Cache(cc, usage, h, base) =>
      if o in cc then v
      else
        match Lookup(base, o)
        case None => Cache(cc, usage, h, Fetched(base, o))
        case Some(c) => Cache(cc[o := Entry(c, false, c.IsSpent())], usage + c.nUsage, h, Fetched(base, o))
  }

  lemma {:induction false} LookupUnspent(v: View, o: OutPoint)
    requires Valid(v) && Lookup(v, o).Some?
    ensures !Lookup(v, o).value.IsSpent()
    decreases v
  {
    if v.Cache? && o !in v.cacheCoins {
      LookupUnspent(v.base, o);
    }
  }

  /** Reading changes what no layer shows, and keeps every promise. */
  lemma {:induction false} FetchInvisible(v: View, o: OutPoint)
    requires Valid(v)
    ensures Valid(Fetched(v, o)) && SameViews(v, Fetched(v, o))
    decreases v
  {
    if v.Db? || o in v.cacheCoins {
      SameRefl(v);
    } else {
      FetchInvisible(v.base, o);
      FetchLayer(v, o);
    }
  }

  lemma FetchLayer(v: View, o: OutPoint)
    requires v.Cache? && Valid(v) && o !in v.cacheCoins
    requires Valid(Fetched(v.base, o)) && SameViews(v.base, Fetched(v.base, o))
    ensures Valid(Fetched(v, o)) && SameViews(v, Fetched(v, o))
  {
    hide LayerOk, SameCoins, Lookup;
    var w := Fetched(v, o);
    LayerRebase(v.cacheCoins, v.nUsage, v.base, w.base);
    SameAt(v.base, w.base, o);
    if Lookup(v.base, o).Some? {
      LookupUnspent(v.base, o);
      LayerPut(v.cacheCoins, v.nUsage, w.base, o, w.cacheCoins[o]);
    }
    forall p
      ensures Lookup(v, p) == Lookup(w, p)
    {
      SameAt(v.base, w.base, p);
      LookupCache(v, p);
      LookupCache(w, p);
    }
    AllSame(v, w);
  }

  lemma SameAt(v: View, w: View, o: OutPoint)
    requires SameCoins(v, w)
    ensures Lookup(v, o) == Lookup(w, o)
  {
  }

  lemma AllSame(v: View, w: View)
    requires forall o :: Lookup(v, o) == Lookup(w, o)
    ensures SameCoins(v, w)
  {
  }

  lemma LookupCache(v: View, o: OutPoint)
    requires v.Cache?
    ensures Lookup(v, o) == if o in v.cacheCoins then Unspent(v.cacheCoins[o].coin) else Lookup(v.base, o)
  {
  }

  /** After FetchCoin the top layer itself knows the coin, if there is one. */
  lemma FetchedEntry(v: View, o: OutPoint)
    requires Valid(v) && v.Cache?
    ensures var w := Fetched(v, o);
            w.Cache? && Lookup(v, o) == if o in w.cacheCoins then Unspent(w.cacheCoins[o].coin) else None
  {
    if o !in v.cacheCoins && Lookup(v.base, o).Some? {
      LookupUnspent(v.base, o);
    }
  }

  lemma {:induction false} SameRefl(v: View)
    ensures SameViews(v, v)
    decreases v
  {
    if v.Cache? {
      SameRefl(v.base);
    }
  }

  /** GetBestBlock remembers what it finds below. */
  function BestFetched(v: View): View {
    if v.Cache? && v.hashBlock == NullHash then
      Cache(v.cacheCoins, v.nUsage, BestBlock(v.base), BestFetched(v.base))
    else v
  }

  lemma {:induction false} BestInvisible(v: View)
    requires Valid(v)
    ensures Valid(BestFetched(v)) && SameViews(v, BestFetched(v))
    decreases v
  {
    hide LayerOk, SameCoins, Lookup;
    if v.Cache? && v.hashBlock == NullHash {
      BestInvisible(v.base);
      var w := BestFetched(v);
      LayerRebase(v.cacheCoins, v.nUsage, v.base, w.base);
      forall o
        ensures Lookup(v, o) == Lookup(w, o)
      {
        SameAt(v.base, w.base, o);
        LookupCache(v, o);
        LookupCache(w, o);
      }
      AllSame(v, w);
    } else {
      SameRefl(v);
    }
  }

  /* ---- Adding and spending ---- */

  function EntryAt(cc: CoinsMap, o: OutPoint): Entry { if o in cc then cc[o] else Entry(EmptyCoin, false, false) }

  /** AddCoin refuses to replace an unspent coin it knows of when no overwrite is announced. */
  predicate AddThrows(v: View, o: OutPoint, coin: Coin, overwrite: bool)
    requires v.Cache?
  {
    !coin.unspendable && !overwrite && !EntryAt(v.cacheCoins, o).coin.IsSpent()
  }

  function Added(v: View, o: OutPoint, coin: Coin, overwrite: bool): View
    requires v.Cache?
  {
    if coin.unspendable then v
    else
      var it := EntryAt(v.cacheCoins, o);
      var usage := v.nUsage - (if o in v.cacheCoins then it.coin.nUsage else 0) + coin.nUsage;
      Cache(v.cacheCoins[o := Entry(coin, true, it.isFresh || (!overwrite && !it.dirty))], usage, v.hashBlock, v.base)
  }

  /** AddCoin is map update, as long as it is told of possible overwrites. */
  lemma AddIsUpdate(v: View, o: OutPoint, coin: Coin, overwrite: bool)
    requires Valid(v) && v.Cache? && !coin.IsSpent() && (overwrite || Lookup(v, o) == None)
    ensures !AddThrows(v, o, coin, overwrite)
    ensures Valid(Added(v, o, coin, overwrite)) && Added(v, o, coin, overwrite).base == v.base
    ensures forall p :: Lookup(Added(v, o, coin, overwrite), p) ==
                        if p == o && !coin.unspendable then Some(coin) else Lookup(v, p)
  {
    hide Usage;
    if !coin.unspendable {
      var w := Added(v, o, coin, overwrite);
      LayerPut(v.cacheCoins, v.nUsage, v.base, o, w.cacheCoins[o]);
    }
  }

  /** Told of no overwrite where the stack does show a coin, AddCoin either throws, when it has the coin
      itself, or marks the new one FRESH wrongly: the contract is exactly what keeps the flags true. */
  lemma AddContractExact(v: View, o: OutPoint, coin: Coin, overwrite: bool)
    requires Valid(v) && v.Cache? && !coin.IsSpent()
    ensures (!AddThrows(v, o, coin, overwrite) && Valid(Added(v, o, coin, overwrite)))
            <==> (coin.unspendable || overwrite || Lookup(v, o) == None)
  {
    hide Usage;
    if coin.unspendable {
    } else if overwrite || Lookup(v, o) == None {
      AddIsUpdate(v, o, coin, overwrite);
    } else if o !in v.cacheCoins {
      assert Added(v, o, coin, overwrite).cacheCoins[o].isFresh;
    }
  }

  function Spent(v: View, o: OutPoint): View
    requires v.Cache?
  {
    var w := Fetched(v, o);
    if o !in w.cacheCoins then w
    else
      var e := w.cacheCoins[o];
      if e.isFresh then Cache(w.cacheCoins - {o}, w.nUsage - e.coin.nUsage, w.hashBlock, w.base)
      else Cache(w.cacheCoins[o := Entry(e.coin.Clear(), true, e.isFresh)], w.nUsage - e.coin.nUsage, w.hashBlock,
          w.base)
  }

  /** SpendCoin is map removal, and changes what no layer below shows. */
  lemma SpendIsRemoval(v: View, o: OutPoint)
    requires Valid(v) && v.Cache?
    ensures Valid(Spent(v, o)) && Spent(v, o).Cache? && SameViews(v.base, Spent(v, o).base)
            && BestBlock(Spent(v, o)) == BestBlock(v)
    ensures forall p :: Lookup(Spent(v, o), p) == if p == o then None else Lookup(v, p)
  {
    hide Usage, LayerOk, SameCoins, Lookup;
    FetchInvisible(v, o);
    FetchedEntry(v, o);
    var w, x := Fetched(v, o), Spent(v, o);
    if o in w.cacheCoins {
      FreshBelow(w, o);
      if w.cacheCoins[o].isFresh {
        LayerDrop(w.cacheCoins, w.nUsage, w.base, o);
      } else {
        LayerPut(w.cacheCoins, w.nUsage, w.base, o, x.cacheCoins[o]);
      }
    }
    forall p
      ensures Lookup(x, p) == if p == o then None else Lookup(v, p)
    {
      SameAt(v, w, p);
      LookupCache(w, p);
      LookupCache(x, p);
    }
  }

  lemma FreshBelow(v: View, o: OutPoint)
    requires Valid(v) && v.Cache? && o in v.cacheCoins
    ensures v.cacheCoins[o].isFresh ==> Lookup(v.base, o) == None
    ensures !v.cacheCoins[o].dirty ==> Unspent(v.cacheCoins[o].coin) == Lookup(v.base, o)
  {
  }

  function Uncached(v: View, o: OutPoint): View
    requires v.Cache?
  {
    if o in v.cacheCoins && !v.cacheCoins[o].dirty && !v.cacheCoins[o].isFresh
    then Cache(v.cacheCoins - {o}, v.nUsage - v.cacheCoins[o].coin.nUsage, v.hashBlock, v.base)
    else v
  }

  /** Uncache is invisible. */
  lemma UncacheInvisible(v: View, o: OutPoint)
    requires Valid(v) && v.Cache?
    ensures Valid(Uncached(v, o)) && SameViews(v, Uncached(v, o))
  {
    hide Usage, LayerOk, SameCoins, Lookup;
    var w := Uncached(v, o);
    SameRefl(v);
    if w != v {
      FreshBelow(v, o);
      LayerDrop(v.cacheCoins, v.nUsage, v.base, o);
      forall p
        ensures Lookup(v, p) == Lookup(w, p)
      {
        LookupCache(v, p);
        LookupCache(w, p);
      }
      AllSame(v, w);
    }
  }

  /* ---- Writing back ---- */

  /** One round of the loop of BatchWrite: what becomes of the parent's entry, if any. */
  function EntryAfter(us: Option<Entry>, e: Entry): Option<Entry> {
    if !e.dirty then us
    else
      match us
      case None => if e.isFresh && e.coin.IsSpent() then None else Some(Entry(e.coin, true, e.isFresh))
      case Some(u) => if u.isFresh && e.coin.IsSpent() then None else Some(Entry(e.coin, true, u.isFresh))
  }

  /** BatchWrite throws on an entry marked FRESH over an unspent coin of the parent. */
  predicate Misapplied(us: Option<Entry>, e: Entry) {
    e.dirty && us.Some? && e.isFresh && !us.value.coin.IsSpent()
  }

  function OptAt(cc: CoinsMap, o: OutPoint): Option<Entry> { if o in cc then Some(cc[o]) else None }

  /** The parent's entries once the child's entries `m` are written. */
  function Merged(cc: CoinsMap, m: CoinsMap): CoinsMap {
    map o | o in cc.Keys + m.Keys && AfterAll(cc, m, o).Some? :: AfterAll(cc, m, o).value
  }

  function AfterAll(cc: CoinsMap, m: CoinsMap, o: OutPoint): Option<Entry> {
    if o in m then EntryAfter(OptAt(cc, o), m[o]) else OptAt(cc, o)
  }

  lemma MergedAt(cc: CoinsMap, m: CoinsMap, o: OutPoint)
    ensures OptAt(Merged(cc, m), o) == AfterAll(cc, m, o)
  {
  }

  function DbMerged(coins: map<OutPoint, Coin>, m: CoinsMap): map<OutPoint, Coin> {
    map o | o in coins.Keys + m.Keys && DbAfter(coins, m, o).Some? :: DbAfter(coins, m, o).value
  }

  function DbAfter(coins: map<OutPoint, Coin>, m: CoinsMap, o: OutPoint): Option<Coin> {
    if o in m && m[o].dirty then Unspent(m[o].coin) else if o in coins then Some(coins[o]) else None
  }

  /** The database asserts that it is given a block, and the one it was being brought to if it was interrupted. */
  predicate Refuses(v: View, h: Hash) {
    v.Db? && (h == NullHash || (v.best == NullHash && |v.heads| == 2 && v.heads[0] != h))
  }

  predicate FlushAborts(v: View)
    requires v.Cache?
  {
    Refuses(v.base, v.hashBlock)
  }

  /** BatchWrite on either kind of view, where it does not refuse. */
  ghost function BatchWritten(v: View, m: CoinsMap, h: Hash): View {
    match v
    case Db(coins, _, _) => Db(DbMerged(coins, m), h, [])
    case Cache(cc, _, _, base) => Cache(Merged(cc, m), Usage(Merged(cc, m)), h, base)
  }

  ghost function Committed(v: View): View
    requires v.Cache?
  {
    Cache(map[], 0, v.hashBlock, BatchWritten(v.base, v.cacheCoins, v.hashBlock))
  }

  /** Flush, or nothing where the database aborts. */
  ghost function Flushed(v: View): Option<View>
    requires v.Cache?
  {
    if FlushAborts(v) then None else Some(Committed(v))
  }

  /** No entry of a valid cache is marked FRESH over an unspent coin of its base: Flush never throws. */
  lemma NeverMisapplied(v: View, o: OutPoint)
    requires Valid(v) && v.Cache? && v.base.Cache? && o in v.cacheCoins
    ensures !Misapplied(OptAt(v.base.cacheCoins, o), v.cacheCoins[o])
  {
  }

  /** What the written entry shows, and that its flags are right in the parent. */
  lemma WriteBack(v: View, o: OutPoint)
    requires Valid(v) && v.Cache? && v.base.Cache?
    ensures var p := v.base;
            var x := AfterAll(p.cacheCoins, v.cacheCoins, o);
            && Lookup(v, o) == (if x.Some? then Unspent(x.value.coin) else Lookup(p.base, o))
            && (x.Some? ==> EntryOk(x.value, Lookup(p.base, o)))
  {
  }

  lemma MergedValid(v: View)
    requires Valid(v) && v.Cache? && v.base.Cache?
    ensures Valid(BatchWritten(v.base, v.cacheCoins, v.hashBlock))
  {
    hide Usage, Lookup, Merged, EntryOk, AfterAll;
    var w := BatchWritten(v.base, v.cacheCoins, v.hashBlock);
    forall o | o in w.cacheCoins
      ensures EntryOk(w.cacheCoins[o], Lookup(w.base, o))
    {
      MergedAt(v.base.cacheCoins, v.cacheCoins, o);
      WriteBack(v, o);
    }
  }

  /** After Flush the cache is empty and its base, the only layer changed, shows what the cache showed. */
  lemma FlushIsCommit(v: View)
    requires Valid(v) && v.Cache?
    ensures match Flushed(v)
            case None => v.base.Db?
            case Some(w) =>
              && w.Cache? && w.cacheCoins == map[]
              && Valid(w) && SameCoins(v, w) && SameCoins(v, w.base)
              && (if v.base.Cache? then w.base.Cache? && w.base.base == v.base.base else w.base.Db?)
  {
    hide Usage, Lookup, Merged, SameCoins, LayerOk, AfterAll, DbMerged;
    var w := Committed(v);
    if v.base.Cache? {
      MergedValid(v);
    } else {
      DbValid(v);
    }
    NoEntries(w.base);
    forall o
      ensures Lookup(v, o) == Lookup(w.base, o) == Lookup(w, o)
    {
      LookupCache(w, o);
      if v.base.Cache? {
        MergedAt(v.base.cacheCoins, v.cacheCoins, o);
        WriteBack(v, o);
        LookupCache(w.base, o);
      } else {
        DbWriteBack(v, o);
      }
    }
    AllSame(v, w);
    AllSame(v, w.base);
  }

  lemma NoEntries(base: View)
    ensures LayerOk(map[], 0, base)
  {
  }

  lemma DbWriteBack(v: View, o: OutPoint)
    requires Valid(v) && v.Cache? && v.base.Db?
    ensures Lookup(v, o) == Lookup(BatchWritten(v.base, v.cacheCoins, v.hashBlock), o)
  {
  }

  lemma DbValid(v: View)
    requires Valid(v) && v.Cache? && v.base.Db?
    ensures Valid(BatchWritten(v.base, v.cacheCoins, v.hashBlock))
  {
  }

  /** SetBestBlock. */
  function BestSet(v: View, h: Hash): View
    requires v.Cache?
  {
    v.(hashBlock := h)
  }

  /** SetBestBlock changes no coin and no layer below. */
  lemma BestSetShown(v: View, h: Hash)
    requires Valid(v) && v.Cache?
    ensures Valid(BestSet(v, h)) && SameCoins(v, BestSet(v, h)) && BestSet(v, h).base == v.base
    ensures h != NullHash ==> BestBlock(BestSet(v, h)) == h
  {
    hide LayerOk, SameCoins, Lookup;
    var w := BestSet(v, h);
    forall o
      ensures Lookup(v, o) == Lookup(w, o)
    {
      LookupCache(v, o);
      LookupCache(w, o);
    }
    AllSame(v, w);
  }

  /** Flush hands its own block hash down. On a cache it does so even when that hash is null, that is, when it only
      stands for the base's; a database refuses a null hash. The base ends up showing the best block the cache
      showed exactly as follows. */
  lemma FlushBestBlock(v: View)
    requires v.Cache?
    ensures Flushed(v).Some? && BestBlock(Flushed(v).value.base) == BestBlock(v) <==>
              match v.base
              case Db(_, best, heads) =>
                v.hashBlock != NullHash && (best != NullHash || |heads| != 2 || heads[0] == v.hashBlock)
              case Cache(_, _, h, below) => v.hashBlock != NullHash || h == NullHash || h == BestBlock(below)
  {
  }
}
