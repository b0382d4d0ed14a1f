/** A stack of coin caches refines a stack of plain outpoint-to-coin maps, each with a best block of its own or none,
    over whole runs. */
module CoinsStack {
  import opened Basics
  import opened CoinsView

  type Coins = map<OutPoint, Coin>

  /** The map a view stands for. */
  ghost function Flat(v: View): Coins {
    match v
    case Db(coins, _, _) => coins
    case Cache(cc, _, _, base) => (Flat(base) - cc.Keys) + (map o | o in cc && !cc[o].coin.IsSpent() :: cc[o].coin)
  }

  lemma {:induction false} FlatLookup(v: View, o: OutPoint)
    ensures Lookup(v, o) == if o in Flat(v) then Some(Flat(v)[o]) else None
    decreases v
  {
    if v.Cache? {
      FlatLookup(v.base, o);
    }
  }

  lemma FlatIs(v: View, m: Coins)
    requires forall o :: Lookup(v, o) == if o in m then Some(m[o]) else None
    ensures Flat(v) == m
  {
    hide Flat, Lookup;
    forall o
      ensures o in Flat(v) <==> o in m
      ensures o in m ==> o in Flat(v) && Flat(v)[o] == m[o]
    {
      FlatLookup(v, o);
    }
  }

  /** The maps of all layers, top first. */
  ghost function Flats(v: View): (s: seq<Coins>)
    ensures |s| >= 1 && s[0] == Flat(v)
  {
    if v.Cache? then [Flat(v)] + Flats(v.base) else [Flat(v)]
  }

  lemma FlatSame(v: View, w: View)
    requires SameCoins(v, w)
    ensures Flat(v) == Flat(w)
  {
    hide Flat;
    forall o
      ensures Lookup(w, o) == if o in Flat(v) then Some(Flat(v)[o]) else None
    {
      FlatLookup(v, o);
    }
    FlatIs(w, Flat(v));
  }

  lemma {:induction false} FlatsSame(v: View, w: View)
    requires SameViews(v, w)
    ensures Flats(v) == Flats(w)
    decreases v
  {
    FlatSame(v, w);
    if v.Cache? {
      FlatsSame(v.base, w.base);
    }
  }

  /** The block hashes of all layers, top first: a cache's is null until it is set or asked for. */
  function Hashes(v: View): (s: seq<Hash>)
    ensures |s| >= 1
  {
    if v.Cache? then [v.hashBlock] + Hashes(v.base) else [v.best]
  }

  function Heads(v: View): seq<Hash> {
    if v.Cache? then Heads(v.base) else v.heads
  }

  /** What a stack of views stands for: the map and the block hash of each layer, and the database's two heads. */
  datatype Stack = Stack(maps: seq<Coins>, hashes: seq<Hash>, heads: seq<Hash>)

  ghost function Shown(v: View): (s: Stack)
    ensures |s.maps| == |s.hashes| && |s.maps| >= 1
    ensures v.Cache? <==> |s.maps| >= 2
  {
    Depth(v);
    Stack(Flats(v), Hashes(v), Heads(v))
  }

  lemma {:induction false} Depth(v: View)
    ensures |Flats(v)| == |Hashes(v)|
    ensures v.Cache? <==> |Flats(v)| >= 2
    decreases v
  {
    hide Flat;
    if v.Cache? {
      Depth(v.base);
    }
  }

  /** The first block hash that is set, from the top. */
  function BestOf(s: seq<Hash>): Hash {
    if s == [] then NullHash else if |s| == 1 || s[0] != NullHash then s[0] else BestOf(s[1..])
  }

  /** GetBestBlock leaves its answer in every layer it asked. */
  function Answered(s: seq<Hash>): (t: seq<Hash>)
    ensures |t| == |s|
  {
    if |s| > 1 && s[0] == NullHash then [BestOf(s)] + Answered(s[1..]) else s
  }

  lemma {:induction false} BestIs(v: View)
    ensures BestBlock(v) == BestOf(Hashes(v))
    ensures Hashes(BestFetched(v)) == Answered(Hashes(v)) && Heads(BestFetched(v)) == Heads(v)
    decreases v
  {
    if v.Cache? {
      BestIs(v.base);
      assert Hashes(v)[1..] == Hashes(v.base);
    }
  }

  lemma {:induction false} FetchedHashes(v: View, o: OutPoint)
    ensures Hashes(Fetched(v, o)) == Hashes(v) && Heads(Fetched(v, o)) == Heads(v)
    decreases v
  {
    hide Lookup;
    if v.Cache? {
      FetchedHashes(v.base, o);
    }
  }

  /** What can be done with the cache on top: use it, put a new one on it, or drop it. */
  datatype Op =
    | Get(o: OutPoint)
    | Add(o: OutPoint, coin: Coin, overwrite: bool)
    | Spend(o: OutPoint)
    | Uncache(o: OutPoint)
    | GetBest
    | SetBest(h: Hash)
    | Flush
    | Push
    | Drop

  /** The contracts of the operations, in terms of the maps alone. */
  ghost predicate Allowed(s: Stack, op: Op) {
    && |s.maps| == |s.hashes|
    && match op
       case Add(o, coin, overwrite) => |s.maps| >= 2 && !coin.IsSpent() && (overwrite || o !in s.maps[0])
       case Push => |s.maps| >= 1
       case _ => |s.maps| >= 2
  }

  /** Flush aborts on a database when the block hash is null, or is not the one the database is being brought to. */
  ghost predicate Aborts(s: Stack, op: Op)
    requires Allowed(s, op)
  {
    && op.Flush?
    && |s.maps| == 2
    && (s.hashes[0] == NullHash || (s.hashes[1] == NullHash && |s.heads| == 2 && s.heads[0] != s.hashes[0]))
  }

  /** One operation on a stack of caches, or nothing where the program aborts. */
  ghost function Step(v: View, op: Op): Option<View>
    requires Allowed(Shown(v), op)
  {
    match op
    case Get(o) => Some(Fetched(v, o))
    case Add(o, coin, overwrite) => Some(Added(v, o, coin, overwrite))
    case Spend(o) => Some(Spent(v, o))
    case Uncache(o) => Some(Uncached(v, o))
    case GetBest => Some(BestFetched(v))
    case SetBest(h) => Some(BestSet(v, h))
    case Flush => Flushed(v)
    case Push => Some(Cache(map[], 0, NullHash, v))
    case Drop => Some(v.base)
  }

  ghost function MapStep(s: Stack, op: Op): Stack
    requires Allowed(s, op)
  {
    match op
    case Get(_) => s
    case Add(o, coin, _) => if coin.unspendable then s else s.(maps := s.maps[0 := s.maps[0][o := coin]])
    case Spend(o) => s.(maps := s.maps[0 := s.maps[0] - {o}])
    case Uncache(_) => s
    case GetBest => s.(hashes := Answered(s.hashes))
    case SetBest(h) => s.(hashes := s.hashes[0 := h])
    case Flush =>
      Stack(s.maps[1 := s.maps[0]], s.hashes[1 := s.hashes[0]], if |s.maps| == 2 then [] else s.heads)
    case Push => Stack([s.maps[0]] + s.maps, [NullHash] + s.hashes, s.heads)
    case Drop => Stack(s.maps[1..], s.hashes[1..], s.heads)
  }

  /** A stack of caches aborts exactly where the maps say so, and otherwise goes on standing for them. */
  ghost predicate Refines(r: Option<View>, s: Stack, op: Op)
    requires Allowed(s, op)
  {
    match r
    case None => Aborts(s, op)
    case Some(w) => !Aborts(s, op) && Valid(w) && Shown(w) == MapStep(s, op)
  }

  lemma StepRefines(v: View, op: Op)
    requires Valid(v) && Allowed(Shown(v), op)
    ensures Refines(Step(v, op), Shown(v), op)
  {
    hide Flat, Valid, SameViews, SameCoins, Lookup, Added, Spent, Fetched, Flushed, Uncached, BestFetched;
    match op {
      case Get(o) => GetRefines(v, o);
      case Uncache(o) =>
        UncacheInvisible(v, o);
        FlatsSame(v, Uncached(v, o));
        UncachedHashes(v, o);
      case Add(o, coin, overwrite) => AddRefines(v, o, coin, overwrite);
      case Spend(o) => SpendRefines(v, o);
      case GetBest =>
        BestInvisible(v);
        FlatsSame(v, BestFetched(v));
        BestIs(v);
      case SetBest(h) => SetBestRefines(v, h);
      case Flush => FlushRefines(v);
      case Push => PushRefines(v);
      case Drop => DropRefines(v);
    }
  }

  lemma GetRefines(v: View, o: OutPoint)
    requires Valid(v)
    ensures Valid(Fetched(v, o)) && Shown(Fetched(v, o)) == Shown(v)
  {
    hide Flat, Valid, SameViews, Fetched;
    FetchInvisible(v, o);
    FlatsSame(v, Fetched(v, o));
    FetchedHashes(v, o);
  }

  lemma UncachedHashes(v: View, o: OutPoint)
    requires v.Cache?
    ensures Hashes(Uncached(v, o)) == Hashes(v) && Heads(Uncached(v, o)) == Heads(v)
  {
  }

  lemma AddRefines(v: View, o: OutPoint, coin: Coin, overwrite: bool)
    requires Valid(v) && Allowed(Shown(v), Add(o, coin, overwrite))
    ensures Valid(Added(v, o, coin, overwrite))
    ensures Shown(Added(v, o, coin, overwrite)) == MapStep(Shown(v), Add(o, coin, overwrite))
  {
    hide Flat, Valid, Lookup;
    FlatLookup(v, o);
    AddIsUpdate(v, o, coin, overwrite);
    var w := Added(v, o, coin, overwrite);
    var m := if coin.unspendable then Flat(v) else Flat(v)[o := coin];
    forall p
      ensures Lookup(w, p) == if p in m then Some(m[p]) else None
    {
      FlatLookup(v, p);
    }
    FlatIs(w, m);
  }

  lemma SpendRefines(v: View, o: OutPoint)
    requires Valid(v) && v.Cache?
    ensures Valid(Spent(v, o)) && Shown(Spent(v, o)) == MapStep(Shown(v), Spend(o))
  {
    hide Flat, Valid, Lookup, Spent, SameViews;
    SpendIsRemoval(v, o);
    var w, m := Spent(v, o), Flat(v) - {o};
    forall p
      ensures Lookup(w, p) == if p in m then Some(m[p]) else None
    {
      FlatLookup(v, p);
    }
    FlatIs(w, m);
    FlatsSame(v.base, w.base);
    SpentHashes(v, o);
  }

  lemma SpentHashes(v: View, o: OutPoint)
    requires v.Cache?
    ensures Hashes(Spent(v, o)) == Hashes(v) && Heads(Spent(v, o)) == Heads(v)
  {
    hide Fetched;
    FetchedHashes(v, o);
  }

  lemma SetBestRefines(v: View, h: Hash)
    requires Valid(v) && v.Cache?
    ensures Valid(BestSet(v, h)) && Shown(BestSet(v, h)) == MapStep(Shown(v), SetBest(h))
  {
    hide Flat, Valid, SameCoins;
    BestSetShown(v, h);
    FlatSame(v, BestSet(v, h));
  }

  lemma FlushRefines(v: View)
    requires Valid(v) && v.Cache?
    ensures Refines(Flushed(v), Shown(v), Flush)
  {
    hide Flat, Flats, Hashes, Heads, Valid, Lookup, SameCoins, Committed, FlushAborts, Aborts;
    FlushIsCommit(v);
    FlushHashes(v);
    if Flushed(v).Some? {
      var w := Flushed(v).value;
      FlatSame(v, w);
      FlatSame(v, w.base);
      FlushFlats(v, w);
      assert w == Committed(v);
    }
  }

  lemma FlushFlats(v: View, w: View)
    requires v.Cache? && w.Cache? && Flat(w) == Flat(v) == Flat(w.base)
    requires if v.base.Cache? then w.base.Cache? && v.base.base == w.base.base else w.base.Db?
    ensures Flats(w) == Flats(v)[1 := Flat(v)]
  {
    hide Flat;
  }

  lemma FlushHashes(v: View)
    requires v.Cache?
    ensures Flushed(v).None? <==> Aborts(Shown(v), Flush)
    ensures |Hashes(v)| >= 2 && Hashes(Committed(v)) == Hashes(v)[1 := Hashes(v)[0]]
    ensures Heads(Committed(v)) == if |Flats(v)| == 2 then [] else Heads(v)
  {
    hide Flat;
    Depth(v.base);
    assert |Flats(v)| == 1 + |Flats(v.base)| && Hashes(v)[1] == Hashes(v.base)[0] && Heads(v) == Heads(v.base);
  }

  lemma PushRefines(v: View)
    requires Valid(v)
    ensures Valid(Cache(map[], 0, NullHash, v)) && Shown(Cache(map[], 0, NullHash, v)) == MapStep(Shown(v), Push)
  {
    NoEntries(v);
    FlatSame(v, Cache(map[], 0, NullHash, v));
  }

  lemma DropRefines(v: View)
    requires Valid(v) && v.Cache?
    ensures Valid(v.base) && Shown(v.base) == MapStep(Shown(v), Drop)
  {
  }

  /** A run keeps the contracts up to its end, or up to the step that aborts. */
  ghost predicate AllowedRun(s: Stack, ops: seq<Op>)
    decreases |ops|
  {
    ops == [] || (Allowed(s, ops[0]) && (Aborts(s, ops[0]) || AllowedRun(MapStep(s, ops[0]), ops[1..])))
  }

  /** The maps after a run, or nothing where one of its flushes aborts. */
  ghost function MapRun(s: Stack, ops: seq<Op>): Option<Stack>
    requires AllowedRun(s, ops)
    decreases |ops|
  {
    if ops == [] then Some(s) else if Aborts(s, ops[0]) then None else MapRun(MapStep(s, ops[0]), ops[1..])
  }

  /** The caches after a run, or nothing where it breaks a contract or aborts. */
  ghost function Run(v: View, ops: seq<Op>): Option<View>
    decreases |ops|
  {
    if ops == [] then Some(v)
    else if !Allowed(Shown(v), ops[0]) then None
    else match Step(v, ops[0])
         case None => None
         case Some(w) => Run(w, ops[1..])
  }

  /** A run that keeps the contracts aborts exactly where the run of the maps does, and otherwise leaves every layer
      showing exactly its plain map and its best block. */
  lemma {:induction false} RunRefines(v: View, ops: seq<Op>)
    requires Valid(v) && AllowedRun(Shown(v), ops)
    ensures match MapRun(Shown(v), ops)
            case None => Run(v, ops) == None
            case Some(s) => Run(v, ops).Some? && Valid(Run(v, ops).value) && Shown(Run(v, ops).value) == s
    decreases |ops|
  {
    hide Flat, Valid, Step, MapStep, Aborts, Allowed, Shown;
    if ops != [] {
      StepRefines(v, ops[0]);
      if Step(v, ops[0]).Some? {
        RunRefines(Step(v, ops[0]).value, ops[1..]);
      }
    }
  }

  /** A new cache on a database cannot be flushed as it is. Once it has been asked for its best block it can, exactly
      if the database has one; once a best block is set it can, and the database then has that block. */
  lemma FlushNeedsBlock(v: View, h: Hash)
    requires Valid(v) && v.Db?
    ensures Run(v, [Push, Flush]) == None
    ensures Run(v, [Push, GetBest, Flush, Drop]) == if v.best == NullHash then None else Some(v.(heads := []))
    ensures Run(v, [Push, SetBest(h), Flush, Drop]) ==
            if h == NullHash || (v.best == NullHash && |v.heads| == 2 && v.heads[0] != h) then None
            else Some(Db(v.coins, h, []))
  {
    hide Run;
    var s := Stack([v.coins], [v.best], v.heads);
    MapRunUnset(s);
    RunRefines(v, [Push, Flush]);
    MapRunBlock(s, GetBest);
    RunRefines(v, [Push, GetBest, Flush, Drop]);
    MapRunBlock(s, SetBest(h));
    RunRefines(v, [Push, SetBest(h), Flush, Drop]);
  }

  lemma MapRunStep(s: Stack, ops: seq<Op>)
    requires ops != [] && Allowed(s, ops[0]) && (Aborts(s, ops[0]) || AllowedRun(MapStep(s, ops[0]), ops[1..]))
    ensures AllowedRun(s, ops)
    ensures MapRun(s, ops) == if Aborts(s, ops[0]) then None else MapRun(MapStep(s, ops[0]), ops[1..])
  {
  }

  lemma MapRunUnset(s: Stack)
    requires |s.maps| == |s.hashes| == 1
    ensures AllowedRun(s, [Push, Flush]) && MapRun(s, [Push, Flush]) == None
  {
    hide MapRun;
    var ops := [Push, Flush];
    assert ops[1..] == [Flush];
    MapRunStep(MapStep(s, Push), ops[1..]);
    MapRunStep(s, ops);
  }

  /** A cache is pushed, asked for its best block or told one, flushed and dropped. */
  lemma MapRunBlock(s: Stack, op: Op)
    requires |s.maps| == |s.hashes| == 1 && (op.GetBest? || op.SetBest?)
    ensures AllowedRun(s, [Push, op, Flush, Drop])
    ensures MapRun(s, [Push, op, Flush, Drop]) ==
            var h := if op.GetBest? then s.hashes[0] else op.h;
            if h == NullHash || (s.hashes[0] == NullHash && |s.heads| == 2 && s.heads[0] != h) then None
            else Some(Stack(s.maps, [h], []))
  {
    hide MapRun, AllowedRun;
    var ops := [Push, op, Flush, Drop];
    var pushed := MapStep(s, Push);
    var told := MapStep(pushed, op);
    assert ops[1..][0] == op && ops[1..][1..] == [Flush, Drop];
    var h := told.hashes[0];
    TwoLayers(s, op);
    assert [Flush, Drop][1..] == [Drop];
    if Aborts(told, Flush) {
      MapRunStep(told, [Flush, Drop]);
    } else {
      var flushed := MapStep(told, Flush);
      var dropped := MapStep(flushed, Drop);
      MapRunEmpty(dropped);
      assert [Drop][1..] == [];
      MapRunStep(flushed, [Drop]);
      MapRunStep(told, [Flush, Drop]);
      assert dropped == Stack(s.maps, [h], []);
    }
    MapRunStep(pushed, ops[1..]);
    MapRunStep(s, ops);
  }

  lemma MapRunEmpty(s: Stack)
    ensures AllowedRun(s, []) && MapRun(s, []) == Some(s)
  {
  }

  lemma TwoLayers(s: Stack, op: Op)
    requires |s.maps| == |s.hashes| == 1 && (op.GetBest? || op.SetBest?)
    ensures var t := MapStep(MapStep(s, Push), op);
            && t.maps == [s.maps[0], s.maps[0]] && t.heads == s.heads && |t.hashes| == 2
            && t.hashes == [if op.GetBest? then s.hashes[0] else op.h, s.hashes[0]]
  {
    var a := [NullHash] + s.hashes;
    assert a[1..] == s.hashes && BestOf(a) == BestOf(s.hashes) == s.hashes[0] && Answered(s.hashes) == s.hashes;
  }
}
