/**
 * The UTXO cache stack as values: a database at the bottom and any number of
 * write-back caches above it.  A cache entry carries the DIRTY and FRESH flags
 * that decide what a flush writes, drops or erases.  The whole stack is shown
 * to behave as a stack of plain maps from outpoint to unspent coin.
 */
module CoinsView {

  datatype Option<+T> = None | Some(value: T)

  const OP_RETURN: int := 0x6a
  const MAX_SCRIPT_SIZE: int := 129000

  datatype OutPoint = OutPoint(hash: nat, n: nat)

  datatype Coin = Coin(value: int, script: seq<int>, coinBase: bool, coinStake: bool, height: nat) {
    /** A spent coin has a null output, marked by the value -1. */
    predicate IsSpent() {
      value == -1
    }

    predicate IsUnspendable() {
      (|script| > 0 && script[0] == OP_RETURN) || |script| > MAX_SCRIPT_SIZE
    }
  }

  const ClearedCoin := Coin(-1, [], false, false, 0)

  datatype Entry = Entry(coin: Coin, isDirty: bool, isFresh: bool)

  /** A block hash is a number; zero is the null hash. */
  datatype View =
    | Database(coins: map<OutPoint, Coin>, best: nat)
    | Cache(entries: map<OutPoint, Entry>, best: nat, base: View)

  // ----- meaning ------------------------------------------------------------

  type Utxo = map<OutPoint, Coin>

  /** The unspent coins a view stands for. */
  ghost function Flat(v: View): Utxo {
    match v
    case Database(coins, _) =>
      map o | o in coins && !coins[o].IsSpent() :: coins[o]
    case Cache(entries, _, base) =>
      var below := Flat(base);
      map o | o in entries.Keys + below.Keys && (o in entries ==> !entries[o].coin.IsSpent()) ::
        if o in entries then entries[o].coin else below[o]
  }

  /** The meanings of all layers, top first. */
  ghost function Layers(v: View): (s: seq<Utxo>)
    ensures |s| >= 1 && s[0] == Flat(v)
    ensures |s| == 1 <==> v.Database?
  {
    match v
    case Database(_, _) => [Flat(v)]
    case Cache(_, _, base) => [Flat(v)] + Layers(base)
  }

  function Best(v: View): nat {
    match v
    case Database(_, best) => best
    case Cache(_, best, base) => if best == 0 then Best(base) else best
  }

  ghost function At(m: Utxo, o: OutPoint): Option<Coin> {
    if o in m then Some(m[o]) else None
  }

  ghost function Unspent(c: Option<Coin>): Option<Coin> {
    if c.Some? && !c.value.IsSpent() then c else None
  }

  /** What an entry's flags promise about the view below it. */
  ghost predicate EntryOk(e: Entry, below: Option<Coin>) {
    && (e.isFresh ==> below.None?)
    && (!e.isDirty ==> below == if e.coin.IsSpent() then None else Some(e.coin))
  }

  /** The flags of every entry of every layer mean what they should. */
  ghost predicate Coherent(v: View) {
    match v
    case Database(_, _) => true
    case Cache(entries, _, base) =>
      && Coherent(base)
      && forall o :: o in entries ==> EntryOk(entries[o], At(Flat(base), o))
  }

  // ----- operations -----------------------------------------------------------

  /** GetCoin: a database hands out whatever is stored, a cache only unspent coins. */
  function Read(v: View, o: OutPoint): Option<Coin> {
    match v
    case Database(coins, _) => if o in coins then Some(coins[o]) else None
    case Cache(entries, _, base) =>
      if o in entries then
        if entries[o].coin.IsSpent() then None else Some(entries[o].coin)
      else
        match Read(base, o)
        case None => None
        case Some(c) => if c.IsSpent() then None else Some(c)
  }

  /** FetchCoin: reading fills every cache on the way down. */
  function Fetch(v: View, o: OutPoint): View {
    match v
    case Database(_, _) => v
    case Cache(entries, best, base) =>
      if o in entries then v
      else
        match Read(base, o)
        case None => Cache(entries, best, Fetch(base, o))
        case Some(c) => Cache(entries[o := Entry(c, false, c.IsSpent())], best, Fetch(base, o))
  }

  predicate AddThrows(v: View, o: OutPoint, c: Coin, overwrite: bool)
    requires v.Cache?
  {
    !c.IsUnspendable() && !overwrite && o in v.entries && !v.entries[o].coin.IsSpent()
  }

  function Add(v: View, o: OutPoint, c: Coin, overwrite: bool): View
    requires v.Cache? && !c.IsSpent() && !AddThrows(v, o, c, overwrite)
  {
    if c.IsUnspendable() then v
    else
      var prior := if o in v.entries then v.entries[o] else Entry(ClearedCoin, false, false);
      v.(entries := v.entries[o := Entry(c, true, prior.isFresh || (!overwrite && !prior.isDirty))])
  }

  /** SpendCoin once the coin has been fetched: a FRESH entry vanishes, another one is marked. */
  function Erase(w: View, o: OutPoint): View
    requires w.Cache?
  {
    if o !in w.entries then w
    else if w.entries[o].isFresh then w.(entries := w.entries - {o})
    else w.(entries := w.entries[o := Entry(ClearedCoin, true, false)])
  }

  function Spend(v: View, o: OutPoint): View
    requires v.Cache?
  {
    Erase(Fetch(v, o), o)
  }

  function Uncache(v: View, o: OutPoint): View
    requires v.Cache?
  {
    if o in v.entries && !v.entries[o].isDirty && !v.entries[o].isFresh then
      v.(entries := v.entries - {o})
    else
      v
  }

  /** The condition under which BatchWrite throws "FRESH flag misapplied". */
  predicate Misapplied(parent: map<OutPoint, Entry>, o: OutPoint, e: Entry) {
    e.isDirty && o in parent && e.isFresh && !parent[o].coin.IsSpent()
  }

  /** What one child entry leaves in a parent cache. */
  function MergeEntry(parent: map<OutPoint, Entry>, o: OutPoint, e: Entry): map<OutPoint, Entry> {
    if !e.isDirty then parent
    else if o !in parent then
      if e.isFresh && e.coin.IsSpent() then parent else parent[o := Entry(e.coin, true, e.isFresh)]
    else if parent[o].isFresh && e.coin.IsSpent() then parent - {o}
    else parent[o := Entry(e.coin, true, parent[o].isFresh)]
  }

  /** What one child entry leaves in the database. */
  function StoreEntry(coins: map<OutPoint, Coin>, o: OutPoint, e: Entry): map<OutPoint, Coin> {
    if !e.isDirty then coins
    else if e.coin.IsSpent() then coins - {o}
    else coins[o := e.coin]
  }

  /** All child entries at once, outpoint by outpoint: the order cannot matter. */
  ghost function Merge(parent: map<OutPoint, Entry>, child: map<OutPoint, Entry>): map<OutPoint, Entry> {
    map o | o in parent.Keys + child.Keys
            && (o in child ==> o in MergeEntry(parent, o, child[o])) ::
      if o in child then MergeEntry(parent, o, child[o])[o] else parent[o]
  }

  ghost function Store(coins: map<OutPoint, Coin>, child: map<OutPoint, Entry>): map<OutPoint, Coin> {
    map o | o in coins.Keys + child.Keys
            && (o in child ==> o in StoreEntry(coins, o, child[o])) ::
      if o in child then StoreEntry(coins, o, child[o])[o] else coins[o]
  }

  ghost predicate BatchThrows(v: View, child: map<OutPoint, Entry>) {
    v.Cache? && exists o :: o in child && Misapplied(v.entries, o, child[o])
  }

  ghost function BatchWrite(v: View, child: map<OutPoint, Entry>, best: nat): View {
    match v
    case Database(coins, _) => Database(Store(coins, child), best)
    case Cache(entries, _, base) => Cache(Merge(entries, child), best, base)
  }

  ghost function Flush(v: View): View
    requires v.Cache?
  {
    Cache(map[], v.best, BatchWrite(v.base, v.entries, v.best))
  }

  // ----- the flat map, outpoint by outpoint ------------------------------------

  lemma FlatAt(v: View, o: OutPoint)
    requires v.Cache?
    ensures At(Flat(v), o) == if o !in v.entries then At(Flat(v.base), o)
                              else if v.entries[o].coin.IsSpent() then None else Some(v.entries[o].coin)
  {
  }

  lemma SameMap(a: Utxo, b: Utxo)
    requires forall o :: At(a, o) == At(b, o)
    ensures a == b
  {
    forall o ensures o in a <==> o in b {
      assert At(a, o) == At(b, o);
    }
    forall o | o in a && o in b ensures a[o] == b[o] {
      assert At(a, o) == At(b, o);
    }
  }

  // ----- reads ----------------------------------------------------------------

  /** A lookup returns exactly what the flat map holds. */
  lemma {:induction false} ReadIsFlat(v: View, o: OutPoint)
    ensures v.Cache? ==> Read(v, o) == At(Flat(v), o)
    ensures v.Database? ==> At(Flat(v), o) == Unspent(Read(v, o))
  {
    if v.Cache? { ReadIsFlat(v.base, o); }
  }

  lemma FetchFlat(v: View, o: OutPoint)
    requires v.Cache? && Flat(Fetch(v.base, o)) == Flat(v.base)
    ensures Flat(Fetch(v, o)) == Flat(v)
  {
    var w := Fetch(v, o);
    ReadIsFlat(v.base, o);
    forall p ensures At(Flat(w), p) == At(Flat(v), p) {
      FlatAt(v, p);
      FlatAt(w, p);
    }
    SameMap(Flat(w), Flat(v));
  }

  /** Filling the caches changes no layer's meaning and breaks no flag. */
  lemma {:induction false} FetchKeeps(v: View, o: OutPoint)
    requires Coherent(v)
    ensures Coherent(Fetch(v, o)) && Layers(Fetch(v, o)) == Layers(v) && Best(Fetch(v, o)) == Best(v)
  {
    if v.Cache? {
      FetchKeeps(v.base, o);
      ReadIsFlat(v.base, o);
      assert Flat(Fetch(v.base, o)) == Layers(Fetch(v.base, o))[0] == Flat(v.base);
      FetchFlat(v, o);
    }
  }

  // ----- updates ----------------------------------------------------------------

  lemma AddKeeps(v: View, o: OutPoint, c: Coin, overwrite: bool)
    requires v.Cache? && Coherent(v) && !c.IsSpent()
    requires c.IsUnspendable() || overwrite || o !in Flat(v)
    ensures !AddThrows(v, o, c, overwrite)
    ensures Coherent(Add(v, o, c, overwrite)) && Add(v, o, c, overwrite).base == v.base
    ensures Flat(Add(v, o, c, overwrite)) == if c.IsUnspendable() then Flat(v) else Flat(v)[o := c]
  {
    FlatAt(v, o);
    if !c.IsUnspendable() {
      var w := Add(v, o, c, overwrite);
      forall p ensures At(Flat(w), p) == At(Flat(v)[o := c], p) {
        FlatAt(v, p);
        FlatAt(w, p);
      }
      SameMap(Flat(w), Flat(v)[o := c]);
    }
  }

  /**
   * Without the overwrite flag AddCoin looks only at the cache, so the FRESH
   * flag it sets is right exactly when the cache has an entry or the layers
   * below have no unspent coin.
   */
  lemma AddKeepsFlagsIff(v: View, o: OutPoint, c: Coin)
    requires v.Cache? && Coherent(v) && !c.IsSpent() && !c.IsUnspendable()
    requires !AddThrows(v, o, c, false)
    ensures Coherent(Add(v, o, c, false)) <==> o in v.entries || o !in Flat(v.base)
  {
    var w := Add(v, o, c, false);
    assert o in w.entries && w.base == v.base;
    if o !in v.entries && o in Flat(v.base) {
      assert w.entries[o].isFresh;
      assert !EntryOk(w.entries[o], At(Flat(w.base), o));
    } else {
      forall p | p in w.entries ensures EntryOk(w.entries[p], At(Flat(w.base), p)) {
        if p != o { assert p in v.entries; }
      }
    }
  }

  /**
   * In the failing case the damage is visible: spending the coin just added
   * brings the old coin below back to life, and flushing instead throws
   * whenever the base cache holds that old coin.
   */
  lemma MisappliedFreshResurrects(v: View, o: OutPoint, c: Coin)
    requires v.Cache? && Coherent(v) && !c.IsSpent() && !c.IsUnspendable()
    requires o !in v.entries && o in Flat(v.base)
    ensures var w := Add(v, o, c, false);
            && At(Flat(Spend(w, o)), o) == At(Flat(v), o) != None
            && (v.base.Cache? && o in v.base.entries ==> BatchThrows(w.base, w.entries))
  {
    var w := Add(v, o, c, false);
    assert w.entries[o] == Entry(c, true, true);
    assert Fetch(w, o) == w;
    if v.base.Cache? && o in v.base.entries {
      assert Misapplied(w.base.entries, o, w.entries[o]);
    }
  }

  lemma EraseKeeps(f: View, o: OutPoint)
    requires f.Cache? && Coherent(f) && (o !in f.entries ==> o !in Flat(f))
    ensures Coherent(Erase(f, o)) && Flat(Erase(f, o)) == Flat(f) - {o}
  {
    var w := Erase(f, o);
    forall p ensures At(Flat(w), p) == At(Flat(f) - {o}, p) {
      FlatAt(f, p);
      FlatAt(w, p);
    }
    SameMap(Flat(w), Flat(f) - {o});
  }

  lemma EraseLayers(f: View, o: OutPoint)
    requires f.Cache? && Coherent(f) && (o !in f.entries ==> o !in Flat(f))
    ensures Coherent(Erase(f, o)) && Layers(Erase(f, o)) == Layers(f)[0 := Flat(f) - {o}]
  {
    EraseKeeps(f, o);
  }

  lemma FetchMiss(v: View, o: OutPoint)
    requires v.Cache? && o !in Fetch(v, o).entries
    ensures o !in Flat(v)
  {
    ReadIsFlat(v.base, o);
    FlatAt(v, o);
  }

  lemma SpendKeeps(v: View, o: OutPoint)
    requires v.Cache? && Coherent(v)
    ensures Coherent(Spend(v, o)) && Layers(Spend(v, o)) == Layers(v)[0 := Flat(v) - {o}]
  {
    FetchKeeps(v, o);
    if o !in Fetch(v, o).entries { FetchMiss(v, o); }
    EraseLayers(Fetch(v, o), o);
  }

  lemma UncacheKeeps(v: View, o: OutPoint)
    requires v.Cache? && Coherent(v)
    ensures var w := Uncache(v, o); Coherent(w) && w.Cache? && w.base == v.base && Flat(w) == Flat(v)
  {
    assert Flat(Uncache(v, o)) == Flat(v);
  }

  // ----- flush ------------------------------------------------------------------

  /** One child entry against one parent entry: the flags survive and the meaning moves down. */
  lemma MergeAt(parent: map<OutPoint, Entry>, below: Option<Coin>, o: OutPoint, e: Entry)
    requires o in parent ==> EntryOk(parent[o], below)
    requires var seen := if o !in parent then below
                         else if parent[o].coin.IsSpent() then None else Some(parent[o].coin);
             EntryOk(e, seen)
    ensures !Misapplied(parent, o, e)
    ensures var m := MergeEntry(parent, o, e);
            && (o in m ==> EntryOk(m[o], below))
            && (if o !in m then below else if m[o].coin.IsSpent() then None else Some(m[o].coin))
               == if e.coin.IsSpent() then None else Some(e.coin)
  {
  }

  lemma BatchWriteCache(v: View, child: map<OutPoint, Entry>, best: nat)
    requires v.Cache? && Coherent(v)
    requires forall o :: o in child ==> EntryOk(child[o], At(Flat(v), o))
    ensures !BatchThrows(v, child)
    ensures var w := BatchWrite(v, child, best); Coherent(w) && w.base == v.base
    ensures Flat(BatchWrite(v, child, best)) == Flat(Cache(child, best, v))
  {
    var w := BatchWrite(v, child, best);
    forall o
      ensures o in child ==> !Misapplied(v.entries, o, child[o])
      ensures o in w.entries ==> EntryOk(w.entries[o], At(Flat(w.base), o))
      ensures At(Flat(w), o) == At(Flat(Cache(child, best, v)), o)
    {
      FlatAt(v, o);
      FlatAt(w, o);
      FlatAt(Cache(child, best, v), o);
      if o in child {
        MergeAt(v.entries, At(Flat(v.base), o), o, child[o]);
      }
    }
    SameMap(Flat(w), Flat(Cache(child, best, v)));
  }

  lemma BatchWriteDatabase(v: View, child: map<OutPoint, Entry>, best: nat)
    requires v.Database?
    requires forall o :: o in child ==> EntryOk(child[o], At(Flat(v), o))
    ensures Flat(BatchWrite(v, child, best)) == Flat(Cache(child, best, v))
  {
    var w := BatchWrite(v, child, best);
    forall o ensures At(Flat(w), o) == At(Flat(Cache(child, best, v)), o) {
      FlatAt(Cache(child, best, v), o);
      if o in child { assert EntryOk(child[o], At(Flat(v), o)); }
    }
    SameMap(Flat(w), Flat(Cache(child, best, v)));
  }

  /**
   * A flush never throws, leaves the top view unchanged and makes the base
   * view equal to it, whatever the depth of the stack.
   */
  lemma FlushKeeps(v: View)
    requires v.Cache? && Coherent(v)
    ensures !BatchThrows(v.base, v.entries)
    ensures Coherent(Flush(v))
    ensures Flat(Flush(v)) == Flat(v) && Flat(Flush(v).base) == Flat(v)
    ensures Layers(Flush(v)) == Layers(v)[1 := Flat(v)]
  {
    var w := BatchWrite(v.base, v.entries, v.best);
    assert v == Cache(v.entries, v.best, v.base);
    if v.base.Cache? {
      BatchWriteCache(v.base, v.entries, v.best);
      assert Layers(w) == [Flat(w)] + Layers(v.base.base);
    } else {
      BatchWriteDatabase(v.base, v.entries, v.best);
    }
    EmptyCache(w, v.best);
  }

  lemma EmptyCache(v: View, best: nat)
    ensures Flat(Cache(map[], best, v)) == Flat(v)
    ensures Coherent(v) ==> Coherent(Cache(map[], best, v))
  {
    forall o ensures At(Flat(Cache(map[], best, v)), o) == At(Flat(v), o) {
      FlatAt(Cache(map[], best, v), o);
    }
    SameMap(Flat(Cache(map[], best, v)), Flat(v));
  }

  /**
   * The best block is different: the hash is handed down as it is, so a flush
   * that finds it still null makes the base forget its own.  The block is kept
   * exactly when the cache has one or the base's own agrees with the layer below.
   */
  lemma FlushKeepsBestIff(v: View)
    requires v.Cache? && v.base.Cache?
    ensures Best(Flush(v)) == Best(v) <==> v.best != 0 || Best(v.base) == Best(v.base.base)
  {
    assert Flush(v).base.base == v.base.base;
  }

  // ----- what each operation leaves in the cache -------------------------------------

  /** Equal at every other outpoint. */
  ghost predicate SameElsewhere(a: map<OutPoint, Entry>, b: map<OutPoint, Entry>, o: OutPoint) {
    forall p :: p != o ==> (p in a <==> p in b) && (p in a && p in b ==> a[p] == b[p])
  }

  /** HaveCoinInCache. */
  predicate HaveInCache(v: View, o: OutPoint) {
    v.Cache? && o in v.entries && !v.entries[o].coin.IsSpent()
  }

  /** A lookup that misses leaves the coin found below in every cache it passes, clean, and FRESH only if it is spent. */
  lemma {:induction false} FetchLeaves(v: View, o: OutPoint)
    requires v.Cache?
    ensures var w := Fetch(v, o);
            && w.Cache? && w.best == v.best && SameElsewhere(v.entries, w.entries, o)
            && (o in v.entries ==> w == v)
            && (o !in v.entries ==> w.base == Fetch(v.base, o))
            && (o in w.entries <==> o in v.entries || Read(v.base, o).Some?)
            && (o !in v.entries && o in w.entries ==>
                  && w.entries[o].coin == Read(v.base, o).value && !w.entries[o].isDirty
                  && (w.entries[o].isFresh <==> w.entries[o].coin.IsSpent()))
    ensures Fetch(Fetch(v, o), o) == Fetch(v, o)
  {
    FetchTwice(v, o);
  }

  lemma {:induction false} FetchTwice(v: View, o: OutPoint)
    ensures Read(Fetch(v, o), o) == Read(v, o) && Fetch(Fetch(v, o), o) == Fetch(v, o)
  {
    if v.Cache? { FetchTwice(v.base, o); }
  }

  /** An added coin is DIRTY; it is FRESH if the entry was, or if nothing is to be overwritten and no change is pending. */
  lemma AddLeaves(v: View, o: OutPoint, c: Coin, overwrite: bool)
    requires v.Cache? && !c.IsSpent() && !c.IsUnspendable() && !AddThrows(v, o, c, overwrite)
    ensures var w := Add(v, o, c, overwrite);
            && w.Cache? && w.best == v.best && w.base == v.base && SameElsewhere(v.entries, w.entries, o)
            && o in w.entries && w.entries[o].coin == c && w.entries[o].isDirty
            && (w.entries[o].isFresh <==>
                  (o in v.entries && v.entries[o].isFresh) || (!overwrite && (o in v.entries ==> !v.entries[o].isDirty)))
  {
  }

  /** A spent coin leaves nothing if its entry was FRESH, and otherwise a DIRTY marker for the layer below. */
  lemma SpendLeaves(v: View, o: OutPoint)
    requires v.Cache?
    ensures var f, w := Fetch(v, o), Spend(v, o);
            && w.Cache? && w.best == v.best && w.base == f.base && SameElsewhere(v.entries, w.entries, o)
            && (o in w.entries <==> o in f.entries && !f.entries[o].isFresh)
            && (o in w.entries ==> w.entries[o].coin.IsSpent() && w.entries[o].isDirty && !w.entries[o].isFresh)
  {
    FetchLeaves(v, o);
  }

  /** Uncaching removes the entry unless a flag says that the layer below does not have it. */
  lemma UncacheLeaves(v: View, o: OutPoint)
    requires v.Cache?
    ensures var w := Uncache(v, o);
            && w.Cache? && w.best == v.best && w.base == v.base && SameElsewhere(v.entries, w.entries, o)
            && (o in w.entries <==> o in v.entries && (v.entries[o].isDirty || v.entries[o].isFresh))
            && (o in w.entries ==> w.entries[o] == v.entries[o])
            && (HaveInCache(w, o) <==> HaveInCache(v, o) && (v.entries[o].isDirty || v.entries[o].isFresh))
  {
  }

  /** So it undoes what a lookup of an unspent coin put into the cache. */
  lemma UncacheUndoesFetch(v: View, o: OutPoint)
    requires v.Cache? && o !in v.entries
    ensures Uncache(Fetch(v, o), o).entries == v.entries <==> Read(v.base, o).None? || !Read(v.base, o).value.IsSpent()
  {
    FetchLeaves(v, o);
    UncacheLeaves(Fetch(v, o), o);
    var w := Uncache(Fetch(v, o), o);
    if Read(v.base, o).None? || !Read(v.base, o).value.IsSpent() {
      assert forall p :: p in w.entries <==> p in v.entries;
    }
  }

  /** What a merge leaves at one outpoint: nothing for a coin the layer below never had, and FRESH is inherited. */
  lemma MergeLeaves(parent: map<OutPoint, Entry>, child: map<OutPoint, Entry>, o: OutPoint)
    ensures var m := Merge(parent, child);
            var written := o in child && child[o].isDirty;
            && (!written ==> (o in m <==> o in parent) && (o in m ==> m[o] == parent[o]))
            && (written ==>
                  (o in m <==> !child[o].coin.IsSpent() || if o in parent then !parent[o].isFresh else !child[o].isFresh))
            && (written && o in m ==>
                  && m[o].coin == child[o].coin && m[o].isDirty
                  && (m[o].isFresh <==> if o in parent then parent[o].isFresh else child[o].isFresh))
  {
  }

  /** What a write leaves in the database at one outpoint. */
  lemma StoreLeaves(coins: map<OutPoint, Coin>, child: map<OutPoint, Entry>, o: OutPoint)
    ensures var m := Store(coins, child);
            var written := o in child && child[o].isDirty;
            && (o in m <==> if written then !child[o].coin.IsSpent() else o in coins)
            && (o in m ==> m[o] == if written then child[o].coin else coins[o])
  {
  }

  /**
   * A coin that is added and spent again leaves no trace: not in the cache, and
   * if it was flushed in between, not in the cache below once the spend is
   * flushed too.
   */
  lemma ShortLivedLeavesNothing(v: View, o: OutPoint, c: Coin)
    requires v.Cache? && o !in v.entries && !c.IsSpent() && !c.IsUnspendable()
    ensures Spend(Add(v, o, c, false), o) == v
    ensures v.base.Cache? && o !in v.base.entries ==>
              var f := Flush(Add(v, o, c, false));
              && f.base.Cache? && o in f.base.entries && f.base.entries[o] == Entry(c, true, true)
              && Flush(Spend(f, o)).base.Cache? && o !in Flush(Spend(f, o)).base.entries
  {
    var w := Add(v, o, c, false);
    AddLeaves(v, o, c, false);
    assert Fetch(w, o) == w;
    assert w.entries - {o} == v.entries;
    if v.base.Cache? && o !in v.base.entries {
      var f := Flush(w);
      MergeLeaves(v.base.entries, w.entries, o);
      assert f.base.entries[o] == Entry(c, true, true);
      assert Read(f.base, o) == Some(c);
      SpendLeaves(f, o);
      FetchLeaves(f, o);
      assert Fetch(f.base, o) == f.base;
      MergeLeaves(f.base.entries, Spend(f, o).entries, o);
    }
  }

  // ----- whole runs ---------------------------------------------------------------

  datatype Op =
    | Lookup(o: OutPoint)
    | AddCoin(o: OutPoint, c: Coin, overwrite: bool)
    | SpendCoin(o: OutPoint)
    | UncacheCoin(o: OutPoint)
    | FlushTop
    | OpenCache
    | DiscardCache

  /** The same run on a stack of plain maps. */
  ghost predicate Legal(s: seq<Utxo>, op: Op) {
    match op
    case Lookup(_) => |s| >= 2
    case AddCoin(o, c, overwrite) =>
      |s| >= 2 && !c.IsSpent() && (c.IsUnspendable() || overwrite || o !in s[0])
    case SpendCoin(_) => |s| >= 2
    case UncacheCoin(_) => |s| >= 2
    case FlushTop => |s| >= 2
    case OpenCache => |s| >= 1
    case DiscardCache => |s| >= 2
  }

  ghost function FlatStep(s: seq<Utxo>, op: Op): seq<Utxo>
    requires Legal(s, op)
  {
    match op
    case Lookup(_) => s
    case AddCoin(o, c, _) => if c.IsUnspendable() then s else s[0 := s[0][o := c]]
    case SpendCoin(o) => s[0 := s[0] - {o}]
    case UncacheCoin(_) => s
    case FlushTop => s[1 := s[0]]
    case OpenCache => [s[0]] + s
    case DiscardCache => s[1..]
  }

  ghost function Step(v: View, op: Op): View
    requires Coherent(v) && Legal(Layers(v), op)
  {
    match op
    case Lookup(o) => Fetch(v, o)
    case AddCoin(o, c, overwrite) => AddKeeps(v, o, c, overwrite); Add(v, o, c, overwrite)
    case SpendCoin(o) => Spend(v, o)
    case UncacheCoin(o) => Uncache(v, o)
    case FlushTop => Flush(v)
    case OpenCache => Cache(map[], 0, v)
    case DiscardCache => v.base
  }

  lemma StepRefines(v: View, op: Op)
    requires Coherent(v) && Legal(Layers(v), op)
    ensures Coherent(Step(v, op)) && Layers(Step(v, op)) == FlatStep(Layers(v), op)
  {
    match op
    case Lookup(o) => FetchKeeps(v, o);
    case AddCoin(o, c, overwrite) => AddKeeps(v, o, c, overwrite);
    case SpendCoin(o) => SpendKeeps(v, o);
    case UncacheCoin(o) => UncacheKeeps(v, o);
    case FlushTop => FlushKeeps(v);
    case OpenCache => EmptyCache(v, 0);
    case DiscardCache =>
  }

  ghost predicate LegalRun(s: seq<Utxo>, ops: seq<Op>)
    decreases |ops|
  {
    ops == [] || (Legal(s, ops[0]) && LegalRun(FlatStep(s, ops[0]), ops[1..]))
  }

  ghost function FlatRun(s: seq<Utxo>, ops: seq<Op>): seq<Utxo>
    requires LegalRun(s, ops)
    decreases |ops|
  {
    if ops == [] then s else FlatRun(FlatStep(s, ops[0]), ops[1..])
  }

  ghost predicate Runs(v: View, ops: seq<Op>, w: View)
    decreases |ops|
  {
    if ops == [] then v == w
    else Coherent(v) && Legal(Layers(v), ops[0]) && Runs(Step(v, ops[0]), ops[1..], w)
  }

  /**
   * Any stack of caches, any run of operations: the run goes through, every
   * layer equals the corresponding plain map, and every lookup afterwards
   * returns what the top map holds.
   */
  lemma {:induction false} RunRefines(v: View, ops: seq<Op>) returns (w: View)
    requires Coherent(v) && LegalRun(Layers(v), ops)
    ensures Runs(v, ops, w)
    ensures Coherent(w) && Layers(w) == FlatRun(Layers(v), ops)
    ensures w.Cache? ==> forall o :: Read(w, o) == At(FlatRun(Layers(v), ops)[0], o)
    decreases |ops|
  {
    if ops == [] {
      w := v;
      forall o ensures w.Cache? ==> Read(w, o) == At(Flat(w), o) { ReadIsFlat(w, o); }
    } else {
      StepRefines(v, ops[0]);
      w := RunRefines(Step(v, ops[0]), ops[1..]);
    }
  }
}
