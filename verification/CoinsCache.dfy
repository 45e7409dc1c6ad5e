/**
 * The cache objects themselves.  Every method is proved against the function of
 * the same purpose in CoinsView, so the results there hold of the objects; on
 * top of that the running memory total of each cache is kept exact.
 */
module CoinsCache {
  import opened CoinsView

  // ----- memory accounting --------------------------------------------------

  /** Scripts of up to 28 bytes are stored inline; longer ones are allocated. */
  function Usage(c: Coin): nat {
    if |c.script| <= 28 then 0 else (|c.script| + 31) / 16 * 16
  }

  ghost function Total(m: map<OutPoint, Entry>): int {
    if m == map[] then 0
    else
      var o :| o in m;
      Usage(m[o].coin) + Total(m - {o})
  }

  lemma {:induction false} TotalSplit(m: map<OutPoint, Entry>, o: OutPoint)
    requires o in m
    ensures Total(m) == Usage(m[o].coin) + Total(m - {o})
  {
    var p :| p in m && Total(m) == Usage(m[p].coin) + Total(m - {p});
    if p != o {
      TotalSplit(m - {p}, o);
      TotalSplit(m - {o}, p);
      assert m - {p} - {o} == m - {o} - {p};
    }
  }

  lemma TotalUpdate(m: map<OutPoint, Entry>, o: OutPoint, e: Entry)
    ensures Total(m[o := e]) == Total(m - {o}) + Usage(e.coin)
    ensures o !in m ==> m - {o} == m
  {
    TotalSplit(m[o := e], o);
    assert m[o := e] - {o} == m - {o};
  }

  // ----- writing a batch, entry by entry ---------------------------------------

  ghost function Get<V>(m: map<OutPoint, V>, o: OutPoint): Option<V> {
    if o in m then Some(m[o]) else None
  }

  /** The child entries outside todo have been written, the others not. */
  ghost predicate Merged(was: map<OutPoint, Entry>, child: map<OutPoint, Entry>,
                         todo: set<OutPoint>, now: map<OutPoint, Entry>) {
    forall o :: Get(now, o) ==
      if o in child && o !in todo then Get(MergeEntry(was, o, child[o]), o) else Get(was, o)
  }

  /** A merge that stopped: what is left is as it was, holds a misapplied entry, and the rest is merged. */
  ghost predicate Interrupted(was: map<OutPoint, Entry>, child: map<OutPoint, Entry>,
                              left: map<OutPoint, Entry>, now: map<OutPoint, Entry>) {
    && left.Keys <= child.Keys && (forall o :: o in left ==> left[o] == child[o])
    && Merged(was, child, left.Keys, now)
    && exists o :: o in left && Misapplied(was, o, child[o])
  }

  lemma MergedStep(was: map<OutPoint, Entry>, child: map<OutPoint, Entry>, todo: set<OutPoint>,
                   now: map<OutPoint, Entry>, o: OutPoint)
    requires Merged(was, child, todo, now) && o in todo && o in child
    ensures Misapplied(now, o, child[o]) == Misapplied(was, o, child[o])
    ensures Merged(was, child, todo - {o}, MergeEntry(now, o, child[o]))
  {
    assert Get(now, o) == Get(was, o);
    var w := MergeEntry(now, o, child[o]);
    forall p ensures Get(w, p) ==
      if p in child && p !in todo - {o} then Get(MergeEntry(was, p, child[p]), p) else Get(was, p)
    {
      if p != o {
        assert Get(w, p) == Get(now, p);
      }
    }
  }

  lemma MergedAll(was: map<OutPoint, Entry>, child: map<OutPoint, Entry>, now: map<OutPoint, Entry>)
    requires Merged(was, child, {}, now)
    ensures now == Merge(was, child)
  {
    var m := Merge(was, child);
    forall o ensures Get(m, o) == Get(now, o) {
      assert o !in child ==> Get(now, o) == Get(was, o);
    }
    forall o ensures o in m <==> o in now { assert Get(m, o) == Get(now, o); }
    forall o | o in m && o in now ensures m[o] == now[o] { assert Get(m, o) == Get(now, o); }
  }

  ghost predicate Stored(was: map<OutPoint, Coin>, child: map<OutPoint, Entry>,
                         todo: set<OutPoint>, now: map<OutPoint, Coin>) {
    forall o :: Get(now, o) ==
      if o in child && o !in todo then Get(StoreEntry(was, o, child[o]), o) else Get(was, o)
  }

  lemma StoredStep(was: map<OutPoint, Coin>, child: map<OutPoint, Entry>, todo: set<OutPoint>,
                   now: map<OutPoint, Coin>, o: OutPoint)
    requires Stored(was, child, todo, now) && o in todo && o in child
    ensures Stored(was, child, todo - {o}, StoreEntry(now, o, child[o]))
  {
    assert Get(now, o) == Get(was, o);
    var w := StoreEntry(now, o, child[o]);
    forall p ensures Get(w, p) ==
      if p in child && p !in todo - {o} then Get(StoreEntry(was, p, child[p]), p) else Get(was, p)
    {
      if p != o {
        assert Get(w, p) == Get(now, p);
      }
    }
  }

  lemma StoredAll(was: map<OutPoint, Coin>, child: map<OutPoint, Entry>, now: map<OutPoint, Coin>)
    requires Stored(was, child, {}, now)
    ensures now == Store(was, child)
  {
    var m := Store(was, child);
    forall o ensures Get(m, o) == Get(now, o) {
      assert o !in child ==> Get(now, o) == Get(was, o);
    }
    forall o ensures o in m <==> o in now { assert Get(m, o) == Get(now, o); }
    forall o | o in m && o in now ensures m[o] == now[o] { assert Get(m, o) == Get(now, o); }
  }

  // ----- the database ----------------------------------------------------------

  class CoinsDb {
    var coins: map<OutPoint, Coin>
    var best: nat

    constructor (coins: map<OutPoint, Coin>, best: nat)
      ensures Value() == Database(coins, best)
    {
      this.coins, this.best := coins, best;
    }

    ghost function Value(): View
      reads this
    {
      Database(coins, best)
    }

    method BatchWrite(child: map<OutPoint, Entry>, hash: nat)
      requires hash != 0
      modifies this
      ensures Value() == CoinsView.BatchWrite(old(Value()), child, hash)
    {
      var todo := child;
      while todo != map[]
        invariant todo.Keys <= child.Keys && forall o :: o in todo ==> todo[o] == child[o]
        invariant Stored(old(coins), child, todo.Keys, coins)
        decreases |todo.Keys|
      {
        var o :| o in todo;
        StoredStep(old(coins), child, todo.Keys, coins, o);
        assert (todo - {o}).Keys == todo.Keys - {o};
        coins := StoreEntry(coins, o, todo[o]);
        todo := todo - {o};
      }
      best := hash;
      StoredAll(old(coins), child, coins);
    }
  }

  // ----- a cache ---------------------------------------------------------------

  class CoinsCache {
    /** Exactly one of these is the view below. */
    const base: CoinsCache?
    const db: CoinsDb
    ghost const Repr: set<object>

    var entries: map<OutPoint, Entry>
    var best: nat
    var usage: int

    /** The stack below is a finite chain of distinct objects. */
    ghost predicate Linked()
      decreases Repr
    {
      this in Repr && db in Repr &&
      if base == null then Repr == {this, db}
      else base.db == db && this !in base.Repr && Repr == {this} + base.Repr && base.Linked()
    }

    ghost predicate Accounted()
      reads Repr
      requires Linked()
      decreases Repr
    {
      usage == Total(entries) && (base != null ==> base.Accounted())
    }

    ghost function Value(): View
      reads Repr
      requires Linked()
      decreases Repr
    {
      Cache(entries, best, if base == null then db.Value() else base.Value())
    }

    constructor OnDatabase(db: CoinsDb)
      ensures Linked() && Accounted() && fresh(Repr - {db})
      ensures Value() == Cache(map[], 0, db.Value())
    {
      this.base, this.db, Repr := null, db, {this, db};
      entries, best, usage := map[], 0, 0;
    }

    constructor OnCache(base: CoinsCache)
      requires base.Linked() && base.Accounted()
      ensures Linked() && Accounted() && this.base == base && Repr == {this} + base.Repr
      ensures Value() == Cache(map[], 0, base.Value())
    {
      this.base, db, Repr := base, base.db, {this} + base.Repr;
      entries, best, usage := map[], 0, 0;
    }

    method FetchCoin(o: OutPoint) returns (found: bool)
      requires Linked() && Accounted()
      modifies Repr
      ensures Accounted() && Value() == Fetch(old(Value()), o)
      ensures found <==> o in entries
      decreases Repr, 0
    {
      if o in entries { return true; }
      var r: Option<Coin>;
      if base == null {
        r := if o in db.coins then Some(db.coins[o]) else None;
      } else {
        r := base.GetCoin(o);
      }
      match r
      case None => return false;
      case Some(c) =>
        TotalUpdate(entries, o, Entry(c, false, c.IsSpent()));
        entries := entries[o := Entry(c, false, c.IsSpent())];
        usage := usage + Usage(c);
        return true;
    }

    method GetCoin(o: OutPoint) returns (r: Option<Coin>)
      requires Linked() && Accounted()
      modifies Repr
      ensures Accounted() && Value() == Fetch(old(Value()), o)
      ensures r == Read(old(Value()), o)
      decreases Repr, 1
    {
      var found := FetchCoin(o);
      r := if found && !entries[o].coin.IsSpent() then Some(entries[o].coin) else None;
    }

    /** The throw leaves the total short by the entry it was about to replace. */
    method AddCoin(o: OutPoint, c: Coin, overwrite: bool) returns (thrown: bool)
      requires Linked() && Accounted() && !c.IsSpent()
      modifies this
      ensures thrown == AddThrows(old(Value()), o, c, overwrite)
      ensures !thrown ==> Accounted() && Value() == Add(old(Value()), o, c, overwrite)
      ensures thrown ==> Value() == old(Value()) && o in entries && usage == Total(entries) - Usage(entries[o].coin)
    {
      if c.IsUnspendable() { return false; }
      var inserted := o !in entries;
      var e := if inserted then Entry(ClearedCoin, false, false) else entries[o];
      var isFresh := false;
      if !inserted {
        usage := usage - Usage(e.coin);
        TotalSplit(entries, o);
      }
      if !overwrite {
        if !e.coin.IsSpent() { return true; }
        isFresh := !e.isDirty;
      }
      e := Entry(c, true, e.isFresh || isFresh);
      TotalUpdate(entries, o, e);
      entries := entries[o := e];
      usage := usage + Usage(c);
      return false;
    }

    /** The returned coin is the one that was there; the view loses exactly this outpoint. */
    method SpendCoin(o: OutPoint) returns (moveout: Option<Coin>)
      requires Linked() && Accounted()
      modifies Repr
      ensures Accounted() && Value() == Spend(old(Value()), o)
      ensures moveout == var f := Fetch(old(Value()), o).entries; if o in f then Some(f[o].coin) else None
    {
      var found := FetchCoin(o);
      if !found { return None; }
      var e := entries[o];
      TotalSplit(entries, o);
      usage := usage - Usage(e.coin);
      moveout := Some(e.coin);
      if e.isFresh {
        entries := entries - {o};
      } else {
        TotalUpdate(entries, o, Entry(ClearedCoin, true, false));
        entries := entries[o := Entry(ClearedCoin, true, false)];
      }
    }

    method UncacheCoin(o: OutPoint)
      requires Linked() && Accounted()
      modifies this
      ensures Accounted() && Value() == Uncache(old(Value()), o)
      ensures o in entries <==> o in old(entries) && (old(entries)[o].isDirty || old(entries)[o].isFresh)
      ensures usage == old(usage) - if o in old(entries) && o !in entries then Usage(old(entries)[o].coin) else 0
    {
      if o in entries && !entries[o].isDirty && !entries[o].isFresh {
        TotalSplit(entries, o);
        usage := usage - Usage(entries[o].coin);
        entries := entries - {o};
      }
    }

    method MergeOne(o: OutPoint, e: Entry) returns (thrown: bool)
      requires usage == Total(entries)
      modifies `entries, `usage
      ensures thrown == Misapplied(old(entries), o, e)
      ensures usage == Total(entries)
      ensures entries == if thrown then old(entries) else MergeEntry(old(entries), o, e)
    {
      if !e.isDirty { return false; }
      if o !in entries {
        if !(e.isFresh && e.coin.IsSpent()) {
          TotalUpdate(entries, o, Entry(e.coin, true, e.isFresh));
          entries := entries[o := Entry(e.coin, true, e.isFresh)];
          usage := usage + Usage(e.coin);
        }
      } else {
        if e.isFresh && !entries[o].coin.IsSpent() { return true; }
        TotalSplit(entries, o);
        usage := usage - Usage(entries[o].coin);
        if entries[o].isFresh && e.coin.IsSpent() {
          entries := entries - {o};
        } else {
          TotalUpdate(entries, o, Entry(e.coin, true, entries[o].isFresh));
          entries := entries[o := Entry(e.coin, true, entries[o].isFresh)];
          usage := usage + Usage(e.coin);
        }
      }
      return false;
    }

    /**
     * The child's entries are taken in any order and leave the child's map as they
     * go.  Unless one of them is misapplied the order does not matter; otherwise
     * that one and those not yet reached are left over.
     */
    method MergeAll(child: map<OutPoint, Entry>) returns (thrown: bool, left: map<OutPoint, Entry>)
      requires usage == Total(entries)
      modifies `entries, `usage
      ensures thrown <==> exists o :: o in child && Misapplied(old(entries), o, child[o])
      ensures usage == Total(entries)
      ensures !thrown ==> entries == Merge(old(entries), child) && left == map[]
      ensures thrown ==> Interrupted(old(entries), child, left, entries)
    {
      left := child;
      while left != map[]
        invariant usage == Total(entries)
        invariant left.Keys <= child.Keys && forall o :: o in left ==> left[o] == child[o]
        invariant Merged(old(entries), child, left.Keys, entries)
        invariant forall o :: o in child && o !in left ==> !Misapplied(old(entries), o, child[o])
        decreases |left.Keys|
      {
        var o :| o in left;
        MergedStep(old(entries), child, left.Keys, entries, o);
        assert (left - {o}).Keys == left.Keys - {o};
        thrown := MergeOne(o, left[o]);
        if thrown { return; }
        left := left - {o};
      }
      MergedAll(old(entries), child, entries);
      thrown := false;
    }

    method BatchWrite(child: map<OutPoint, Entry>, hash: nat) returns (thrown: bool, left: map<OutPoint, Entry>)
      requires Linked() && Accounted()
      modifies this
      ensures thrown == BatchThrows(old(Value()), child)
      ensures Accounted()
      ensures !thrown ==> Value() == CoinsView.BatchWrite(old(Value()), child, hash) && left == map[]
      ensures thrown ==> best == old(best) && Interrupted(old(entries), child, left, entries)
    {
      thrown, left := MergeAll(child);
      if !thrown {
        best := hash;
      }
    }

    /**
     * From a coherent stack a flush cannot throw.  Otherwise the exception leaves
     * the flush half done: the base has some of the entries, this cache keeps the
     * others, and its usage counter still counts all of them.
     */
    method FlushTop() returns (thrown: bool)
      requires Linked() && Accounted()
      requires base == null ==> best != 0
      modifies Repr
      ensures thrown == BatchThrows(old(Value()).base, old(entries))
      ensures old(Coherent(Value())) ==> !thrown && Coherent(Value())
      ensures !thrown ==> Accounted() && Value() == Flush(old(Value()))
      ensures thrown ==> base != null && best == old(best) && usage == old(usage) && base.best == old(base.best)
      ensures thrown ==> base.Accounted() && Interrupted(old(base.entries), old(entries), entries, base.entries)
    {
      hide Coherent, Merged, Merge, Misapplied;
      ghost var v := Value();
      if Coherent(v) { FlushKeeps(v); }
      if base == null {
        db.BatchWrite(entries, best);
        thrown := false;
      } else {
        var left;
        thrown, left := base.BatchWrite(entries, best);
        if thrown {
          entries := left;
          return;
        }
      }
      entries, usage := map[], 0;
    }

    method GetBestBlock() returns (hash: nat)
      requires Linked() && Accounted()
      modifies Repr
      ensures Accounted() && hash == Best(old(Value())) == Best(Value()) && best == hash
      ensures entries == old(entries) && Layers(Value()) == old(Layers(Value()))
      ensures old(Coherent(Value())) ==> Coherent(Value())
      decreases Repr
    {
      if best == 0 {
        if base == null {
          best := db.best;
        } else {
          best := base.GetBestBlock();
        }
      }
      hash := best;
    }
  }

  // ----- all outputs of a transaction ------------------------------------------

  /** The flat map once the spendable outputs from index n on are in it. */
  ghost function WithOutputs(m: Utxo, txid: nat, outs: seq<Coin>, n: nat): Utxo
    requires n <= |outs|
    decreases |outs| - n
  {
    if n == |outs| then m
    else WithOutputs(if outs[n].IsUnspendable() then m else m[OutPoint(txid, n) := outs[n]], txid, outs, n + 1)
  }

  lemma AddLayers(v: View, o: OutPoint, c: Coin, overwrite: bool)
    requires v.Cache? && Coherent(v) && !c.IsSpent()
    requires c.IsUnspendable() || overwrite || o !in Layers(v)[0]
    ensures !AddThrows(v, o, c, overwrite)
    ensures Coherent(Add(v, o, c, overwrite))
    ensures Layers(Add(v, o, c, overwrite)) == if c.IsUnspendable() then Layers(v) else Layers(v)[0 := Layers(v)[0][o := c]]
  {
    AddKeeps(v, o, c, overwrite);
  }

  method AddOutput(cache: CoinsCache, o: OutPoint, c: Coin, coinBase: bool, check: bool)
    requires cache.Linked() && cache.Accounted() && Coherent(cache.Value()) && !c.IsSpent()
    requires check || coinBase || o !in Flat(cache.Value())
    modifies cache.Repr
    ensures cache.Accounted() && Coherent(cache.Value())
    ensures Layers(cache.Value()) ==
      if c.IsUnspendable() then old(Layers(cache.Value()))
      else old(Layers(cache.Value()))[0 := old(Flat(cache.Value()))[o := c]]
  {
    var overwrite := coinBase;
    ghost var v := cache.Value();
    if check {
      var r := cache.GetCoin(o);
      FetchKeeps(v, o);
      ReadIsFlat(v, o);
      overwrite := r.Some?;
    }
    AddLayers(cache.Value(), o, c, overwrite);
    var thrown := cache.AddCoin(o, c, overwrite);
    assert !thrown;
  }

  /**
   * When check is set the overwrite flag comes from a lookup, so AddCoins is safe
   * on every coherent stack; otherwise only a coinbase may repeat an outpoint.
   */
  method AddCoins(cache: CoinsCache, txid: nat, outs: seq<Coin>, coinBase: bool, check: bool)
    requires cache.Linked() && cache.Accounted() && Coherent(cache.Value())
    requires forall i :: 0 <= i < |outs| ==> !outs[i].IsSpent()
    requires check || coinBase || forall i :: 0 <= i < |outs| ==> OutPoint(txid, i) !in Flat(cache.Value())
    modifies cache.Repr
    ensures cache.Accounted() && Coherent(cache.Value())
    ensures Flat(cache.Value()) == WithOutputs(old(Flat(cache.Value())), txid, outs, 0)
    ensures Layers(cache.Value())[1..] == old(Layers(cache.Value()))[1..]
  {
    ghost var was := Layers(cache.Value());
    ghost var now := was;
    for i := 0 to |outs|
      invariant cache.Accounted() && Coherent(cache.Value()) && now == Layers(cache.Value())
      invariant now[1..] == was[1..]
      invariant WithOutputs(now[0], txid, outs, i) == WithOutputs(was[0], txid, outs, 0)
      invariant check || coinBase || forall j :: i <= j < |outs| ==> OutPoint(txid, j) !in now[0]
    {
      AddOutput(cache, OutPoint(txid, i), outs[i], coinBase, check);
      now := if outs[i].IsUnspendable() then now else now[0 := now[0][OutPoint(txid, i) := outs[i]]];
    }
  }
}
