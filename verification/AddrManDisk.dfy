/**
 * Saving and loading the address manager.  Only the entries' lasting fields and
 * the new table's indexes are written; everything else is rebuilt.
 */
module AddrManDisk {
  import opened AddrManState
  import opened AddrManOps
  import opened AddrManRuns
  import opened AddrMan
  import opened AddrManFile
  import Sets

  // ----- what a saved file looks like -----------------------------------------------

  /** ids holds the untried ids, then the tried ones; entry k of the file is ids[k]. */
  ghost predicate IsDump(h: Hashing, s: State, d: Disk, newIds: seq<int>, triedIds: seq<int>) {
    && Sets.Enumerates(newIds, {}, NewIds(s.info))
    && Sets.Enumerates(triedIds, {}, TriedIds(s.info))
    && d.version == 1 && d.keySize == 32 && d.key == s.key
    && d.nNew == |newIds| && d.nTried == |triedIds|
    && d.uBuckets == Flip30(h.newCount)
    && |d.newRecs| == |newIds| && |d.triedRecs| == |triedIds|
    && (forall k :: 0 <= k < |newIds| ==> newIds[k] in s.info && d.newRecs[k] == ToRecord(s.info[newIds[k]]))
    && (forall k :: 0 <= k < |triedIds| ==> triedIds[k] in s.info && d.triedRecs[k] == ToRecord(s.info[triedIds[k]]))
    && |d.buckets| == h.newCount
    && forall b :: 0 <= b < |d.buckets| ==> IsBucket(s.news, newIds, b, d.buckets[b])
  }

  /** The indexes written for a bucket are those of the ids in its slots, each once. */
  ghost predicate IsBucket(news: map<Slot, int>, newIds: seq<int>, b: nat, xs: seq<int>) {
    && (forall k :: 0 <= k < |xs| ==> 0 <= xs[k] < |newIds| && Somewhere(news, b, newIds[xs[k]]))
    && (forall j, k :: 0 <= j < k < |xs| ==> xs[j] != xs[k])
    && (forall p: nat :: (b, p) in news ==> Indexed(news, newIds, b, p, xs))
  }

  ghost predicate Somewhere(news: map<Slot, int>, b: nat, id: int) {
    exists p: nat :: HoldsAt(news, b, p, id)
  }

  ghost predicate Indexed(news: map<Slot, int>, newIds: seq<int>, b: nat, p: nat, xs: seq<int>) {
    exists x :: x in xs && HoldsIndex(news, b, p, newIds, x)
  }

  ghost predicate HoldsAt(news: map<Slot, int>, b: nat, p: nat, id: int) {
    (b, p) in news && news[(b, p)] == id
  }

  ghost predicate HoldsIndex(news: map<Slot, int>, b: nat, p: nat, newIds: seq<int>, x: int) {
    0 <= x < |newIds| && HoldsAt(news, b, p, newIds[x])
  }

  // ----- the entries come back ------------------------------------------------------

  /** Loaded entry k is the saved entry ids[k], with the fields that are not written reset. */
  ghost predicate Loaded(s: State, ids: seq<int>, g: State) {
    && g.key == s.key && g.idCount == |ids| == |g.random|
    && (forall n :: n in g.info <==> 0 <= n < |ids|)
    && (forall k :: 0 <= k < |ids| ==> ids[k] in s.info && k in g.info && Restored(s.info[ids[k]], g.info[k]))
  }

  ghost predicate Restored(was: Info, now: Info) {
    ToRecord(now) == ToRecord(was) && now.inTried == was.inTried && now.lastTry == 0 && now.lastCountAttempt == 0
  }

  ghost predicate Distinct(ids: seq<int>) {
    forall i, j :: 0 <= i < j < |ids| ==> ids[i] != ids[j]
  }

  lemma FreshAddr(h: Hashing, s: State, ids: seq<int>, g: State, id: int)
    requires AddrOk(s.info, s.byAddr, s.idCount) && AddrOk(g.info, g.byAddr, g.idCount) && Loaded(s, ids, g)
    requires id in s.info && id !in ids
    ensures s.info[id].svc.addr !in g.byAddr
  {
    var a := s.info[id].svc.addr;
    forall k | 0 <= k < |ids| ensures g.info[k].svc.addr != a {
      var e := ids[k];
      assert e in s.info && e != id;
    }
  }

  lemma LoadedExtend(s: State, ids: seq<int>, g: State, id: int, i: Info)
    requires Loaded(s, ids, g) && id in s.info && Restored(s.info[id], i)
    ensures Loaded(s, ids + [id], Register(g, i))
  {
    var t := Register(g, i);
    forall k | 0 <= k < |ids + [id]|
      ensures (ids + [id])[k] in s.info && k in t.info && Restored(s.info[(ids + [id])[k]], t.info[k])
    {
    }
  }

  lemma BlankInv(h: Hashing, d: Disk, c: set<int>)
    ensures Inv(h, Blank(d, c).(nNew := 0, nTried := 0), Blank(d, c).info.Keys, {})
  {
  }

  lemma {:induction false} NewPhase(h: Hashing, s: State, d: Disk, newIds: seq<int>, triedIds: seq<int>, c: set<int>, k: nat)
    requires Valid(h, s) && IsDump(h, s, d, newIds, triedIds) && k <= |newIds|
    ensures var g := LoadNew(h, Blank(d, c), d.newRecs[..k], true);
            && Loaded(s, newIds[..k], g)
            && Inv(h, g.(nNew := k, nTried := 0), g.info.Keys, {})
            && g == g.(nNew := d.nNew, nTried := d.nTried, news := map[], tried := map[], collisions := c, lastGood := 1)
  {
    if k == 0 {
      BlankInv(h, d, c);
    } else {
      NewPhase(h, s, d, newIds, triedIds, c, k - 1);
      assert d.newRecs[..k][..k - 1] == d.newRecs[..k - 1];
      NewPhaseStep(h, s, d, newIds, triedIds, k - 1, LoadNew(h, Blank(d, c), d.newRecs[..k - 1], true));
    }
  }

  lemma NewPhaseStep(h: Hashing, s: State, d: Disk, newIds: seq<int>, triedIds: seq<int>, k: nat, g: State)
    requires Valid(h, s) && IsDump(h, s, d, newIds, triedIds) && k < |newIds|
    requires Loaded(s, newIds[..k], g) && Inv(h, g.(nNew := k, nTried := 0), g.info.Keys, {})
    ensures var t := LoadNewOne(h, g, d.newRecs[k], true);
            && Loaded(s, newIds[..k + 1], t) && Inv(h, t.(nNew := k + 1, nTried := 0), t.info.Keys, {})
            && t == t.(key := g.key, nNew := g.nNew, nTried := g.nTried, news := g.news, tried := g.tried,
                       collisions := g.collisions, lastGood := g.lastGood)
  {
    hide AddrOk, RandomOk, NewOk, TriedOk, RefOk, CountOk, View, TablesOf, Slots, IsBucket;
    var id := newIds[k];
    DumpNew(s, newIds, k);
    var i := FromRecord(d.newRecs[k]).(randomPos := |g.random|);
    FreshAddr(h, s, newIds[..k], g, id);
    RegisterInv(h, g.(nNew := k, nTried := 0), i, g.info.Keys);
    assert g.info.Keys + {g.idCount} == Register(g, i).info.Keys;
    LoadedExtend(s, newIds[..k], g, id, i);
    assert newIds[..k + 1] == newIds[..k] + [id];
  }

  lemma DumpNew(s: State, newIds: seq<int>, k: nat)
    requires Sets.Enumerates(newIds, {}, NewIds(s.info)) && k < |newIds|
    ensures newIds[k] in s.info && !s.info[newIds[k]].inTried && newIds[k] !in newIds[..k]
  {
    var id := newIds[k];
    assert id in NewIds(s.info);
  }

  lemma DumpTried(s: State, newIds: seq<int>, triedIds: seq<int>, m: nat)
    requires Sets.Enumerates(newIds, {}, NewIds(s.info)) && Sets.Enumerates(triedIds, {}, TriedIds(s.info)) && m < |triedIds|
    ensures triedIds[m] in s.info && s.info[triedIds[m]].inTried && triedIds[m] !in newIds + triedIds[..m]
  {
    var id := triedIds[m];
    assert id in TriedIds(s.info);
    forall k | 0 <= k < |newIds| ensures newIds[k] != id {
      DumpNew(s, newIds, k);
    }
    forall x | x in newIds + triedIds[..m] ensures x != id {
      assert x in newIds || x in triedIds[..m];
    }
  }

  /** Two loaded tried entries never want the same slot, because the saved ones did not. */
  lemma NoCollision(h: Hashing, s: State, ids: seq<int>, g: State, id: int)
    requires TriedOk(h, s.key, s.info, s.tried) && TriedOk(h, g.key, g.info, g.tried) && Loaded(s, ids, g)
    requires id in s.info && s.info[id].inTried && id !in ids
    ensures TriedSlot(h, g.key, s.info[id].svc) !in g.tried
  {
    var ts := TriedSlot(h, s.key, s.info[id].svc);
    forall k | 0 <= k < |ids| && g.info[k].inTried ensures TriedSlot(h, g.key, g.info[k].svc) != ts {
      var e := ids[k];
      assert e in s.info && e != id;
    }
  }

  /** Registering an entry straight into its tried slot. */
  lemma RegisterTriedInv(h: Hashing, s: State, i: Info, loose: set<int>)
    requires Inv(h, s, loose, {}) && i.svc.addr !in s.byAddr && s.idCount >= 0
    requires i.inTried && i.refCount == 0 && i.randomPos == |s.random|
    requires TriedSlot(h, s.key, i.svc) !in s.tried
    ensures var t := Register(s, i).(tried := s.tried[TriedSlot(h, s.key, i.svc) := s.idCount], nTried := s.nTried + 1);
            Inv(h, t, loose + {s.idCount}, {})
  {
    hide AddrOk, RandomOk, NewOk, TriedOk, RefOk, CountOk, View, Slots;
    var id := s.idCount;
    RegisterInv(h, s, i.(inTried := false), loose);
    var u := Register(s, i.(inTried := false));
    UncountOne(u.info, u.nTried, u.nNew + 1, id);
    TryInv(h, u, id, loose + {id});
    var t := Register(s, i).(tried := s.tried[TriedSlot(h, s.key, i.svc) := s.idCount], nTried := s.nTried + 1);
    assert i.(inTried := false).(inTried := true) == i;
    assert Try(h, u, id).info == t.info;
    assert Try(h, u, id) == t;
    Loosen(t.info, t.news, (loose + {id}) - {id}, loose + {id});
  }

  lemma TriedPhaseStep(h: Hashing, s: State, d: Disk, newIds: seq<int>, triedIds: seq<int>, m: nat, g: State)
    requires Valid(h, s) && IsDump(h, s, d, newIds, triedIds) && m < |triedIds|
    requires Loaded(s, newIds + triedIds[..m], g) && Inv(h, g.(nNew := |newIds|, nTried := m), g.info.Keys, {})
    ensures var t := LoadTriedOne(h, g, d.triedRecs[m]);
            && Loaded(s, newIds + triedIds[..m + 1], t)
            && Inv(h, t.(nNew := |newIds|, nTried := m + 1), t.info.Keys, {})
            && t == t.(key := g.key, nNew := g.nNew, nTried := g.nTried, news := g.news,
                       collisions := g.collisions, lastGood := g.lastGood)
  {
    hide AddrOk, RandomOk, NewOk, TriedOk, RefOk, CountOk, View, TablesOf, Slots, IsBucket;
    var ids := newIds + triedIds[..m];
    var id := triedIds[m];
    DumpTried(s, newIds, triedIds, m);
    var i := FromRecord(d.triedRecs[m]).(randomPos := |g.random|, inTried := true);
    FreshAddr(h, s, ids, g, id);
    NoCollision(h, s, ids, g, id);
    RegisterTriedInv(h, g.(nNew := |newIds|, nTried := m), i, g.info.Keys);
    assert g.info.Keys + {g.idCount} == Register(g, i).info.Keys;
    LoadedExtend(s, ids, g, id, i);
    assert newIds + triedIds[..m + 1] == ids + [id];
  }

  lemma {:induction false} TriedPhase(h: Hashing, s: State, d: Disk, newIds: seq<int>, triedIds: seq<int>, g0: State, m: nat)
    requires Valid(h, s) && IsDump(h, s, d, newIds, triedIds) && m <= |triedIds|
    requires Loaded(s, newIds, g0) && Inv(h, g0.(nNew := |newIds|, nTried := 0), g0.info.Keys, {})
    ensures var g := LoadTried(h, g0, d.triedRecs[..m]);
            && Loaded(s, newIds + triedIds[..m], g)
            && Inv(h, g.(nNew := |newIds|, nTried := m), g.info.Keys, {})
            && g == g.(key := g0.key, nNew := g0.nNew, nTried := g0.nTried, news := g0.news,
                       collisions := g0.collisions, lastGood := g0.lastGood)
  {
    hide Inv, IsDump, Loaded;
    if m == 0 {
      assert newIds + triedIds[..0] == newIds;
    } else {
      TriedPhase(h, s, d, newIds, triedIds, g0, m - 1);
      DumpSizes(h, s, d, newIds, triedIds);
      assert d.triedRecs[..m][..m - 1] == d.triedRecs[..m - 1];
      TriedPhaseStep(h, s, d, newIds, triedIds, m - 1, LoadTried(h, g0, d.triedRecs[..m - 1]));
    }
  }

  lemma DumpSizes(h: Hashing, s: State, d: Disk, newIds: seq<int>, triedIds: seq<int>)
    requires IsDump(h, s, d, newIds, triedIds)
    ensures |d.newRecs| == |newIds| && |d.triedRecs| == |triedIds| && |d.buckets| == h.newCount
  {
  }

  // ----- the new table comes back -----------------------------------------------------

  /** The saved slots of buckets below b, and those of bucket b whose index is in xs. */
  ghost predicate SlotsUpTo(s: State, newIds: seq<int>, b: nat, xs: seq<int>, news: map<Slot, int>) {
    && (forall sl: Slot :: sl in news ==>
          && sl in s.news && HoldsIndex(s.news, sl.0, sl.1, newIds, IdOf(news, sl))
          && (sl.0 < b || (sl.0 == b && IdOf(news, sl) in xs)))
    && (forall sl: Slot :: sl in s.news && sl.0 < b ==> sl in news)
    && (forall sl: Slot, x: int :: sl in s.news && sl.0 == b && x in xs && HoldsIndex(s.news, sl.0, sl.1, newIds, x) ==> sl in news)
  }

  /** A loaded entry never has more references than the saved one. */
  lemma RoomLeft(h: Hashing, s: State, newIds: seq<int>, b: nat, xs: seq<int>, g: State, x: int, sl: Slot)
    requires RefOk(s.info, s.news, {}) && RefOk(g.info, g.news, g.info.Keys) && SlotsUpTo(s, newIds, b, xs, g.news)
    requires 0 <= x < |newIds| && newIds[x] in s.info && x in g.info
    requires sl in s.news && s.news[sl] == newIds[x] && sl !in g.news
    ensures g.info[x].refCount < BUCKETS_PER_ADDRESS
  {
    var id := newIds[x];
    var mine, saved := Slots(g.news, x), Slots(s.news, id);
    forall t | t in mine ensures t in saved {
      assert IdOf(g.news, t) == x;
    }
    assert mine <= saved - {sl} && sl in saved;
    SlotSubset(mine, saved - {sl});
  }

  /** Where the saved id with index x sits in bucket b. */
  lemma SlotOfIndex(h: Hashing, s: State, newIds: seq<int>, b: nat, x: int)
    requires NewOk(h, s.key, s.info, s.news) && 0 <= x < |newIds| && newIds[x] in s.info
    requires Somewhere(s.news, b, newIds[x])
    ensures var sl := NewSlotIn(h, s.key, s.info[newIds[x]].svc, b); sl in s.news && s.news[sl] == newIds[x]
    ensures forall p: nat :: HoldsAt(s.news, b, p, newIds[x]) ==> (b, p) == NewSlotIn(h, s.key, s.info[newIds[x]].svc, b)
    ensures b < h.newCount
  {
    forall p: nat | HoldsAt(s.news, b, p, newIds[x])
      ensures (b, p) == NewSlotIn(h, s.key, s.info[newIds[x]].svc, b) && b < h.newCount
    {
      var sl: Slot := (b, p);
      assert IdOf(s.news, sl) == newIds[x];
    }
  }

  lemma SlotsUpToStep(s: State, newIds: seq<int>, b: nat, xs: seq<int>, x: int, news: map<Slot, int>, sl: Slot)
    requires SlotsUpTo(s, newIds, b, xs, news) && x !in xs && sl.0 == b && sl in s.news
    requires HoldsIndex(s.news, sl.0, sl.1, newIds, x) && Distinct(newIds)
    requires forall p: nat :: HoldsAt(s.news, b, p, newIds[x]) ==> (b, p) == sl
    ensures sl !in news
    ensures SlotsUpTo(s, newIds, b, xs + [x], news[sl := x])
  {
    var now := news[sl := x];
    forall t: Slot | t in now
      ensures t in s.news && HoldsIndex(s.news, t.0, t.1, newIds, IdOf(now, t)) && (t.0 < b || (t.0 == b && IdOf(now, t) in xs + [x]))
    {
      if t != sl { assert IdOf(now, t) == IdOf(news, t); }
    }
    forall t: Slot, y: int | t in s.news && t.0 == b && y in xs + [x] && HoldsIndex(s.news, t.0, t.1, newIds, y) ensures t in now {
      if y in xs { assert t in news; } else { assert y == x && HoldsAt(s.news, b, t.1, newIds[x]); }
    }
  }

  /** What holds while the buckets are read. */
  ghost predicate Filling(h: Hashing, s: State, newIds: seq<int>, triedIds: seq<int>, b: nat, xs: seq<int>, g0: State, g: State) {
    && Loaded(s, newIds + triedIds, g)
    && Inv(h, g, g.info.Keys, {})
    && SlotsUpTo(s, newIds, b, xs, g.news)
    && g == g0.(news := g.news, info := g.info)
  }

  lemma FillingStep(h: Hashing, s: State, d: Disk, newIds: seq<int>, triedIds: seq<int>, b: nat, k: nat, g0: State, g: State)
    requires Valid(h, s) && IsDump(h, s, d, newIds, triedIds) && b < |d.buckets| && k < |d.buckets[b]|
    requires Filling(h, s, newIds, triedIds, b, d.buckets[b][..k], g0, g) && g0.nNew == |newIds|
    ensures Filling(h, s, newIds, triedIds, b, d.buckets[b][..k + 1], g0, LoadIndex(h, g, b, d.buckets[b][k], true))
  {
    hide AddrOk, RandomOk, NewOk, TriedOk, RefOk, CountOk, View, TablesOf, Slots, SlotsUpTo, HoldsAt, Somewhere, Indexed;
    var xs := d.buckets[b];
    var x := xs[k];
    assert IsBucket(s.news, newIds, b, xs);
    assert x !in xs[..k];
    assert xs[..k + 1] == xs[..k] + [x];
    DumpNew(s, newIds, x);
    SlotOfIndex(h, s, newIds, b, x);
    assert (newIds + triedIds)[x] == newIds[x];
    var sl := NewSlotIn(h, s.key, s.info[newIds[x]].svc, b);
    HoldsHere(s.news, sl, newIds, x);
    SlotsUpToStep(s, newIds, b, xs[..k], x, g.news, sl);
    RoomLeft(h, s, newIds, b, xs[..k], g, x, sl);
    RefInv(h, g, sl, x, g.info.Keys, {});
    var t := Ref(g, sl, x);
    Loosen(t.info, t.news, g.info.Keys - {x}, t.info.Keys);
    LoadedRecount(s, newIds + triedIds, g, sl, x);
  }

  lemma HoldsHere(news: map<Slot, int>, sl: Slot, newIds: seq<int>, x: int)
    requires 0 <= x < |newIds| && sl in news && news[sl] == newIds[x]
    ensures HoldsIndex(news, sl.0, sl.1, newIds, x)
  {
  }

  lemma LoadedRecount(s: State, ids: seq<int>, g: State, sl: Slot, x: int)
    requires Loaded(s, ids, g) && x in g.info
    ensures Loaded(s, ids, Ref(g, sl, x)) && Ref(g, sl, x).info.Keys == g.info.Keys
  {
  }

  lemma {:induction false} FillBucket(h: Hashing, s: State, d: Disk, newIds: seq<int>, triedIds: seq<int>, b: nat, k: nat, g0: State, g: State)
    requires Valid(h, s) && IsDump(h, s, d, newIds, triedIds) && b < |d.buckets| && k <= |d.buckets[b]|
    requires Filling(h, s, newIds, triedIds, b, [], g0, g) && g0.nNew == |newIds|
    ensures Filling(h, s, newIds, triedIds, b, d.buckets[b][..k], g0, LoadBucket(h, g, b, d.buckets[b][..k], true))
  {
    hide Inv, IsDump, Filling, LoadIndex;
    var xs := d.buckets[b];
    if k == 0 {
      assert xs[..0] == [];
    } else {
      FillBucket(h, s, d, newIds, triedIds, b, k - 1, g0, g);
      assert xs[..k][..k - 1] == xs[..k - 1];
      FillingStep(h, s, d, newIds, triedIds, b, k - 1, g0, LoadBucket(h, g, b, xs[..k - 1], true));
    }
  }

  lemma BucketSlot(s: State, newIds: seq<int>, b: nat, xs: seq<int>, news: map<Slot, int>, sl: Slot)
    requires SlotsUpTo(s, newIds, b, xs, news) && IsBucket(s.news, newIds, b, xs) && sl in s.news && sl.0 == b
    ensures sl in news
  {
    hide HoldsIndex, Somewhere;
    var p: nat := sl.1;
    assert (b, p) in s.news;
    assert Indexed(s.news, newIds, b, p, xs);
  }

  /** After all indexes of a bucket the next bucket can start. */
  lemma NextBucket(s: State, newIds: seq<int>, b: nat, xs: seq<int>, news: map<Slot, int>)
    requires SlotsUpTo(s, newIds, b, xs, news) && IsBucket(s.news, newIds, b, xs)
    ensures SlotsUpTo(s, newIds, b + 1, [], news)
  {
    hide IsBucket;
    forall sl: Slot | sl in s.news && sl.0 == b ensures sl in news {
      BucketSlot(s, newIds, b, xs, news, sl);
    }
  }

  lemma {:induction false} FillBuckets(h: Hashing, s: State, d: Disk, newIds: seq<int>, triedIds: seq<int>, b: nat, g: State)
    requires Valid(h, s) && IsDump(h, s, d, newIds, triedIds) && b <= |d.buckets|
    requires Filling(h, s, newIds, triedIds, 0, [], g, g) && g.nNew == |newIds|
    ensures Filling(h, s, newIds, triedIds, b, [], g, LoadBuckets(h, g, d.buckets[..b], true))
  {
    hide Inv, Loaded, SlotsUpTo, IsBucket;
    if b > 0 {
      FillBuckets(h, s, d, newIds, triedIds, b - 1, g);
      var t := LoadBuckets(h, g, d.buckets[..b - 1], true);
      assert d.buckets[..b][..b - 1] == d.buckets[..b - 1];
      var xs := d.buckets[b - 1];
      FillBucket(h, s, d, newIds, triedIds, b - 1, |xs|, g, t);
      assert xs[..|xs|] == xs;
      NextBucket(s, newIds, b - 1, xs, LoadBucket(h, t, b - 1, xs, true).news);
    }
  }

  // ----- the round trip ---------------------------------------------------------------

  lemma SlotsBack(s: State, newIds: seq<int>, news: map<Slot, int>, n: nat, x: nat)
    requires SlotsUpTo(s, newIds, n, [], news) && (forall sl: Slot :: sl in s.news ==> sl.0 < n)
    requires Distinct(newIds) && x < |newIds|
    ensures Slots(news, x) == Slots(s.news, newIds[x])
  {
    forall sl: Slot ensures sl in Slots(news, x) <==> sl in Slots(s.news, newIds[x]) {
      if sl in news {
        var y := IdOf(news, sl);
        assert HoldsIndex(s.news, sl.0, sl.1, newIds, y);
      }
    }
  }

  lemma RefBack(h: Hashing, s: State, newIds: seq<int>, triedIds: seq<int>, g: State, k: nat)
    requires NewOk(h, s.key, s.info, s.news) && RefOk(s.info, s.news, {}) && NewOk(h, g.key, g.info, g.news)
    requires RefOk(g.info, g.news, g.info.Keys) && Loaded(s, newIds + triedIds, g)
    requires SlotsUpTo(s, newIds, h.newCount, [], g.news) && Distinct(newIds) && k < |newIds + triedIds|
    requires forall m :: 0 <= m < |triedIds| ==> triedIds[m] in s.info && s.info[triedIds[m]].inTried
    ensures (newIds + triedIds)[k] in s.info && k in g.info
    ensures g.info[k].refCount == s.info[(newIds + triedIds)[k]].refCount
  {
    var id := (newIds + triedIds)[k];
    if k < |newIds| {
      forall sl: Slot | sl in s.news ensures sl.0 < h.newCount { }
      SlotsBack(s, newIds, g.news, h.newCount, k);
    } else {
      assert id == triedIds[k - |newIds|];
      TriedHasNone(h, s, id);
      TriedHasNone(h, g, k);
    }
  }

  /** Every untried entry is back with all its references. */
  lemma RefsBack(h: Hashing, s: State, d: Disk, newIds: seq<int>, triedIds: seq<int>, g: State)
    requires Valid(h, s) && IsDump(h, s, d, newIds, triedIds)
    requires Filling(h, s, newIds, triedIds, h.newCount, [], g, g)
    ensures forall k :: 0 <= k < |newIds + triedIds| ==>
              k in g.info && (newIds + triedIds)[k] in s.info && g.info[k].refCount == s.info[(newIds + triedIds)[k]].refCount
    ensures RefOk(g.info, g.news, {})
  {
    hide AddrOk, RandomOk, NewOk, TriedOk, CountOk, RefOk, IsBucket, SlotsUpTo, View, Slots, Loaded;
    var ids := newIds + triedIds;
    forall m | 0 <= m < |triedIds| ensures triedIds[m] in s.info && s.info[triedIds[m]].inTried {
      DumpTried(s, newIds, triedIds, m);
    }
    forall k | 0 <= k < |ids| ensures k in g.info && ids[k] in s.info && g.info[k].refCount == s.info[ids[k]].refCount {
      RefBack(h, s, newIds, triedIds, g, k);
    }
    RefsPositive(s, ids, g);
  }

  lemma RefsPositive(s: State, ids: seq<int>, g: State)
    requires Loaded(s, ids, g) && RefOk(s.info, s.news, {}) && RefOk(g.info, g.news, g.info.Keys)
    requires forall k :: 0 <= k < |ids| ==> k in g.info && ids[k] in s.info && g.info[k].refCount == s.info[ids[k]].refCount
    ensures RefOk(g.info, g.news, {})
  {
    forall n | n in g.info && !g.info[n].inTried ensures g.info[n].refCount >= 1 {
      var id := ids[n];
      assert id in s.info && !s.info[id].inTried;
    }
  }

  lemma TriedHasNone(h: Hashing, s: State, id: int)
    requires NewOk(h, s.key, s.info, s.news) && RefOk(s.info, s.news, s.info.Keys) && id in s.info && s.info[id].inTried
    ensures s.info[id].refCount == 0
  {
    UntryRefZero(h, s, id, s.info.Keys);
  }

  lemma NewsBack(h: Hashing, s: State, newIds: seq<int>, triedIds: seq<int>, g: State)
    requires NewOk(h, s.key, s.info, s.news) && NewOk(h, g.key, g.info, g.news)
    requires Loaded(s, newIds + triedIds, g) && SlotsUpTo(s, newIds, h.newCount, [], g.news)
    ensures View(g.news, g.info) == View(s.news, s.info)
  {
    forall sl: Slot | sl in g.news
      ensures sl in s.news && IdOf(s.news, sl) in s.info && PeerOf(g.info[IdOf(g.news, sl)]) == PeerOf(s.info[IdOf(s.news, sl)])
    {
      var x := IdOf(g.news, sl);
      assert (newIds + triedIds)[x] == newIds[x];
      assert IdOf(s.news, sl) == newIds[x];
    }
    forall sl: Slot | sl in s.news ensures sl in g.news && IdOf(g.news, sl) in g.info {
      assert sl.0 < h.newCount;
    }
  }

  lemma TriedBack(h: Hashing, s: State, newIds: seq<int>, triedIds: seq<int>, g: State)
    requires TriedOk(h, s.key, s.info, s.tried) && TriedOk(h, g.key, g.info, g.tried)
    requires Loaded(s, newIds + triedIds, g)
    requires Sets.Enumerates(triedIds, {}, TriedIds(s.info))
    ensures View(g.tried, g.info) == View(s.tried, s.info)
  {
    var ids := newIds + triedIds;
    forall sl: Slot | sl in g.tried
      ensures sl in s.tried && IdOf(s.tried, sl) in s.info && PeerOf(g.info[IdOf(g.tried, sl)]) == PeerOf(s.info[IdOf(s.tried, sl)])
    {
      var x := IdOf(g.tried, sl);
      var e := ids[x];
      assert e in s.info && s.info[e].inTried;
    }
    forall sl: Slot | sl in s.tried ensures sl in g.tried && IdOf(g.tried, sl) in g.info {
      var e := IdOf(s.tried, sl);
      assert e in TriedIds(s.info);
      var m :| 0 <= m < |triedIds| && triedIds[m] == e;
      var k := |newIds| + m;
      assert ids[k] == e;
      assert k in g.info && g.info[k].inTried;
    }
  }

  lemma DumpCounts(h: Hashing, s: State, d: Disk, newIds: seq<int>, triedIds: seq<int>)
    requires Valid(h, s) && IsDump(h, s, d, newIds, triedIds)
    ensures d.nNew == s.nNew && d.nTried == s.nTried
  {
    Sets.EnumerationSize(newIds, {}, NewIds(s.info));
    Sets.EnumerationSize(triedIds, {}, TriedIds(s.info));
  }

  lemma StartFilling(h: Hashing, s: State, d: Disk, newIds: seq<int>, triedIds: seq<int>, c: set<int>)
    requires Valid(h, s) && IsDump(h, s, d, newIds, triedIds)
    ensures Usable(h, d)
    ensures var g := LoadTried(h, LoadNew(h, Blank(d, c), d.newRecs, true).(idCount := d.nNew), d.triedRecs);
            && Filling(h, s, newIds, triedIds, 0, [], g, g)
            && g.nNew == |newIds| && g.nTried == |triedIds| && g.collisions == c
  {
    hide Inv, Loaded, IsBucket, SlotsUpTo, Flip30, Sets.Enumerates, LoadNew, LoadTried;
    Flip30Twice(h.newCount);
    NewPhase(h, s, d, newIds, triedIds, c, |newIds|);
    assert d.newRecs[..|newIds|] == d.newRecs && newIds[..|newIds|] == newIds;
    var g0 := LoadNew(h, Blank(d, c), d.newRecs, true);
    LoadedCount(s, newIds, g0);
    assert g0 == g0.(idCount := d.nNew);
    TriedPhase(h, s, d, newIds, triedIds, g0, |triedIds|);
    assert d.triedRecs[..|triedIds|] == d.triedRecs && triedIds[..|triedIds|] == triedIds;
    var g := LoadTried(h, g0, d.triedRecs);
    assert g == g.(nNew := |newIds|, nTried := |triedIds|);
    NoSlotsYet(s, newIds);
  }

  lemma LoadedCount(s: State, ids: seq<int>, g: State)
    requires Loaded(s, ids, g)
    ensures g.idCount == |ids|
  {
  }

  lemma NoSlotsYet(s: State, newIds: seq<int>)
    ensures SlotsUpTo(s, newIds, 0, [], map[])
  {
  }

  /**
   * Loading a saved file rebuilds the manager: the same two tables, the same
   * counters, every address with its lasting fields and its reference count,
   * and no entry lost to a collision or to pruning.  Only the ids may differ.
   */
  lemma RoundTrip(h: Hashing, s: State, d: Disk, newIds: seq<int>, triedIds: seq<int>, c: set<int>)
    requires Valid(h, s) && IsDump(h, s, d, newIds, triedIds)
    ensures var g := Load(h, d, c);
            && Valid(h, g) && TablesOf(g) == TablesOf(s) && Doomed(g) == {}
            && g.key == s.key && g.nNew == s.nNew && g.nTried == s.nTried && g.collisions == c
            && Loaded(s, newIds + triedIds, g)
            && forall k :: 0 <= k < |newIds + triedIds| ==>
                 k in g.info && (newIds + triedIds)[k] in s.info && g.info[k].refCount == s.info[(newIds + triedIds)[k]].refCount
  {
    StartFilling(h, s, d, newIds, triedIds, c);
    DumpCounts(h, s, d, newIds, triedIds);
    var g0 := LoadTried(h, LoadNew(h, Blank(d, c), d.newRecs, true).(idCount := d.nNew), d.triedRecs);
    hide AddrOk, RandomOk, NewOk, TriedOk, RefOk, CountOk, View, SlotsUpTo, Loaded, IsBucket, LoadNew, LoadTried, Sets.Enumerates;
    FillBuckets(h, s, d, newIds, triedIds, |d.buckets|, g0);
    assert d.buckets[..|d.buckets|] == d.buckets;
    var g := Load(h, d, c);
    assert Filling(h, s, newIds, triedIds, h.newCount, [], g, g);
    RefsBack(h, s, d, newIds, triedIds, g);
    NewsBack(h, s, newIds, triedIds, g);
    TriedBack(h, s, newIds, triedIds, g);
    NoneDoomed(g);
  }

  lemma NoneDoomed(g: State)
    requires RefOk(g.info, g.news, {})
    ensures Doomed(g) == {}
  {
    forall n ensures n !in Doomed(g) { }
  }

  // ----- a saved file is never rejected -------------------------------------------------

  lemma {:induction false} ColumnSize(c: set<Slot>, b: nat, m: nat)
    requires forall sl: Slot :: sl in c ==> sl.0 == b && sl.1 < m
    ensures |c| <= m
  {
    if m == 0 {
      assert forall sl: Slot :: sl !in c;
      assert c == {};
    } else {
      var top: Slot := (b, m - 1);
      ColumnSize(c - {top}, b, m - 1);
      if top in c { assert |c| == |c - {top}| + 1; } else { assert c - {top} == c; }
    }
  }

  lemma {:induction false} GridSize(c: set<Slot>, n: nat, m: nat)
    requires forall sl: Slot :: sl in c ==> sl.0 < n && sl.1 < m
    ensures |c| <= n * m
  {
    if n == 0 {
      assert forall sl: Slot :: sl !in c;
      assert c == {};
    } else {
      var column := set sl: Slot | sl in c && sl.0 == n - 1;
      ColumnSize(column, n - 1, m);
      GridSize(c - column, n - 1, m);
      assert c == column + (c - column);
      assert (n - 1) * m + m == n * m;
    }
  }

  /** There are no more ids in a table than slots. */
  lemma {:induction false} IdsAtMostSlots(table: map<Slot, int>, ids: set<int>)
    requires forall n :: n in ids ==> Slots(table, n) != {}
    ensures |ids| <= |table.Keys|
    decreases ids
  {
    Sets.NonEmpty(ids);
    if ids != {} {
      var n :| n in ids;
      NonEmptySlots(Slots(table, n));
      var sl :| sl in Slots(table, n);
      assert (table - {sl}).Keys == table.Keys - {sl};
      forall k | k in ids - {n} ensures Slots(table - {sl}, k) != {} {
        SlotsWithout(table, sl, k);
      }
      IdsAtMostSlots(table - {sl}, ids - {n});
    }
  }

  lemma NonEmptySlots(c: set<Slot>)
    ensures c == {} || exists sl :: sl in c
  {
    if forall sl :: sl !in c {
      var none: set<Slot> := {};
      forall sl ensures sl in c <==> sl in none { }
    }
  }

  lemma NotRejected(h: Hashing, s: State, d: Disk, newIds: seq<int>, triedIds: seq<int>)
    requires Valid(h, s) && IsDump(h, s, d, newIds, triedIds)
    ensures !Rejected(h, d)
  {
    hide IsBucket, Sets.Enumerates, RandomOk, AddrOk;
    DumpCounts(h, s, d, newIds, triedIds);
    NewFits(h, s);
    TriedFits(h, s);
  }

  lemma NewFits(h: Hashing, s: State)
    requires RefOk(s.info, s.news, {}) && NewOk(h, s.key, s.info, s.news)
    ensures |NewIds(s.info)| <= h.newCount * h.size
  {
    forall n | n in NewIds(s.info) ensures Slots(s.news, n) != {} {
      HasSlot(s.info, s.news, n);
    }
    IdsAtMostSlots(s.news, NewIds(s.info));
    GridSize(s.news.Keys, h.newCount, h.size);
  }

  lemma TriedFits(h: Hashing, s: State)
    requires TriedOk(h, s.key, s.info, s.tried)
    ensures |TriedIds(s.info)| <= h.triedCount * h.size
  {
    forall n | n in TriedIds(s.info) ensures Slots(s.tried, n) != {} {
      assert TriedSlot(h, s.key, s.info[n].svc) in Slots(s.tried, n);
    }
    IdsAtMostSlots(s.tried, TriedIds(s.info));
    GridSize(s.tried.Keys, h.triedCount, h.size);
  }

  // ----- Serialize ------------------------------------------------------------------

  /** Bucket b written up to position p. */
  ghost predicate BucketUpTo(news: map<Slot, int>, newIds: seq<int>, b: nat, p: nat, xs: seq<int>) {
    && (forall k :: 0 <= k < |xs| ==> 0 <= xs[k] < |newIds| && SomewhereBelow(news, b, p, newIds[xs[k]]))
    && (forall j, k :: 0 <= j < k < |xs| ==> xs[j] != xs[k])
    && (forall q: nat :: q < p && (b, q) in news ==> Indexed(news, newIds, b, q, xs))
  }

  ghost predicate SomewhereBelow(news: map<Slot, int>, b: nat, p: nat, id: int) {
    exists q: nat :: q < p && HoldsAt(news, b, q, id)
  }

  lemma BucketSkip(news: map<Slot, int>, newIds: seq<int>, b: nat, p: nat, xs: seq<int>)
    requires BucketUpTo(news, newIds, b, p, xs) && (b, p) !in news
    ensures BucketUpTo(news, newIds, b, p + 1, xs)
  {
    forall k | 0 <= k < |xs| ensures SomewhereBelow(news, b, p + 1, newIds[xs[k]]) {
      assert SomewhereBelow(news, b, p, newIds[xs[k]]);
      var q: nat :| q < p && HoldsAt(news, b, q, newIds[xs[k]]);
    }
  }

  lemma BucketPush(h: Hashing, s: State, newIds: seq<int>, b: nat, p: nat, xs: seq<int>, x: nat)
    requires NewOk(h, s.key, s.info, s.news) && BucketUpTo(s.news, newIds, b, p, xs)
    requires x < |newIds| && HoldsAt(s.news, b, p, newIds[x])
    ensures BucketUpTo(s.news, newIds, b, p + 1, xs + [x])
  {
    var more := xs + [x];
    forall k | 0 <= k < |more| ensures 0 <= more[k] < |newIds| && SomewhereBelow(s.news, b, p + 1, newIds[more[k]]) {
      if k < |xs| {
        assert SomewhereBelow(s.news, b, p, newIds[xs[k]]);
        var q: nat :| q < p && HoldsAt(s.news, b, q, newIds[xs[k]]);
      }
    }
    forall k | 0 <= k < |xs| ensures xs[k] != x {
      assert SomewhereBelow(s.news, b, p, newIds[xs[k]]);
      var q: nat :| q < p && HoldsAt(s.news, b, q, newIds[xs[k]]);
      OneSlotPerBucket(h, s, b, q, p);
    }
    forall q: nat | q < p + 1 && (b, q) in s.news ensures Indexed(s.news, newIds, b, q, more) {
      if q < p {
        assert Indexed(s.news, newIds, b, q, xs);
        var y :| y in xs && HoldsIndex(s.news, b, q, newIds, y);
        assert y in more;
      } else {
        assert x in more && HoldsIndex(s.news, b, q, newIds, x);
      }
    }
  }

  lemma OneSlotPerBucket(h: Hashing, s: State, b: nat, q: nat, p: nat)
    requires NewOk(h, s.key, s.info, s.news) && (b, q) in s.news && (b, p) in s.news
    ensures s.news[(b, q)] == s.news[(b, p)] ==> q == p
  {
    var x: Slot, y: Slot := (b, q), (b, p);
    assert IdOf(s.news, x) in s.info && IdOf(s.news, y) in s.info;
  }

  lemma BucketDone(h: Hashing, s: State, newIds: seq<int>, b: nat, xs: seq<int>)
    requires NewOk(h, s.key, s.info, s.news) && BucketUpTo(s.news, newIds, b, h.size, xs)
    ensures IsBucket(s.news, newIds, b, xs)
  {
    forall k | 0 <= k < |xs| ensures Somewhere(s.news, b, newIds[xs[k]]) {
      assert SomewhereBelow(s.news, b, h.size, newIds[xs[k]]);
      var q: nat :| q < h.size && HoldsAt(s.news, b, q, newIds[xs[k]]);
    }
    forall p: nat | (b, p) in s.news ensures p < h.size {
      var sl: Slot := (b, p);
      assert IdOf(s.news, sl) in s.info;
    }
  }

  method WriteBucket(m: AddrMan, unk: map<int, int>, ghost newIds: seq<int>, b: nat) returns (xs: seq<int>)
    requires NewOk(m.h, m.key, m.info, m.news)
    requires forall sl: Slot :: sl in m.news ==>
      && IdOf(m.news, sl) in unk && 0 <= unk[IdOf(m.news, sl)] < |newIds|
      && newIds[unk[IdOf(m.news, sl)]] == IdOf(m.news, sl)
    ensures IsBucket(m.news, newIds, b, xs)
  {
    hide NewOk, IsBucket, BucketUpTo;
    xs := [];
    BucketStart(m.news, newIds, b);
    for p := 0 to m.h.size
      invariant BucketUpTo(m.news, newIds, b, p, xs)
    {
      if (b, p) in m.news {
        var sl: Slot := (b, p);
        var x := unk[m.news[sl]];
        assert IdOf(m.news, sl) in unk;
        BucketPush(m.h, m.S(), newIds, b, p, xs, x);
        xs := xs + [x];
      } else {
        BucketSkip(m.news, newIds, b, p, xs);
      }
    }
    BucketDone(m.h, m.S(), newIds, b, xs);
  }

  lemma BucketStart(news: map<Slot, int>, newIds: seq<int>, b: nat)
    ensures BucketUpTo(news, newIds, b, 0, [])
  {
  }

  /** One more id has been visited: the enumeration of the chosen ones grows or stays. */
  lemma Visit(ids: seq<int>, chosen: set<int>, todo: set<int>, id: int)
    requires Sets.Enumerates(ids, chosen * todo, chosen) && Sets.IsLeast(todo, id)
    ensures id in todo
    ensures id in chosen ==> Sets.Enumerates(ids + [id], chosen * (todo - {id}), chosen) && |ids| < |chosen|
    ensures id !in chosen ==> Sets.Enumerates(ids, chosen * (todo - {id}), chosen)
  {
    if id in chosen {
      Sets.LeastOfSubset(chosen * todo, todo, id);
      Sets.EnumeratesStep(ids, chosen * todo, chosen, id);
      Sets.EnumerationSize(ids + [id], chosen * todo - {id}, chosen);
      assert chosen * todo - {id} == chosen * (todo - {id});
    } else {
      assert chosen * todo == chosen * (todo - {id});
    }
  }

  /** The entries with a reference, in ascending id order; the assert on the count cannot fail. */
  method WriteNew(m: AddrMan) returns (recs: seq<Record>, unk: map<int, int>, ghost newIds: seq<int>)
    requires Valid(m.h, m.S())
    ensures Sets.Enumerates(newIds, {}, NewIds(m.info)) && |recs| == |newIds|
    ensures forall k :: 0 <= k < |newIds| ==> newIds[k] in m.info && recs[k] == ToRecord(m.info[newIds[k]])
    ensures forall k :: 0 <= k < |newIds| ==> newIds[k] in unk && unk[newIds[k]] == k
    ensures |recs| == m.nNew
  {
    hide Inv, Sets.Enumerates;
    var todo := m.info.Keys;
    recs, unk, newIds := [], map[], [];
    ghost var chosen := NewIds(m.info);
    assert chosen * todo == chosen;
    Sets.EnumeratesNone(chosen);
    while todo != {}
      invariant todo <= m.info.Keys && |recs| == |newIds|
      invariant Sets.Enumerates(newIds, chosen * todo, chosen)
      invariant forall k :: 0 <= k < |newIds| ==> newIds[k] in m.info && newIds[k] !in todo && recs[k] == ToRecord(m.info[newIds[k]])
      invariant forall k :: 0 <= k < |newIds| ==> newIds[k] in unk && unk[newIds[k]] == k
      decreases |todo|
    {
      Sets.LeastExists(todo);
      var id :| Sets.IsLeast(todo, id);
      Visit(newIds, chosen, todo, id);
      NewIffReferenced(m.h, m.S(), id);
      unk := unk[id := |recs|];
      if m.info[id].refCount != 0 {
        assert |recs| != m.nNew;
        recs := recs + [ToRecord(m.info[id])];
        newIds := newIds + [id];
      }
      todo := todo - {id};
    }
    assert chosen * todo == {};
    Sets.EnumerationSize(newIds, {}, chosen);
    CountsExact(m.h, m.S());
  }

  lemma CountsExact(h: Hashing, s: State)
    requires Valid(h, s)
    ensures s.nNew == |NewIds(s.info)| && s.nTried == |TriedIds(s.info)|
  {
  }

  lemma NewIffReferenced(h: Hashing, s: State, id: int)
    requires Valid(h, s) && id in s.info
    ensures s.info[id].refCount != 0 <==> id in NewIds(s.info)
    ensures s.nNew == |NewIds(s.info)| && s.nTried == |TriedIds(s.info)|
  {
    if s.info[id].inTried { UntryRefZero(h, s, id, {}); }
  }

  method WriteTried(m: AddrMan) returns (recs: seq<Record>, ghost triedIds: seq<int>)
    requires Valid(m.h, m.S())
    ensures Sets.Enumerates(triedIds, {}, TriedIds(m.info)) && |recs| == |triedIds|
    ensures forall k :: 0 <= k < |triedIds| ==> triedIds[k] in m.info && recs[k] == ToRecord(m.info[triedIds[k]])
    ensures |recs| == m.nTried
  {
    hide Inv, Sets.Enumerates;
    var todo := m.info.Keys;
    recs, triedIds := [], [];
    ghost var chosen := TriedIds(m.info);
    assert chosen * todo == chosen;
    Sets.EnumeratesNone(chosen);
    while todo != {}
      invariant todo <= m.info.Keys && |recs| == |triedIds|
      invariant Sets.Enumerates(triedIds, chosen * todo, chosen)
      invariant forall k :: 0 <= k < |triedIds| ==> triedIds[k] in m.info && recs[k] == ToRecord(m.info[triedIds[k]])
      decreases |todo|
    {
      Sets.LeastExists(todo);
      var id :| Sets.IsLeast(todo, id);
      Visit(triedIds, chosen, todo, id);
      NewIffReferenced(m.h, m.S(), id);
      if m.info[id].inTried {
        assert |recs| != m.nTried;
        recs := recs + [ToRecord(m.info[id])];
        triedIds := triedIds + [id];
      }
      todo := todo - {id};
    }
    assert chosen * todo == {};
    Sets.EnumerationSize(triedIds, {}, chosen);
    CountsExact(m.h, m.S());
  }

  method WriteBuckets(m: AddrMan, unk: map<int, int>, ghost newIds: seq<int>) returns (buckets: seq<seq<int>>)
    requires NewOk(m.h, m.key, m.info, m.news)
    requires forall sl: Slot :: sl in m.news ==>
      && IdOf(m.news, sl) in unk && 0 <= unk[IdOf(m.news, sl)] < |newIds|
      && newIds[unk[IdOf(m.news, sl)]] == IdOf(m.news, sl)
    ensures |buckets| == m.h.newCount
    ensures forall b :: 0 <= b < |buckets| ==> IsBucket(m.news, newIds, b, buckets[b])
  {
    hide IsBucket, NewOk;
    buckets := [];
    for b := 0 to m.h.newCount
      invariant |buckets| == b
      invariant forall c :: 0 <= c < b ==> IsBucket(m.news, newIds, c, buckets[c])
    {
      var xs := WriteBucket(m, unk, newIds, b);
      buckets := buckets + [xs];
    }
  }

  method Serialize(m: AddrMan) returns (d: Disk, ghost newIds: seq<int>, ghost triedIds: seq<int>)
    requires Valid(m.h, m.S())
    ensures IsDump(m.h, m.S(), d, newIds, triedIds) && !Rejected(m.h, d)
  {
    hide IsBucket, Sets.Enumerates, AddrOk, RandomOk, NewOk, TriedOk, RefOk, CountOk, Rejected, Flip30;
    var newRecs, unk, triedRecs;
    newRecs, unk, newIds := WriteNew(m);
    triedRecs, triedIds := WriteTried(m);
    UnkCovers(m.h, m.S(), newIds, unk);
    var buckets := WriteBuckets(m, unk, newIds);
    d := Disk(1, 32, m.key, |newRecs|, |triedRecs|, Flip30(m.h.newCount), newRecs, triedRecs, buckets);
    NotRejected(m.h, m.S(), d, newIds, triedIds);
  }

  lemma UnkCovers(h: Hashing, s: State, newIds: seq<int>, unk: map<int, int>)
    requires Valid(h, s) && Sets.Enumerates(newIds, {}, NewIds(s.info))
    requires forall k :: 0 <= k < |newIds| ==> newIds[k] in unk && unk[newIds[k]] == k
    ensures forall sl: Slot :: sl in s.news ==>
      && IdOf(s.news, sl) in unk && 0 <= unk[IdOf(s.news, sl)] < |newIds|
      && newIds[unk[IdOf(s.news, sl)]] == IdOf(s.news, sl)
  {
    forall sl: Slot | sl in s.news
      ensures IdOf(s.news, sl) in unk && 0 <= unk[IdOf(s.news, sl)] < |newIds| && newIds[unk[IdOf(s.news, sl)]] == IdOf(s.news, sl)
    {
      var id := IdOf(s.news, sl);
      assert id in NewIds(s.info);
      assert id in newIds;
      var k :| 0 <= k < |newIds| && newIds[k] == id;
    }
  }

  // ----- Unserialize ------------------------------------------------------------------

  method ReadNewOne(m: AddrMan, r: Record, n: nat, usable: bool)
    modifies m
    ensures m.S().(idCount := n + 1) == LoadNewOne(m.h, old(m.S()).(idCount := n), r, usable) && m.nNew == old(m.nNew)
  {
    m.info := m.info[n := FromRecord(r).(randomPos := |m.random|)];
    m.byAddr := m.byAddr[r.svc.addr := n];
    m.random := m.random + [n];
    if !usable {
      var sl := NewSlot(m.h, m.key, r.svc, r.source);
      if sl !in m.news {
        m.news := m.news[sl := n];
        m.info := m.info[n := m.info[n].(refCount := m.info[n].refCount + 1)];
      }
    }
  }

  method ReadNew(m: AddrMan, d: Disk)
    requires m.S() == Blank(d, m.collisions) && Shaped(d)
    modifies m
    ensures m.S() == LoadNew(m.h, old(m.S()), d.newRecs, Usable(m.h, d)).(idCount := d.nNew) && Dense(m.S()) && m.nNew == d.nNew
  {
    hide Dense, LoadNewOne, BucketCount;
    ghost var s := m.S();
    var usable := Usable(m.h, d);
    BlankDense(d, m.collisions);
    var n := 0;
    while n < d.nNew
      invariant 0 <= n <= |d.newRecs| && m.S().(idCount := n) == LoadNew(m.h, s, d.newRecs[..n], usable)
      invariant Dense(m.S().(idCount := n)) && m.nNew == d.nNew
    {
      assert d.newRecs[..n + 1][..n] == d.newRecs[..n];
      LoadNewOneDense(m.h, m.S().(idCount := n), d.newRecs[n], usable);
      ReadNewOne(m, d.newRecs[n], n, usable);
      n := n + 1;
    }
    assert d.newRecs[..n] == d.newRecs;
    if d.nNew < 0 { NothingLoaded(m.h, s, d, usable); }
    m.idCount := d.nNew;
  }

  lemma NothingLoaded(h: Hashing, s: State, d: Disk, usable: bool)
    requires s == Blank(d, s.collisions) && Shaped(d) && d.nNew < 0
    ensures Dense(LoadNew(h, s, d.newRecs, usable).(idCount := d.nNew))
  {
    assert d.newRecs == [];
  }

  lemma BlankDense(d: Disk, c: set<int>)
    ensures Dense(Blank(d, c))
  {
  }

  method ReadTriedOne(m: AddrMan, r: Record, lost: int) returns (lost': int)
    modifies m
    ensures m.S().(nTried := m.nTried - lost') == LoadTriedOne(m.h, old(m.S()).(nTried := old(m.nTried) - lost), r)
    ensures m.nNew == old(m.nNew)
  {
    lost' := lost;
    var ts := TriedSlot(m.h, m.key, r.svc);
    if ts !in m.tried {
      m.info := m.info[m.idCount := FromRecord(r).(randomPos := |m.random|, inTried := true)];
      m.random := m.random + [m.idCount];
      m.byAddr := m.byAddr[r.svc.addr := m.idCount];
      if m.idCount != -1 { m.tried := m.tried[ts := m.idCount]; }
      m.idCount := m.idCount + 1;
    } else {
      lost' := lost + 1;
    }
  }

  method ReadTried(m: AddrMan, d: Disk)
    requires Dense(m.S()) && Shaped(d)
    modifies m
    ensures m.S() == LoadTried(m.h, old(m.S()), d.triedRecs) && Dense(m.S()) && m.nNew == old(m.nNew)
  {
    hide Dense, LoadTriedOne, BucketCount;
    ghost var s := m.S();
    var lost := 0;
    var n := 0;
    while n < d.nTried
      invariant 0 <= n <= |d.triedRecs| && m.S().(nTried := m.nTried - lost) == LoadTried(m.h, s, d.triedRecs[..n])
      invariant Dense(m.S().(nTried := m.nTried - lost)) && m.nNew == s.nNew
    {
      assert d.triedRecs[..n + 1][..n] == d.triedRecs[..n];
      LoadTriedOneDense(m.h, m.S().(nTried := m.nTried - lost), d.triedRecs[n]);
      lost := ReadTriedOne(m, d.triedRecs[n], lost);
      n := n + 1;
    }
    assert d.triedRecs[..n] == d.triedRecs;
    m.nTried := m.nTried - lost;
  }

  method ReadBucket(m: AddrMan, d: Disk, b: nat)
    requires Dense(m.S()) && Shaped(d) && b < |d.buckets|
    modifies m
    ensures m.S() == LoadBucket(m.h, old(m.S()), b, d.buckets[b], Usable(m.h, d)) && Dense(m.S())
  {
    hide Dense;
    ghost var s := m.S();
    var usable := Usable(m.h, d);
    var xs := d.buckets[b];
    for n := 0 to |xs|
      invariant m.S() == LoadBucket(m.h, s, b, xs[..n], usable) && Dense(m.S())
    {
      assert xs[..n + 1][..n] == xs[..n];
      var x := xs[n];
      LoadIndexDense(m.h, m.S(), b, x, usable);
      if 0 <= x < m.nNew && x in m.info {
        var sl := NewSlotIn(m.h, m.key, m.info[x].svc, b);
        if usable && sl !in m.news && m.info[x].refCount < BUCKETS_PER_ADDRESS {
          m.info := m.info[x := m.info[x].(refCount := m.info[x].refCount + 1)];
          m.news := m.news[sl := x];
        }
      }
    }
    assert xs[..|xs|] == xs;
  }

  /**
   * Unserialize rebuilds the state field by field from any file of the right
   * shape; entries left without a reference are pruned.  The result is
   * consistent exactly when the counts are not negative and no record that stays
   * shares its address with another entry, so different addresses suffice.
   */
  method Unserialize(m: AddrMan, d: Disk, freshKey: nat) returns (ok: bool, ghost doomed: seq<int>)
    requires Shaped(d)
    modifies m
    ensures ok <==> !Rejected(m.h, d)
    ensures !ok ==> m.info == map[] && m.byAddr == map[] && m.news == map[] && m.tried == map[]
    ensures ok ==> Dense(Load(m.h, d, old(m.collisions)))
    ensures ok ==> m.S() == PruneAll(Load(m.h, d, old(m.collisions)), doomed)
                   && Sets.Enumerates(doomed, {}, Doomed(Load(m.h, d, old(m.collisions))))
    ensures ok ==> (Valid(m.h, m.S()) <==> d.nNew >= 0 && d.nTried >= 0 && FileUnshared(m.h, d))
    ensures DistinctRecords(d.newRecs + d.triedRecs) ==> FileUnshared(m.h, d)
  {
    hide Dense, Sets.Enumerates, PruneAll, LoadNew, LoadTried, LoadBucket, Inv, FileUnshared, DistinctRecords;
    if DistinctRecords(d.newRecs + d.triedRecs) { DistinctUnshared(m.h, d); }
    m.ClearAll(freshKey);
    doomed := [];
    if d.keySize != 32 { return false, []; }
    m.key, m.nNew, m.nTried := d.key, d.nNew, d.nTried;
    if d.nNew > m.h.newCount * m.h.size { return false, []; }
    if d.nTried > m.h.triedCount * m.h.size { return false, []; }
    ReadNew(m, d);
    ReadTried(m, d);
    ghost var s := m.S();
    var usable := Usable(m.h, d);
    for b := 0 to |d.buckets|
      invariant m.S() == LoadBuckets(m.h, s, d.buckets[..b], usable) && Dense(m.S())
    {
      assert d.buckets[..b + 1][..b] == d.buckets[..b];
      ReadBucket(m, d, b);
    }
    assert d.buckets[..|d.buckets|] == d.buckets;
    doomed := Prune(m);
    LoadValidIff(m.h, d, old(m.collisions), doomed);
    ok := true;
  }

  /** Lines 453-463: delete, in ascending order, the untried entries without a reference. */
  method Prune(m: AddrMan) returns (ghost doomed: seq<int>)
    requires Dense(m.S())
    modifies m
    ensures m.S() == PruneAll(old(m.S()), doomed) && Sets.Enumerates(doomed, {}, Doomed(old(m.S())))
  {
    hide Dense, Sets.Enumerates, Delete;
    ghost var s := m.S();
    ghost var chosen := Doomed(s);
    var todo := m.info.Keys;
    doomed := [];
    assert chosen * todo == chosen;
    Sets.EnumeratesNone(chosen);
    while todo != {}
      invariant todo <= m.info.Keys && Dense(m.S())
      invariant m.S() == PruneAll(s, doomed)
      invariant Sets.Enumerates(doomed, chosen * todo, chosen)
      invariant forall n :: n in todo ==> n in s.info && m.info[n] == s.info[n].(randomPos := m.info[n].randomPos)
      decreases |todo|
    {
      Sets.LeastExists(todo);
      var id :| Sets.IsLeast(todo, id);
      Visit(doomed, chosen, todo, id);
      if !m.info[id].inTried && m.info[id].refCount == 0 {
        DeleteDense(m.S(), id);
        DenseRandom(m.S());
        assert (doomed + [id])[..|doomed|] == doomed;
        m.DeleteEntry(id);
        doomed := doomed + [id];
      }
      todo := todo - {id};
    }
    assert chosen * todo == {};
  }

  lemma DenseRandom(s: State)
    requires Dense(s)
    ensures RandomOk(s.info, s.random)
  {
  }

  /** The address is known to both, with the same lasting fields and reference count. */
  ghost predicate EntryBack(s: State, g: State, a: NetAddr) {
    && a in s.byAddr && a in g.byAddr && IdOf(s.byAddr, a) in s.info && IdOf(g.byAddr, a) in g.info
    && Restored(s.info[IdOf(s.byAddr, a)], g.info[IdOf(g.byAddr, a)])
    && g.info[IdOf(g.byAddr, a)].refCount == s.info[IdOf(s.byAddr, a)].refCount
  }

  lemma AddressesBack(h: Hashing, s: State, d: Disk, newIds: seq<int>, triedIds: seq<int>, g: State)
    requires AddrOk(s.info, s.byAddr, s.idCount) && AddrOk(g.info, g.byAddr, g.idCount) && Loaded(s, newIds + triedIds, g)
    requires IsDump(h, s, d, newIds, triedIds)
    requires forall k :: 0 <= k < |newIds + triedIds| ==>
               k in g.info && (newIds + triedIds)[k] in s.info && g.info[k].refCount == s.info[(newIds + triedIds)[k]].refCount
    ensures forall a :: a in s.byAddr || a in g.byAddr ==> EntryBack(s, g, a)
    ensures StatsOk(s.info) ==> StatsOk(g.info)
  {
    hide IsBucket;
    var ids := newIds + triedIds;
    forall a | a in s.byAddr ensures EntryBack(s, g, a) {
      var k := EverySaved(s, newIds, triedIds, IdOf(s.byAddr, a));
      assert k in g.info && Restored(s.info[ids[k]], g.info[k]);
    }
    forall a | a in g.byAddr ensures EntryBack(s, g, a) {
      var k := IdOf(g.byAddr, a);
      assert k in g.info && Restored(s.info[ids[k]], g.info[k]) && ids[k] in s.info;
    }
    if StatsOk(s.info) {
      forall k | k in g.info ensures StatOk(g.info[k]) { assert StatOk(s.info[ids[k]]); }
    }
  }

  lemma EverySaved(s: State, newIds: seq<int>, triedIds: seq<int>, id: int) returns (k: nat)
    requires Sets.Enumerates(newIds, {}, NewIds(s.info)) && Sets.Enumerates(triedIds, {}, TriedIds(s.info)) && id in s.info
    ensures k < |newIds + triedIds| && (newIds + triedIds)[k] == id
  {
    if s.info[id].inTried {
      assert id in TriedIds(s.info);
      var m :| 0 <= m < |triedIds| && triedIds[m] == id;
      k := |newIds| + m;
    } else {
      assert id in NewIds(s.info);
      k :| 0 <= k < |newIds| && newIds[k] == id;
    }
  }

  lemma LoadedRunInv(h: Hashing, s: State, ids: seq<int>, g: State)
    requires Valid(h, g) && Loaded(s, ids, g)
    ensures Sound(h, g) && (g.collisions == {} ==> RunInv(h, g))
  {
    hide Inv;
  }

  /**
   * A saved address manager read back into another object: the same addresses
   * in the same slots, every entry with its lasting fields and reference count,
   * and without pending collisions everything a run needs.
   */
  method SaveAndLoad(m: AddrMan, n: AddrMan, freshKey: nat) returns (ok: bool)
    requires Valid(m.h, m.S()) && m != n && m.h == n.h
    modifies n
    ensures ok && Sound(n.h, n.S()) && TablesOf(n.S()) == TablesOf(m.S())
    ensures n.key == m.key && n.nNew == m.nNew && n.nTried == m.nTried && n.collisions == old(n.collisions)
    ensures forall a :: a in m.byAddr || a in n.byAddr ==> EntryBack(m.S(), n.S(), a)
    ensures old(n.collisions) == {} ==> RunInv(n.h, n.S())
    ensures StatsOk(m.info) ==> StatsOk(n.info)
  {
    hide Inv, IsDump, Load, TablesOf, Rejected, Sets.Enumerates, Loaded, StatsOk, EntryBack, Pending;
    var d;
    ghost var newIds, triedIds, doomed;
    d, newIds, triedIds := Serialize(m);
    DumpShaped(m.h, m.S(), d, newIds, triedIds);
    RoundTrip(m.h, m.S(), d, newIds, triedIds, n.collisions);
    ghost var g := Load(m.h, d, n.collisions);
    ValidAddr(m.h, m.S());
    ValidAddr(m.h, g);
    AddressesBack(m.h, m.S(), d, newIds, triedIds, g);
    LoadedRunInv(m.h, m.S(), newIds + triedIds, g);
    ok, doomed := Unserialize(n, d, freshKey);
    NothingEnumerated(doomed);
  }

  lemma ValidAddr(h: Hashing, s: State)
    requires Valid(h, s)
    ensures AddrOk(s.info, s.byAddr, s.idCount)
  {
  }

  lemma DumpShaped(h: Hashing, s: State, d: Disk, newIds: seq<int>, triedIds: seq<int>)
    requires Valid(h, s) && IsDump(h, s, d, newIds, triedIds)
    ensures Shaped(d)
  {
    hide Inv, IsBucket, Sets.Enumerates, Flip30;
    Flip30Twice(h.newCount);
    DumpSizes(h, s, d, newIds, triedIds);
    DumpCounts(h, s, d, newIds, triedIds);
  }

  lemma NothingEnumerated(ids: seq<int>)
    requires Sets.Enumerates(ids, {}, {})
    ensures ids == []
  {
    Sets.EnumerationSize(ids, {}, {});
  }
}
