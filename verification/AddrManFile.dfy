/**
 * The address manager's file: its format, what loading makes of any file, and
 * which files load into a consistent manager.
 */
module AddrManFile {
  import opened AddrManState
  import opened AddrManOps
  import Sets

  /** The fields of an entry that are written. */
  datatype Record = Record(svc: Service, source: NetAddr, time: int, services: set<nat>, lastSuccess: int, attempts: int)

  /** A file, field by field in the order it is written; the three counts are signed. */
  datatype Disk = Disk(version: nat, keySize: nat, key: nat, nNew: int, nTried: int, uBuckets: int,
                       newRecs: seq<Record>, triedRecs: seq<Record>, buckets: seq<seq<int>>)

  function ToRecord(i: Info): Record {
    Record(i.svc, i.source, i.time, i.services, i.lastSuccess, i.attempts)
  }

  function FromRecord(r: Record): Info {
    Info(r.svc, r.source, r.time, r.services, r.lastSuccess, r.attempts, 0, 0, 0, false, -1)
  }

  const BIT30: int := 0x4000_0000

  /** Exclusive or with 2^30, in two's complement. */
  function Flip30(n: int): int {
    if n / BIT30 % 2 == 0 then n + BIT30 else n - BIT30
  }

  lemma Flip30Twice(n: int)
    ensures Flip30(Flip30(n)) == n
  {
  }

  function BucketCount(d: Disk): int {
    if d.version != 0 then Flip30(d.uBuckets) else d.uBuckets
  }

  /** Whether the stored new table fits this build. */
  predicate Usable(h: Hashing, d: Disk) {
    d.version == 1 && BucketCount(d) == h.newCount
  }

  // ----- loading -------------------------------------------------------------------

  ghost function Blank(d: Disk, collisions: set<int>): State {
    State(d.key, 0, map[], map[], [], d.nTried, map[], d.nNew, map[], 1, collisions)
  }

  ghost function LoadNewOne(h: Hashing, s: State, r: Record, usable: bool): State {
    var t := Register(s, FromRecord(r).(randomPos := |s.random|));
    var sl := NewSlot(h, s.key, r.svc, r.source);
    if usable || sl in t.news then t else Ref(t, sl, s.idCount)
  }

  ghost function LoadNew(h: Hashing, s: State, rs: seq<Record>, usable: bool): State {
    if rs == [] then s
    else LoadNewOne(h, LoadNew(h, s, rs[..|rs| - 1], usable), rs[|rs| - 1], usable)
  }

  /** Writing id -1, which a negative count of new entries can lead to, leaves the slot empty. */
  ghost function LoadTriedOne(h: Hashing, s: State, r: Record): State {
    var ts := TriedSlot(h, s.key, r.svc);
    if ts in s.tried then s.(nTried := s.nTried - 1)
    else
      Register(s, FromRecord(r).(randomPos := |s.random|, inTried := true)).
        (tried := if s.idCount == -1 then s.tried else s.tried[ts := s.idCount])
  }

  ghost function LoadTried(h: Hashing, s: State, rs: seq<Record>): State {
    if rs == [] then s
    else LoadTriedOne(h, LoadTried(h, s, rs[..|rs| - 1]), rs[|rs| - 1])
  }

  ghost function LoadIndex(h: Hashing, s: State, b: nat, index: int, usable: bool): State {
    if 0 <= index < s.nNew && index in s.info && usable then
      var sl := NewSlotIn(h, s.key, s.info[index].svc, b);
      if sl !in s.news && s.info[index].refCount < BUCKETS_PER_ADDRESS then Ref(s, sl, index) else s
    else s
  }

  ghost function LoadBucket(h: Hashing, s: State, b: nat, xs: seq<int>, usable: bool): State {
    if xs == [] then s
    else LoadIndex(h, LoadBucket(h, s, b, xs[..|xs| - 1], usable), b, xs[|xs| - 1], usable)
  }

  ghost function LoadBuckets(h: Hashing, s: State, buckets: seq<seq<int>>, usable: bool): State {
    if buckets == [] then s
    else
      var b := |buckets| - 1;
      LoadBucket(h, LoadBuckets(h, s, buckets[..b], usable), b, buckets[b], usable)
  }

  predicate Rejected(h: Hashing, d: Disk) {
    d.keySize != 32 || d.nNew > h.newCount * h.size || d.nTried > h.triedCount * h.size
  }

  /** Everything up to the final pruning of entries without a reference. */
  ghost function Load(h: Hashing, d: Disk, collisions: set<int>): State {
    var usable := Usable(h, d);
    var s := LoadNew(h, Blank(d, collisions), d.newRecs, usable).(idCount := d.nNew);
    LoadBuckets(h, LoadTried(h, s, d.triedRecs), d.buckets, usable)
  }

  ghost function Doomed(s: State): set<int> {
    set n | n in s.info && !s.info[n].inTried && s.info[n].refCount == 0
  }

  /** True of every file, however corrupt: ids are below the counter and vRandom is consistent. */
  ghost predicate Dense(s: State) {
    RandomOk(s.info, s.random) && forall n :: n in s.info ==> n < s.idCount
  }

  lemma RegisterDense(s: State, i: Info)
    requires Dense(s) && i.randomPos == |s.random|
    ensures Dense(Register(s, i))
  {
    CreateRandom(s.info, s.random, s.idCount, i);
  }

  lemma RefDense(s: State, sl: Slot, id: int)
    requires Dense(s) && id in s.info
    ensures Dense(Ref(s, sl, id))
  {
  }

  lemma LoadNewOneDense(h: Hashing, s: State, r: Record, usable: bool)
    requires Dense(s)
    ensures Dense(LoadNewOne(h, s, r, usable))
  {
    hide Dense;
    var i := FromRecord(r).(randomPos := |s.random|);
    RegisterDense(s, i);
    RefDense(Register(s, i), NewSlot(h, s.key, r.svc, r.source), s.idCount);
  }

  lemma LoadTriedOneDense(h: Hashing, s: State, r: Record)
    requires Dense(s)
    ensures Dense(LoadTriedOne(h, s, r))
  {
    RegisterDense(s, FromRecord(r).(randomPos := |s.random|, inTried := true));
  }

  lemma LoadIndexDense(h: Hashing, s: State, b: nat, index: int, usable: bool)
    requires Dense(s)
    ensures Dense(LoadIndex(h, s, b, index, usable))
  {
    hide Dense;
    if 0 <= index < s.nNew && index in s.info {
      RefDense(s, NewSlotIn(h, s.key, s.info[index].svc, b), index);
    }
  }

  lemma DeleteDense(s: State, id: int)
    requires Dense(s) && id in s.info
    ensures Dense(Delete(s, id)) && Delete(s, id).info.Keys == s.info.Keys - {id}
    ensures forall n :: n in s.info && n != id ==> Delete(s, id).info[n] == s.info[n].(randomPos := Delete(s, id).info[n].randomPos)
  {
    MoveLastOk(s, id);
    PopRandomOk(MoveLast(s, id).info, MoveLast(s, id).random, id);
  }

  /** The final pruning, in ascending id order. */
  ghost function PruneAll(s: State, ids: seq<int>): State
    requires Dense(s)
    decreases |ids|
  {
    if ids == [] || ids[|ids| - 1] !in PruneAll(s, ids[..|ids| - 1]).info || !Dense(PruneAll(s, ids[..|ids| - 1])) then s
    else Delete(PruneAll(s, ids[..|ids| - 1]), ids[|ids| - 1])
  }

  ghost predicate Shaped(d: Disk) {
    |d.newRecs| == Max(0, d.nNew) && |d.triedRecs| == Max(0, d.nTried) && |d.buckets| == Max(0, BucketCount(d))
  }

  // ----- consistency of a loaded file -----------------------------------------------------

  /** The invariant but for the address index; any entry may lack a reference. */
  ghost predicate Body(h: Hashing, s: State, loose: set<int>) {
    && RandomOk(s.info, s.random)
    && NewOk(h, s.key, s.info, s.news)
    && TriedOk(h, s.key, s.info, s.tried)
    && RefOk(s.info, s.news, loose)
    && CountOk(s.info, s.nTried, s.nNew, {})
  }

  /** Every address is indexed, by the last entry that has it. */
  ghost predicate AddrWeak(info: map<int, Info>, byAddr: map<NetAddr, int>, idCount: int) {
    && idCount >= 0
    && (forall n :: n in info ==> 0 <= n < idCount && info[n].svc.addr in byAddr)
    && (forall a :: a in byAddr ==> IdOf(byAddr, a) in info && info[IdOf(byAddr, a)].svc.addr == a)
  }

  /** Untried entries have the ids below nNew. */
  ghost predicate Split(info: map<int, Info>, nNew: int) {
    forall n :: n in info ==> (info[n].inTried <==> n >= nNew)
  }

  lemma RegisterWeak(s: State, i: Info)
    requires AddrWeak(s.info, s.byAddr, s.idCount)
    ensures s.idCount !in s.info
    ensures var t := Register(s, i); AddrWeak(t.info, t.byAddr, t.idCount)
  {
    var t := Register(s, i);
    forall a | a in t.byAddr ensures IdOf(t.byAddr, a) in t.info && t.info[IdOf(t.byAddr, a)].svc.addr == a {
      if a != i.svc.addr { assert IdOf(t.byAddr, a) == IdOf(s.byAddr, a); }
    }
  }

  lemma RegisterBody(h: Hashing, s: State, i: Info)
    requires Body(h, s, s.info.Keys) && s.idCount !in s.info
    requires !i.inTried && i.refCount == 0 && i.randomPos == |s.random|
    ensures var t := Register(s, i).(nNew := s.nNew + 1); Body(h, t, t.info.Keys)
  {
    hide NewOk, TriedOk, RandomOk, RefOk, CountOk, View;
    CreateRandom(s.info, s.random, s.idCount, i);
    CreateTables(h, s.key, s.info, s.news, s.tried, s.idCount, i);
    CreateRef(h, s.key, s.info, s.news, s.idCount, i, s.info.Keys);
    CreateCount(s.info, s.nTried, s.nNew, s.idCount, i);
    assert s.info.Keys + {s.idCount} == Register(s, i).info.Keys;
  }

  lemma RefBody(h: Hashing, s: State, sl: Slot, id: int)
    requires Body(h, s, s.info.Keys) && sl !in s.news && sl.0 < h.newCount
    requires id in s.info && !s.info[id].inTried && s.info[id].refCount < BUCKETS_PER_ADDRESS
    requires sl == NewSlotIn(h, s.key, s.info[id].svc, sl.0)
    ensures var t := Ref(s, sl, id); Body(h, t, t.info.Keys) && SameShape(s.info, t.info)
  {
    hide NewOk, TriedOk, RefOk, View;
    var t := Ref(s, sl, id);
    RefRef(s.info, s.news, sl, id, s.info.Keys);
    Loosen(t.info, t.news, s.info.Keys - {id}, t.info.Keys);
    SameShapeTables(h, s.key, s.info, t.info, s.news, s.tried);
    SameShapeIds(s.info, t.info);
    RefTable(h, s.key, t.info, s.news, sl, id);
  }

  lemma RegisterTriedBody(h: Hashing, s: State, i: Info)
    requires Body(h, s, s.info.Keys) && s.idCount !in s.info
    requires i.inTried && i.refCount == 0 && i.randomPos == |s.random| && TriedSlot(h, s.key, i.svc) !in s.tried
    ensures var t := Register(s, i).(tried := s.tried[TriedSlot(h, s.key, i.svc) := s.idCount], nTried := s.nTried + 1);
            Body(h, t, t.info.Keys)
  {
    hide NewOk, TriedOk, RandomOk, RefOk, CountOk, View, Slots;
    var id, j := s.idCount, i.(inTried := false);
    RegisterBody(h, s, j);
    var u := Register(s, j);
    NoSlots(u.info, u.news, id, u.info.Keys);
    UncountOne(u.info, u.nTried, u.nNew + 1, id);
    TryTables(h, u.key, u.info, u.news, u.tried, id);
    TryCount(u.info, u.nTried, u.nNew, id);
    RetagRef(u.info, u.news, id, true, u.info.Keys);
    var t := Register(s, i);
    assert u.info[id := u.info[id].(inTried := true)] == t.info;
    Loosen(t.info, t.news, u.info.Keys - {id}, t.info.Keys);
    CreateRandom(s.info, s.random, id, i);
  }

  lemma UncountOne(info: map<int, Info>, nTried: int, nNew: int, id: int)
    requires CountOk(info, nTried, nNew, {}) && id in info && !info[id].inTried && info[id].refCount == 0
    ensures CountOk(info, nTried, nNew - 1, {id})
  {
  }

  lemma DeleteBody(h: Hashing, s: State, id: int)
    requires Body(h, s, s.info.Keys) && id in s.info && !s.info[id].inTried && s.info[id].refCount == 0
    ensures var t := Delete(s, id);
            && Body(h, t, t.info.Keys) && SameUpToPos(s.info - {id}, t.info)
            && t == s.(info := t.info, random := t.random, byAddr := s.byAddr - {s.info[id].svc.addr}, nNew := s.nNew - 1)
  {
    hide NewOk, TriedOk, RandomOk, RefOk, CountOk, View, MoveLast, SameUpToPos;
    MoveLastOk(s, id);
    var t := MoveLast(s, id);
    MovedBody(h, s, t);
    SameUpToPosWithout(s.info, t.info, id);
    PopRandomOk(t.info, t.random, id);
    Loosen(t.info, t.news, t.info.Keys, t.info.Keys + {id});
    RemoveRef(t.info, t.news, id, t.info.Keys);
    assert t.info.Keys - {id} == (t.info - {id}).Keys;
    RemoveTables(h, t.key, t.info, t.news, t.tried, id);
    RemoveCount(t.info, t.nTried, t.nNew, id, {});
  }

  lemma MovedBody(h: Hashing, s: State, t: State)
    requires Body(h, s, s.info.Keys) && SameUpToPos(s.info, t.info) && RandomOk(t.info, t.random)
    requires t == s.(info := t.info, random := t.random)
    ensures Body(h, t, t.info.Keys)
  {
    hide NewOk, TriedOk, RandomOk, View;
    assert SameShape(s.info, t.info);
    SameShapeTables(h, s.key, s.info, t.info, s.news, s.tried);
    SameShapeIds(s.info, t.info);
    forall n | n in t.info ensures t.info[n].refCount == s.info[n].refCount { }
  }

  /** What loading keeps, with the counters of what has been read so far. */
  ghost predicate Reading(h: Hashing, s: State, nNew: int, k: int, m: int) {
    && Body(h, s.(nNew := k, nTried := m), s.info.Keys)
    && AddrWeak(s.info, s.byAddr, s.idCount) && Split(s.info, nNew)
  }

  lemma NewOneReads(h: Hashing, s: State, r: Record, usable: bool, nNew: int, k: nat)
    requires Reading(h, s, nNew, k, 0) && s.idCount == k < nNew
    ensures var t := LoadNewOne(h, s, r, usable); Reading(h, t, nNew, k + 1, 0) && t.idCount == k + 1
  {
    hide Body, AddrWeak;
    var i := FromRecord(r).(randomPos := |s.random|);
    RegisterWeak(s, i);
    RegisterBody(h, s.(nNew := k, nTried := 0), i);
    var t := Register(s, i);
    var sl := NewSlot(h, s.key, r.svc, r.source);
    if sl !in t.news {
      RefBody(h, t.(nNew := k + 1, nTried := 0), sl, s.idCount);
      RefWeak(t, sl, s.idCount);
    }
  }

  lemma RefWeak(s: State, sl: Slot, id: int)
    requires AddrWeak(s.info, s.byAddr, s.idCount) && id in s.info
    ensures var t := Ref(s, sl, id); AddrWeak(t.info, t.byAddr, t.idCount)
  {
  }

  lemma {:induction false} NewReads(h: Hashing, d: Disk, c: set<int>, usable: bool, k: nat)
    requires k <= |d.newRecs| <= d.nNew
    ensures var g := LoadNew(h, Blank(d, c), d.newRecs[..k], usable);
            Reading(h, g, d.nNew, k, 0) && g.idCount == k && g.nNew == d.nNew && g.nTried == d.nTried
  {
    hide Reading, LoadNewOne;
    if k == 0 {
      BlankReads(h, d, c);
    } else {
      NewReads(h, d, c, usable, k - 1);
      assert d.newRecs[..k][..k - 1] == d.newRecs[..k - 1];
      var g := LoadNew(h, Blank(d, c), d.newRecs[..k - 1], usable);
      NewOneReads(h, g, d.newRecs[k - 1], usable, d.nNew, k - 1);
      NewOneCounts(h, g, d.newRecs[k - 1], usable);
    }
  }

  lemma NewOneCounts(h: Hashing, s: State, r: Record, usable: bool)
    ensures var t := LoadNewOne(h, s, r, usable); t.nNew == s.nNew && t.nTried == s.nTried
  {
  }

  lemma BlankReads(h: Hashing, d: Disk, c: set<int>)
    ensures Reading(h, Blank(d, c), d.nNew, 0, 0)
  {
  }

  lemma TriedOneReads(h: Hashing, s: State, r: Record, nNew: nat, m: int)
    requires Reading(h, s, nNew, nNew, m) && s.idCount >= nNew
    ensures var t := LoadTriedOne(h, s, r);
            && Reading(h, t, nNew, nNew, m + 1 + t.nTried - s.nTried) && t.idCount >= nNew
            && t.nNew == s.nNew && t.nTried <= s.nTried
  {
    hide Body, AddrWeak;
    var i := FromRecord(r).(randomPos := |s.random|, inTried := true);
    RegisterWeak(s, i);
    if TriedSlot(h, s.key, r.svc) !in s.tried {
      RegisterTriedBody(h, s.(nNew := nNew, nTried := m), i);
    }
  }

  lemma {:induction false} TriedReads(h: Hashing, s: State, rs: seq<Record>, nNew: nat)
    requires Reading(h, s, nNew, nNew, 0) && s.idCount >= nNew
    ensures var g := LoadTried(h, s, rs);
            && Reading(h, g, nNew, nNew, |rs| + g.nTried - s.nTried) && g.idCount >= nNew
            && g.nNew == s.nNew
  {
    hide Reading, LoadTriedOne;
    if rs != [] {
      var m := |rs| - 1;
      TriedReads(h, s, rs[..m], nNew);
      var g := LoadTried(h, s, rs[..m]);
      TriedOneReads(h, g, rs[m], nNew, m + g.nTried - s.nTried);
    }
  }

  /** Loading is done with the records: the counters are the real ones. */
  ghost predicate Read(h: Hashing, s: State) {
    Body(h, s, s.info.Keys) && AddrWeak(s.info, s.byAddr, s.idCount) && Split(s.info, s.nNew)
  }

  lemma IndexReads(h: Hashing, s: State, b: nat, index: int, usable: bool)
    requires Read(h, s) && (usable ==> b < h.newCount)
    ensures Read(h, LoadIndex(h, s, b, index, usable))
  {
    hide Body, AddrWeak;
    if usable && 0 <= index < s.nNew && index in s.info {
      var sl := NewSlotIn(h, s.key, s.info[index].svc, b);
      if sl !in s.news && s.info[index].refCount < BUCKETS_PER_ADDRESS {
        RefBody(h, s, sl, index);
        RefWeak(s, sl, index);
      }
    }
  }

  lemma {:induction false} BucketReads(h: Hashing, s: State, b: nat, xs: seq<int>, usable: bool)
    requires Read(h, s) && (usable ==> b < h.newCount)
    ensures Read(h, LoadBucket(h, s, b, xs, usable))
    decreases |xs|
  {
    hide Read, LoadIndex;
    if xs != [] {
      BucketReads(h, s, b, xs[..|xs| - 1], usable);
      IndexReads(h, LoadBucket(h, s, b, xs[..|xs| - 1], usable), b, xs[|xs| - 1], usable);
    }
  }

  lemma {:induction false} BucketsRead(h: Hashing, s: State, buckets: seq<seq<int>>, usable: bool)
    requires Read(h, s) && (usable ==> |buckets| <= h.newCount)
    ensures Read(h, LoadBuckets(h, s, buckets, usable))
    decreases |buckets|
  {
    hide Read, LoadBucket;
    if buckets != [] {
      var b := |buckets| - 1;
      BucketsRead(h, s, buckets[..b], usable);
      BucketReads(h, LoadBuckets(h, s, buckets[..b], usable), b, buckets[b], usable);
    }
  }

  /** Any file with honest counts loads into something consistent but for shared addresses. */
  lemma LoadReads(h: Hashing, d: Disk, c: set<int>)
    requires Shaped(d) && d.nNew >= 0 && d.nTried >= 0
    ensures Read(h, Load(h, d, c))
  {
    hide Body, AddrWeak, Split, LoadNew, LoadTried, LoadBuckets, BucketCount;
    var usable := Usable(h, d);
    NewReads(h, d, c, usable, |d.newRecs|);
    assert d.newRecs[..|d.newRecs|] == d.newRecs;
    var s := LoadNew(h, Blank(d, c), d.newRecs, usable);
    assert s.(idCount := d.nNew) == s;
    TriedReads(h, s, d.triedRecs, d.nNew);
    var g := LoadTried(h, s, d.triedRecs);
    assert g.(nNew := d.nNew, nTried := |d.triedRecs| + g.nTried - s.nTried) == g;
    BucketsRead(h, g, d.buckets, usable);
  }

  // ----- pruning ----------------------------------------------------------------------------

  /** What is left after some entries were deleted. */
  ghost predicate Pruned(h: Hashing, s: State, ids: seq<int>, t: State) {
    && Body(h, t, t.info.Keys)
    && (forall n :: n in t.info <==> n in s.info && n !in ids)
    && (forall n :: n in t.info ==> t.info[n] == s.info[n].(randomPos := t.info[n].randomPos))
    && (forall a :: a in t.byAddr <==> a in s.byAddr && forall n :: n in ids && n in s.info ==> s.info[n].svc.addr != a)
    && (forall a :: a in t.byAddr ==> t.byAddr[a] == s.byAddr[a])
    && t.key == s.key && t.idCount == s.idCount && t.news == s.news && t.tried == s.tried
  }

  ghost predicate AllDoomed(s: State, ids: seq<int>) {
    && (forall k :: 0 <= k < |ids| ==> ids[k] in Doomed(s))
    && (forall i, j :: 0 <= i < j < |ids| ==> ids[i] != ids[j])
  }

  lemma PruneOne(h: Hashing, s: State, ids: seq<int>, t: State, id: int)
    requires Pruned(h, s, ids, t) && id in t.info && id in Doomed(s)
    ensures RandomOk(t.info, t.random) && Pruned(h, s, ids + [id], Delete(t, id))
  {
    hide RandomOk, NewOk, TriedOk, RefOk, CountOk;
    BodyRandom(h, t);
    DeleteBody(h, t, id);
    hide Body, Delete;
    var more := ids + [id];
    forall n ensures n in more <==> n in ids || n == id { InSnoc(ids, id, n); }
    var u := Delete(t, id);
    assert u.byAddr == t.byAddr - {s.info[id].svc.addr};
  }

  lemma InSnoc(ids: seq<int>, id: int, n: int)
    ensures n in ids + [id] <==> n in ids || n == id
  {
  }

  lemma BodyRandom(h: Hashing, s: State)
    requires Body(h, s, s.info.Keys)
    ensures RandomOk(s.info, s.random)
  {
  }

  lemma NothingPruned(h: Hashing, s: State)
    requires Body(h, s, s.info.Keys)
    ensures Pruned(h, s, [], s)
  {
    hide Body;
  }

  lemma AllDoomedFront(s: State, ids: seq<int>)
    requires AllDoomed(s, ids) && ids != []
    ensures var k := |ids| - 1; AllDoomed(s, ids[..k]) && ids[k] in Doomed(s) && ids[k] !in ids[..k]
  {
    hide Doomed;
  }

  lemma StillKnown(h: Hashing, s: State, ids: seq<int>, t: State, id: int)
    requires Pruned(h, s, ids, t) && id in Doomed(s) && id !in ids
    ensures id in t.info
  {
    hide Body;
  }

  lemma {:induction false} PruneReads(h: Hashing, s: State, ids: seq<int>)
    requires Body(h, s, s.info.Keys) && Dense(s) && AllDoomed(s, ids)
    ensures Pruned(h, s, ids, PruneAll(s, ids)) && Dense(PruneAll(s, ids))
    decreases |ids|
  {
    hide Body, Dense, Pruned, AllDoomed, Doomed, Delete;
    if ids == [] {
      NothingPruned(h, s);
    } else {
      var k := |ids| - 1;
      AllDoomedFront(s, ids);
      PruneReads(h, s, ids[..k]);
      var t := PruneAll(s, ids[..k]);
      assert ids == ids[..k] + [ids[k]];
      StillKnown(h, s, ids[..k], t, ids[k]);
      PruneOne(h, s, ids[..k], t, ids[k]);
      DeleteDense(t, ids[k]);
    }
  }

  /** An entry that will stay shares its address with no other entry that was loaded. */
  ghost predicate Unshared(s: State) {
    forall n, k :: n in s.info && k in s.info && n != k && n !in Doomed(s) ==> s.info[n].svc.addr != s.info[k].svc.addr
  }

  lemma PrunedAddr(h: Hashing, s: State, ids: seq<int>, t: State)
    requires Pruned(h, s, ids, t) && AddrWeak(s.info, s.byAddr, s.idCount) && forall n :: n in ids <==> n in Doomed(s)
    ensures AddrOk(t.info, t.byAddr, t.idCount) <==> Unshared(s)
  {
    hide Body;
    if Unshared(s) {
      forall n | n in t.info ensures t.info[n].svc.addr in t.byAddr && t.byAddr[t.info[n].svc.addr] == n {
        assert IdOf(s.byAddr, s.info[n].svc.addr) == n;
      }
      forall a | a in t.byAddr ensures IdOf(t.byAddr, a) in t.info && t.info[IdOf(t.byAddr, a)].svc.addr == a {
        assert IdOf(t.byAddr, a) == IdOf(s.byAddr, a);
      }
    }
    if AddrOk(t.info, t.byAddr, t.idCount) {
      forall n, k | n in s.info && k in s.info && n != k && n !in Doomed(s) ensures s.info[n].svc.addr != s.info[k].svc.addr {
        assert n in t.info && t.info[n].svc.addr in t.byAddr;
        if k !in ids { assert k in t.info; }
      }
    }
  }

  lemma PrunedRefs(h: Hashing, s: State, ids: seq<int>, t: State)
    requires Pruned(h, s, ids, t) && forall n :: n in ids <==> n in Doomed(s)
    ensures RefOk(t.info, t.news, {})
  {
    hide RandomOk, NewOk, TriedOk, CountOk, Slots;
    forall n | n in t.info && !t.info[n].inTried ensures t.info[n].refCount >= 1 {
      assert n !in Doomed(s);
    }
  }

  lemma EnumeratesDoomed(s: State, ids: seq<int>)
    requires Sets.Enumerates(ids, {}, Doomed(s))
    ensures AllDoomed(s, ids) && forall n :: n in ids <==> n in Doomed(s)
  {
    hide Doomed;
  }

  // ----- the condition on the records ------------------------------------------------------------

  /** Without a usable table each new record takes its home slot if that is free. */
  ghost function TakeHome(h: Hashing, key: nat, rs: seq<Record>, k: nat): map<Slot, int>
    requires k <= |rs|
  {
    if k == 0 then map[]
    else
      var news, sl := TakeHome(h, key, rs, k - 1), NewSlot(h, key, rs[k - 1].svc, rs[k - 1].source);
      if sl in news then news else news[sl := k - 1]
  }

  /** A listed record takes its slot of the bucket if that is free and it has fewer than eight. */
  ghost function TakeIndex(h: Hashing, key: nat, rs: seq<Record>, news: map<Slot, int>, b: nat, x: int): map<Slot, int> {
    if 0 <= x < |rs| then
      var sl := NewSlotIn(h, key, rs[x].svc, b);
      if sl !in news && |Slots(news, x)| < BUCKETS_PER_ADDRESS then news[sl := x] else news
    else news
  }

  ghost function TakeBucket(h: Hashing, key: nat, rs: seq<Record>, news: map<Slot, int>, b: nat, xs: seq<int>): map<Slot, int> {
    if xs == [] then news
    else TakeIndex(h, key, rs, TakeBucket(h, key, rs, news, b, xs[..|xs| - 1]), b, xs[|xs| - 1])
  }

  ghost function TakeBuckets(h: Hashing, key: nat, rs: seq<Record>, buckets: seq<seq<int>>): map<Slot, int> {
    if buckets == [] then map[]
    else
      var b := |buckets| - 1;
      TakeBucket(h, key, rs, TakeBuckets(h, key, rs, buckets[..b]), b, buckets[b])
  }

  /** Which new record ends up in which slot. */
  ghost function NewTable(h: Hashing, d: Disk): map<Slot, int> {
    if Usable(h, d) then TakeBuckets(h, d.key, d.newRecs, d.buckets) else TakeHome(h, d.key, d.newRecs, |d.newRecs|)
  }

  /** A tried record finds its slot free if it is the first to want it. */
  ghost predicate FirstOfSlot(h: Hashing, key: nat, rs: seq<Record>, m: nat) {
    m < |rs| && forall j :: 0 <= j < m ==> TriedSlot(h, key, rs[j].svc) != TriedSlot(h, key, rs[m].svc)
  }

  /** Record i of the file, new ones first, becomes an entry. */
  ghost predicate Enters(h: Hashing, d: Disk, i: nat) {
    i < |d.newRecs| || FirstOfSlot(h, d.key, d.triedRecs, i - |d.newRecs|)
  }

  /** It also stays: a new record needs a slot. */
  ghost predicate Remains(h: Hashing, d: Disk, i: nat) {
    if i < |d.newRecs| then Slots(NewTable(h, d), i) != {} else Enters(h, d, i)
  }

  ghost function AddrAt(d: Disk, i: nat): NetAddr
    requires i < |d.newRecs + d.triedRecs|
  {
    (d.newRecs + d.triedRecs)[i].svc.addr
  }

  /** No record that stays shares its address with another one that becomes an entry. */
  ghost predicate FileUnshared(h: Hashing, d: Disk) {
    var n := |d.newRecs + d.triedRecs|;
    forall i: nat, j: nat :: i < n && j < n && i != j && Remains(h, d, i) && Enters(h, d, j) ==> AddrAt(d, i) != AddrAt(d, j)
  }

  /** New ids are positions in the list of new records. */
  ghost predicate NewMirror(d: Disk, info: map<int, Info>) {
    forall n :: 0 <= n < |d.newRecs| ==> n in info && info[n].svc == d.newRecs[n].svc
  }

  /** The first k new records have been read. */
  ghost predicate NewSoFar(h: Hashing, d: Disk, g: State, usable: bool, k: nat)
    requires k <= |d.newRecs|
  {
    && g.key == d.key && g.idCount == k && g.tried == map[]
    && g.news == (if usable then map[] else TakeHome(h, d.key, d.newRecs, k))
    && (forall n :: n in g.info <==> 0 <= n < k) && (forall n :: 0 <= n < k ==> n in g.info && g.info[n].svc == d.newRecs[n].svc)
  }

  lemma NewSoFarNext(h: Hashing, d: Disk, g: State, usable: bool, k: nat)
    requires k < |d.newRecs| && NewSoFar(h, d, g, usable, k)
    ensures NewSoFar(h, d, LoadNewOne(h, g, d.newRecs[k], usable), usable, k + 1)
  {
    var t := LoadNewOne(h, g, d.newRecs[k], usable);
    assert t.info.Keys == g.info.Keys + {k};
    assert t.info[k].svc == d.newRecs[k].svc;
  }

  lemma {:induction false} NewMirrors(h: Hashing, d: Disk, c: set<int>, usable: bool, k: nat)
    requires k <= |d.newRecs|
    ensures NewSoFar(h, d, LoadNew(h, Blank(d, c), d.newRecs[..k], usable), usable, k)
  {
    if k > 0 {
      hide NewSoFar, LoadNewOne;
      NewMirrors(h, d, c, usable, k - 1);
      assert d.newRecs[..k][..k - 1] == d.newRecs[..k - 1];
      NewSoFarNext(h, d, LoadNew(h, Blank(d, c), d.newRecs[..k - 1], usable), usable, k - 1);
    }
  }

  /** Each first record of a slot sits there, and nobody else. */
  ghost predicate TriedMirror(h: Hashing, s: State, rs: seq<Record>, base: int) {
    && (forall m: nat :: FirstOfSlot(h, s.key, rs, m) ==> Holds(s, TriedSlot(h, s.key, rs[m].svc), rs[m].svc, base))
    && (forall sl :: sl in s.tried ==> exists m: nat :: FirstOfSlot(h, s.key, rs, m) && TriedSlot(h, s.key, rs[m].svc) == sl)
  }

  ghost predicate Holds(s: State, sl: Slot, svc: Service, base: int) {
    sl in s.tried && IdOf(s.tried, sl) in s.info && s.info[IdOf(s.tried, sl)].svc == svc && IdOf(s.tried, sl) >= base
  }

  /** What loading tried records leaves alone. */
  ghost predicate Extends(s: State, t: State) {
    && t.key == s.key && t.news == s.news && t.idCount >= s.idCount
    && (forall n :: n in s.info ==> n in t.info && t.info[n] == s.info[n])
    && (forall n :: n in t.info ==> n < t.idCount)
  }

  lemma TriedMirrorNext(h: Hashing, s: State, g: State, rs: seq<Record>, r: Record)
    requires Extends(s, g) && TriedMirror(h, g, rs, s.idCount) && s.idCount >= 0
    ensures Extends(s, LoadTriedOne(h, g, r)) && TriedMirror(h, LoadTriedOne(h, g, r), rs + [r], s.idCount)
  {
    TriedOneExtends(h, s, g, r);
    hide LoadTriedOne, Holds, FirstOfSlot;
    var t, all := LoadTriedOne(h, g, r), rs + [r];
    forall m: nat | FirstOfSlot(h, t.key, all, m) ensures Holds(t, TriedSlot(h, t.key, all[m].svc), all[m].svc, s.idCount) {
      FirstHolds(h, g, rs, r, s.idCount, m);
    }
    forall sl | sl in t.tried ensures exists m: nat :: FirstOfSlot(h, t.key, all, m) && TriedSlot(h, t.key, all[m].svc) == sl {
      var m := HeldFirst(h, g, rs, r, s.idCount, sl);
    }
  }

  lemma TriedOneExtends(h: Hashing, s: State, g: State, r: Record)
    requires Extends(s, g)
    ensures Extends(s, LoadTriedOne(h, g, r)) && LoadTriedOne(h, g, r).key == g.key
  {
  }

  lemma FirstHolds(h: Hashing, g: State, rs: seq<Record>, r: Record, base: int, m: nat)
    requires TriedMirror(h, g, rs, base) && 0 <= base <= g.idCount && (forall n :: n in g.info ==> n < g.idCount)
    requires FirstOfSlot(h, g.key, rs + [r], m)
    ensures Holds(LoadTriedOne(h, g, r), TriedSlot(h, g.key, (rs + [r])[m].svc), (rs + [r])[m].svc, base)
  {
    var all, ts := rs + [r], TriedSlot(h, g.key, r.svc);
    if m < |rs| {
      FirstPrefix(h, g.key, rs, r, m);
      assert Holds(g, TriedSlot(h, g.key, rs[m].svc), rs[m].svc, base);
    } else {
      forall j: nat | FirstOfSlot(h, g.key, rs, j) ensures TriedSlot(h, g.key, rs[j].svc) != ts { assert all[j] == rs[j]; }
      assert ts !in g.tried;
    }
  }

  lemma HeldFirst(h: Hashing, g: State, rs: seq<Record>, r: Record, base: int, sl: Slot) returns (m: nat)
    requires TriedMirror(h, g, rs, base) && sl in LoadTriedOne(h, g, r).tried
    ensures FirstOfSlot(h, g.key, rs + [r], m) && TriedSlot(h, g.key, (rs + [r])[m].svc) == sl
  {
    if sl in g.tried {
      m :| FirstOfSlot(h, g.key, rs, m) && TriedSlot(h, g.key, rs[m].svc) == sl;
      FirstPrefix(h, g.key, rs, r, m);
    } else {
      NewSlotFirst(h, g, rs, r, base);
      m := |rs|;
    }
  }

  lemma FirstPrefix(h: Hashing, key: nat, rs: seq<Record>, r: Record, m: nat)
    requires m < |rs|
    ensures FirstOfSlot(h, key, rs + [r], m) <==> FirstOfSlot(h, key, rs, m)
    ensures (rs + [r])[m] == rs[m]
  {
    var all := rs + [r];
    forall j | 0 <= j <= m ensures all[j] == rs[j] { }
  }

  /** A record whose slot is still free is the first to want it. */
  lemma NewSlotFirst(h: Hashing, g: State, rs: seq<Record>, r: Record, base: int)
    requires TriedMirror(h, g, rs, base) && TriedSlot(h, g.key, r.svc) !in g.tried
    ensures FirstOfSlot(h, g.key, rs + [r], |rs|)
  {
    var all := rs + [r];
    forall j | 0 <= j < |rs| ensures TriedSlot(h, g.key, all[j].svc) != TriedSlot(h, g.key, r.svc) {
      var m := Earliest(h, g.key, rs, j);
      assert Holds(g, TriedSlot(h, g.key, rs[m].svc), rs[m].svc, base);
    }
  }

  lemma {:induction false} Earliest(h: Hashing, key: nat, rs: seq<Record>, j: nat) returns (m: nat)
    requires j < |rs|
    ensures m <= j && FirstOfSlot(h, key, rs, m) && TriedSlot(h, key, rs[m].svc) == TriedSlot(h, key, rs[j].svc)
    decreases j
  {
    if FirstOfSlot(h, key, rs, j) {
      m := j;
    } else {
      var i :| 0 <= i < j && TriedSlot(h, key, rs[i].svc) == TriedSlot(h, key, rs[j].svc);
      m := Earliest(h, key, rs, i);
    }
  }

  lemma {:induction false} TriedMirrors(h: Hashing, s: State, rs: seq<Record>)
    requires s.tried == map[] && s.idCount >= 0 && forall n :: n in s.info ==> n < s.idCount
    ensures Extends(s, LoadTried(h, s, rs)) && TriedMirror(h, LoadTried(h, s, rs), rs, s.idCount)
  {
    hide LoadTriedOne, TriedMirror, Extends;
    if rs == [] {
      TriedMirrorNone(h, s);
    } else {
      var m := |rs| - 1;
      TriedMirrors(h, s, rs[..m]);
      TriedMirrorNext(h, s, LoadTried(h, s, rs[..m]), rs[..m], rs[m]);
      assert rs == rs[..m] + [rs[m]];
    }
  }

  lemma TriedMirrorNone(h: Hashing, s: State)
    requires s.tried == map[] && forall n :: n in s.info ==> n < s.idCount
    ensures Extends(s, s) && TriedMirror(h, s, [], s.idCount)
  {
  }

  /** Reading the buckets changes reference counts and the new table only. */
  ghost predicate Relisted(s: State, t: State) {
    t == s.(info := t.info, news := t.news) && SameShape(s.info, t.info)
  }

  lemma IndexMirror(h: Hashing, d: Disk, s: State, b: nat, x: int)
    requires Read(h, s) && s.key == d.key && s.nNew == |d.newRecs| && NewMirror(d, s.info)
    ensures var t := LoadIndex(h, s, b, x, true);
            Relisted(s, t) && NewMirror(d, t.info) && t.news == TakeIndex(h, d.key, d.newRecs, s.news, b, x)
  {
    hide AddrWeak, RandomOk, NewOk, TriedOk, CountOk, Slots;
    if 0 <= x < s.nNew {
      assert x in s.info && s.info[x].refCount == |Slots(s.news, x)|;
    }
  }

  lemma {:induction false} BucketMirror(h: Hashing, d: Disk, s: State, b: nat, xs: seq<int>)
    requires Read(h, s) && s.key == d.key && s.nNew == |d.newRecs| && NewMirror(d, s.info) && b < h.newCount
    ensures var t := LoadBucket(h, s, b, xs, true);
            Relisted(s, t) && NewMirror(d, t.info) && t.news == TakeBucket(h, d.key, d.newRecs, s.news, b, xs)
    decreases |xs|
  {
    hide Read, LoadIndex, NewMirror, TakeIndex;
    if xs != [] {
      var k := |xs| - 1;
      BucketMirror(h, d, s, b, xs[..k]);
      BucketReads(h, s, b, xs[..k], true);
      IndexMirror(h, d, LoadBucket(h, s, b, xs[..k], true), b, xs[k]);
    }
  }

  lemma {:induction false} BucketsMirror(h: Hashing, d: Disk, s: State, buckets: seq<seq<int>>)
    requires Read(h, s) && s.key == d.key && s.nNew == |d.newRecs| && NewMirror(d, s.info) && s.news == map[] && |buckets| <= h.newCount
    ensures var t := LoadBuckets(h, s, buckets, true);
            Relisted(s, t) && t.news == TakeBuckets(h, d.key, d.newRecs, buckets) && NewMirror(d, t.info)
    decreases |buckets|
  {
    hide Read, LoadBucket, NewMirror, TakeBucket;
    if buckets != [] {
      var b := |buckets| - 1;
      BucketsMirror(h, d, s, buckets[..b]);
      BucketsRead(h, s, buckets[..b], true);
      BucketMirror(h, d, LoadBuckets(h, s, buckets[..b], true), b, buckets[b]);
    }
  }

  lemma {:induction false} BucketsIdle(h: Hashing, s: State, buckets: seq<seq<int>>)
    ensures LoadBuckets(h, s, buckets, false) == s
    decreases |buckets|
  {
    if buckets != [] {
      var b := |buckets| - 1;
      BucketsIdle(h, s, buckets[..b]);
      BucketIdle(h, s, b, buckets[b]);
    }
  }

  lemma {:induction false} BucketIdle(h: Hashing, s: State, b: nat, xs: seq<int>)
    ensures LoadBucket(h, s, b, xs, false) == s
    decreases |xs|
  {
    if xs != [] { BucketIdle(h, s, b, xs[..|xs| - 1]); }
  }

  /** The loaded state in terms of the records. */
  lemma LoadMirrors(h: Hashing, d: Disk, c: set<int>)
    requires Shaped(d) && d.nNew >= 0 && d.nTried >= 0
    ensures var s := Load(h, d, c);
            && s.key == d.key && s.nNew == |d.newRecs| && NewMirror(d, s.info) && s.news == NewTable(h, d)
            && TriedMirror(h, s, d.triedRecs, |d.newRecs|)
  {
    hide Reading, Read, LoadNew, LoadTried, LoadBuckets, TakeBuckets, TakeHome, BucketCount, TriedMirror;
    var usable := Usable(h, d);
    NewMirrors(h, d, c, usable, |d.newRecs|);
    NewReads(h, d, c, usable, |d.newRecs|);
    assert d.newRecs[..|d.newRecs|] == d.newRecs;
    var s := LoadNew(h, Blank(d, c), d.newRecs, usable);
    assert s.(idCount := d.nNew) == s;
    TriedMirrors(h, s, d.triedRecs);
    TriedReads(h, s, d.triedRecs, d.nNew);
    var g := LoadTried(h, s, d.triedRecs);
    assert g.(nNew := d.nNew, nTried := |d.triedRecs| + g.nTried - s.nTried) == g;
    ReadingDone(h, g, d.nNew);
    if usable {
      BucketsMirror(h, d, g, d.buckets);
      RelistedTried(h, g, Load(h, d, c), d.triedRecs, |d.newRecs|);
    } else {
      BucketsIdle(h, g, d.buckets);
    }
  }

  lemma ReadingDone(h: Hashing, g: State, nNew: int)
    requires Reading(h, g, nNew, nNew, g.nTried) && g.nNew == nNew
    ensures Read(h, g)
  {
    assert g.(nNew := nNew, nTried := g.nTried) == g;
  }

  lemma RelistedTried(h: Hashing, s: State, t: State, rs: seq<Record>, base: int)
    requires TriedMirror(h, s, rs, base) && Relisted(s, t)
    ensures TriedMirror(h, t, rs, base)
  {
    forall m: nat | FirstOfSlot(h, t.key, rs, m) ensures Holds(t, TriedSlot(h, t.key, rs[m].svc), rs[m].svc, base) {
      assert Holds(s, TriedSlot(h, s.key, rs[m].svc), rs[m].svc, base);
    }
  }

  /** The id that record i got. */
  ghost function IdFor(h: Hashing, d: Disk, s: State, i: nat): int
    requires i < |d.newRecs| || (i - |d.newRecs| < |d.triedRecs| && TriedSlot(h, d.key, d.triedRecs[i - |d.newRecs|].svc) in s.tried)
  {
    if i < |d.newRecs| then i else IdOf(s.tried, TriedSlot(h, d.key, d.triedRecs[i - |d.newRecs|].svc))
  }

  lemma IdForIs(h: Hashing, d: Disk, s: State, i: nat)
    requires s.key == d.key && NewMirror(d, s.info) && TriedMirror(h, s, d.triedRecs, |d.newRecs|)
    requires i < |d.newRecs + d.triedRecs| && Enters(h, d, i)
    ensures i < |d.newRecs| || TriedSlot(h, d.key, d.triedRecs[i - |d.newRecs|].svc) in s.tried
    ensures IdFor(h, d, s, i) in s.info && s.info[IdFor(h, d, s, i)].svc.addr == AddrAt(d, i)
    ensures i >= |d.newRecs| ==> IdFor(h, d, s, i) >= |d.newRecs|
  {
    hide FirstOfSlot;
    if i >= |d.newRecs| {
      var m := i - |d.newRecs|;
      assert Holds(s, TriedSlot(h, s.key, d.triedRecs[m].svc), d.triedRecs[m].svc, |d.newRecs|);
    }
  }

  lemma IdForInjective(h: Hashing, d: Disk, s: State, i: nat, j: nat)
    requires s.key == d.key && NewMirror(d, s.info) && TriedMirror(h, s, d.triedRecs, |d.newRecs|) && TriedOk(h, s.key, s.info, s.tried)
    requires i < j < |d.newRecs + d.triedRecs| && Enters(h, d, i) && Enters(h, d, j)
    ensures i < |d.newRecs| || TriedSlot(h, d.key, d.triedRecs[i - |d.newRecs|].svc) in s.tried
    ensures j < |d.newRecs| || TriedSlot(h, d.key, d.triedRecs[j - |d.newRecs|].svc) in s.tried
    ensures IdFor(h, d, s, i) != IdFor(h, d, s, j)
  {
    hide TriedMirror, NewMirror;
    IdForIs(h, d, s, i);
    IdForIs(h, d, s, j);
  }

  /** Every entry comes from a record. */
  lemma RecordOf(h: Hashing, d: Disk, s: State, n: int) returns (i: nat)
    requires Read(h, s) && s.key == d.key && s.nNew == |d.newRecs| && NewMirror(d, s.info) && TriedMirror(h, s, d.triedRecs, |d.newRecs|)
    requires n in s.info
    ensures i < |d.newRecs + d.triedRecs| && Enters(h, d, i)
    ensures i < |d.newRecs| || TriedSlot(h, d.key, d.triedRecs[i - |d.newRecs|].svc) in s.tried
    ensures IdFor(h, d, s, i) == n && (n < |d.newRecs| <==> i < |d.newRecs|)
  {
    hide Read, NewMirror, TriedMirror, FirstOfSlot, TriedSlot;
    ReadEntry(h, s, n);
    if n < s.nNew {
      i := n;
    } else {
      var m := SlotRecord(h, s, d.triedRecs, |d.newRecs|, TriedSlot(h, s.key, s.info[n].svc));
      i := |d.newRecs| + m;
      assert i - |d.newRecs| == m;
    }
  }

  lemma SlotRecord(h: Hashing, s: State, rs: seq<Record>, base: int, sl: Slot) returns (m: nat)
    requires TriedMirror(h, s, rs, base) && sl in s.tried
    ensures m < |rs| && FirstOfSlot(h, s.key, rs, m) && TriedSlot(h, s.key, rs[m].svc) == sl
  {
    m :| FirstOfSlot(h, s.key, rs, m) && TriedSlot(h, s.key, rs[m].svc) == sl;
  }

  lemma ReadEntry(h: Hashing, s: State, n: int)
    requires Read(h, s) && n in s.info
    ensures n >= 0
    ensures n >= s.nNew ==> var sl := TriedSlot(h, s.key, s.info[n].svc); sl in s.tried && IdOf(s.tried, sl) == n
  {
    hide RandomOk, NewOk, RefOk, CountOk;
  }

  lemma DoomedIs(h: Hashing, d: Disk, s: State, i: nat)
    requires Read(h, s) && s.key == d.key && s.nNew == |d.newRecs| && NewMirror(d, s.info) && s.news == NewTable(h, d)
    requires TriedMirror(h, s, d.triedRecs, |d.newRecs|) && i < |d.newRecs + d.triedRecs| && Enters(h, d, i)
    ensures i < |d.newRecs| || TriedSlot(h, d.key, d.triedRecs[i - |d.newRecs|].svc) in s.tried
    ensures IdFor(h, d, s, i) in Doomed(s) <==> !Remains(h, d, i)
  {
    hide RandomOk, NewOk, TriedOk, CountOk, NewTable, TriedMirror, AddrWeak;
    IdForIs(h, d, s, i);
    var n := IdFor(h, d, s, i);
    if i < |d.newRecs| { assert s.info[n].refCount == |Slots(s.news, n)|; }
  }

  /** No shared address among the entries is no shared address among the records. */
  lemma UnsharedIff(h: Hashing, d: Disk, c: set<int>)
    requires Shaped(d) && d.nNew >= 0 && d.nTried >= 0
    ensures Unshared(Load(h, d, c)) <==> FileUnshared(h, d)
  {
    hide Load, Enters, Remains, Doomed, TriedMirror, NewMirror, NewTable, RandomOk, NewOk, TriedOk, RefOk, CountOk, AddrWeak, Split, IdFor, AddrAt;
    LoadMirrors(h, d, c);
    LoadReads(h, d, c);
    var s, n := Load(h, d, c), |d.newRecs + d.triedRecs|;
    if FileUnshared(h, d) {
      forall a, b | a in s.info && b in s.info && a != b && a !in Doomed(s) ensures s.info[a].svc.addr != s.info[b].svc.addr {
        var i := RecordOf(h, d, s, a);
        var j := RecordOf(h, d, s, b);
        IdForIs(h, d, s, i);
        IdForIs(h, d, s, j);
        DoomedIs(h, d, s, i);
      }
    }
    if Unshared(s) {
      forall i: nat, j: nat | i < n && j < n && i != j && Remains(h, d, i) && Enters(h, d, j) ensures AddrAt(d, i) != AddrAt(d, j) {
        RemainsEnters(h, d, i);
        IdForIs(h, d, s, i);
        IdForIs(h, d, s, j);
        if i < j { IdForInjective(h, d, s, i, j); } else { IdForInjective(h, d, s, j, i); }
        DoomedIs(h, d, s, i);
      }
    }
  }

  lemma RemainsEnters(h: Hashing, d: Disk, i: nat)
    requires Remains(h, d, i)
    ensures Enters(h, d, i)
  {
  }

  ghost predicate DistinctRecords(rs: seq<Record>) {
    forall i, j :: 0 <= i < j < |rs| ==> rs[i].svc.addr != rs[j].svc.addr
  }

  /** Records with different addresses are enough. */
  lemma DistinctUnshared(h: Hashing, d: Disk)
    requires DistinctRecords(d.newRecs + d.triedRecs)
    ensures FileUnshared(h, d)
  {
    hide Enters, Remains;
  }

  // ----- negative counts ---------------------------------------------------------------------

  lemma {:induction false} NewCounts(h: Hashing, s: State, rs: seq<Record>, usable: bool)
    ensures var t := LoadNew(h, s, rs, usable); t.nNew == s.nNew && t.nTried == s.nTried
  {
    if rs != [] { NewCounts(h, s, rs[..|rs| - 1], usable); }
  }

  lemma {:induction false} TriedCounts(h: Hashing, s: State, rs: seq<Record>)
    ensures var t := LoadTried(h, s, rs); t.nNew == s.nNew && t.nTried <= s.nTried
  {
    if rs != [] { TriedCounts(h, s, rs[..|rs| - 1]); }
  }

  lemma {:induction false} BucketCounts(h: Hashing, s: State, b: nat, xs: seq<int>, usable: bool)
    ensures var t := LoadBucket(h, s, b, xs, usable); t.nNew == s.nNew && t.nTried == s.nTried
    decreases |xs|
  {
    if xs != [] { BucketCounts(h, s, b, xs[..|xs| - 1], usable); }
  }

  lemma {:induction false} BucketsCounts(h: Hashing, s: State, buckets: seq<seq<int>>, usable: bool)
    ensures var t := LoadBuckets(h, s, buckets, usable); t.nNew == s.nNew && t.nTried == s.nTried
    decreases |buckets|
  {
    hide LoadBucket;
    if buckets != [] {
      var b := |buckets| - 1;
      BucketsCounts(h, s, buckets[..b], usable);
      BucketCounts(h, LoadBuckets(h, s, buckets[..b], usable), b, buckets[b], usable);
    }
  }

  lemma {:induction false} PruneCounts(s: State, ids: seq<int>)
    requires Dense(s)
    ensures PruneAll(s, ids).nNew <= s.nNew && PruneAll(s, ids).nTried == s.nTried
    decreases |ids|
  {
    hide Dense;
    if ids != [] { PruneCounts(s, ids[..|ids| - 1]); }
  }

  /** The counters of the result are at most those in the file. */
  lemma LoadCounts(h: Hashing, d: Disk, c: set<int>, ids: seq<int>)
    requires Dense(Load(h, d, c))
    ensures var t := PruneAll(Load(h, d, c), ids); t.nNew <= d.nNew && t.nTried <= d.nTried
  {
    hide LoadNew, LoadTried, LoadBuckets, Dense, PruneAll;
    var usable := Usable(h, d);
    NewCounts(h, Blank(d, c), d.newRecs, usable);
    var s := LoadNew(h, Blank(d, c), d.newRecs, usable).(idCount := d.nNew);
    TriedCounts(h, s, d.triedRecs);
    BucketsCounts(h, LoadTried(h, s, d.triedRecs), d.buckets, usable);
    PruneCounts(Load(h, d, c), ids);
  }

  lemma CountsNonNegative(h: Hashing, s: State)
    requires Valid(h, s)
    ensures s.nNew >= 0 && s.nTried >= 0
  {
  }

  /**
   * A file loads into a consistent manager if and only if its counts are not
   * negative and no record that stays shares its address with another one that
   * becomes an entry, which can be read off the records and the bucket lists.
   */
  lemma LoadValidIff(h: Hashing, d: Disk, c: set<int>, ids: seq<int>)
    requires Shaped(d) && Dense(Load(h, d, c)) && Sets.Enumerates(ids, {}, Doomed(Load(h, d, c)))
    ensures Valid(h, PruneAll(Load(h, d, c), ids)) <==> d.nNew >= 0 && d.nTried >= 0 && FileUnshared(h, d)
    ensures DistinctRecords(d.newRecs + d.triedRecs) ==> FileUnshared(h, d)
  {
    hide Load, PruneAll, Dense, Doomed, Sets.Enumerates, Unshared, FileUnshared, DistinctRecords, RandomOk, NewOk, TriedOk, RefOk, CountOk, AddrOk, AddrWeak, Split;
    var s := Load(h, d, c);
    var t := PruneAll(s, ids);
    LoadCounts(h, d, c, ids);
    if DistinctRecords(d.newRecs + d.triedRecs) { DistinctUnshared(h, d); }
    if Valid(h, t) { CountsNonNegative(h, t); }
    if d.nNew >= 0 && d.nTried >= 0 {
      UnsharedIff(h, d, c);
      LoadReads(h, d, c);
      EnumeratesDoomed(s, ids);
      PruneReads(h, s, ids);
      PrunedAddr(h, s, ids, t);
      PrunedRefs(h, s, ids, t);
    }
  }
}
