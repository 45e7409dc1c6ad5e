/**
 * The address manager object.  Each method is proved against the state function
 * of the same purpose, so the results about tables, counts and runs apply to it.
 */
module AddrMan {
  import opened AddrManState
  import opened AddrManOps
  import opened AddrManRuns
  import opened AddrManCheck
  import Sets

  lemma ModWrap(x: nat, n: nat)
    requires n <= x < 2 * n
    ensures x % n == x - n
  {
    var q, r := x / n, x % n;
    assert x == n * q + r;
    assert q >= 2 ==> n * q >= 2 * n;
    assert q == 0 ==> n * q == 0;
  }

  /** Every bucket is visited by a cyclic search from any starting bucket. */
  lemma CyclicVisits(b: nat, start: nat, n: nat) returns (k: nat)
    requires b < n && start < n
    ensures k < n && (k + start) % n == b
  {
    k := if b >= start then b - start else b + n - start;
    if b < start { ModWrap(b + n, n); }
  }

  /** The state after buckets below b have been cleared of an id. */
  ghost function StripBelow(s: State, id: int, b: nat): State
    requires id in s.info
  {
    s.(news := map sl: Slot | sl in s.news && !(s.news[sl] == id && sl.0 < b) :: s.news[sl],
       info := s.info[id := s.info[id].(refCount := s.info[id].refCount - |SlotsBelow(s.news, id, b)|)])
  }

  ghost function SlotsBelow(news: map<Slot, int>, id: int, b: nat): set<Slot> {
    set sl: Slot | sl in news && news[sl] == id && sl.0 < b
  }

  lemma StripBelowStep(h: Hashing, s: State, id: int, b: nat)
    requires NewOk(h, s.key, s.info, s.news) && id in s.info
    ensures var sl := NewSlotIn(h, s.key, s.info[id].svc, b);
            var u := StripBelow(s, id, b);
            StripBelow(s, id, b + 1) ==
              if sl in u.news && u.news[sl] == id
              then u.(news := u.news - {sl}, info := u.info[id := u.info[id].(refCount := u.info[id].refCount - 1)])
              else u
  {
    var sl := NewSlotIn(h, s.key, s.info[id].svc, b);
    var u, v := StripBelow(s, id, b), StripBelow(s, id, b + 1);
    forall x: Slot | x in s.news && s.news[x] == id && x.0 == b ensures x == sl {
      assert IdOf(s.news, x) == id;
    }
    hide NewOk, NewSlotIn;
    var here := sl in s.news && s.news[sl] == id && sl.0 == b;
    StripBelowSlots(s.news, id, b, sl);
    assert v.news == if here then u.news - {sl} else u.news;
    assert v.info[id].refCount == u.info[id].refCount - if here then 1 else 0;
    assert v.info == u.info[id := u.info[id].(refCount := v.info[id].refCount)];
  }

  lemma StripBelowSlots(news: map<Slot, int>, id: int, b: nat, sl: Slot)
    requires forall x: Slot :: x in news && news[x] == id && x.0 == b ==> x == sl
    ensures |SlotsBelow(news, id, b + 1)| ==
            |SlotsBelow(news, id, b)| + if sl in news && news[sl] == id && sl.0 == b then 1 else 0
  {
    if sl in news && news[sl] == id && sl.0 == b {
      assert SlotsBelow(news, id, b + 1) == SlotsBelow(news, id, b) + {sl};
    } else {
      assert SlotsBelow(news, id, b + 1) == SlotsBelow(news, id, b);
    }
  }

  lemma StripBelowAll(h: Hashing, s: State, id: int)
    requires NewOk(h, s.key, s.info, s.news) && id in s.info
    ensures StripBelow(s, id, 0) == s
    ensures StripBelow(s, id, h.newCount).(nNew := s.nNew - 1) == Strip(s, id)
  {
    assert SlotsBelow(s.news, id, 0) == {};
    assert StripBelow(s, id, 0).news == s.news;
    assert s.info[id := s.info[id]] == s.info;
    assert SlotsBelow(s.news, id, h.newCount) == Slots(s.news, id);
    assert StripBelow(s, id, h.newCount).news == Strip(s, id).news;
  }

  predicate InBucket(h: Hashing, key: nat, svc: Service, news: map<Slot, int>, id: int, b: nat) {
    var sl := NewSlotIn(h, key, svc, b);
    sl in news && news[sl] == id
  }

  function Probe(k: nat, start: nat, n: nat): nat
    requires n > 0
  {
    (k + start) % n
  }

  lemma InSomeBucket(h: Hashing, key: nat, info: map<int, Info>, news: map<Slot, int>, id: int)
    requires NewOk(h, key, info, news) && id in info
    ensures Slots(news, id) != {} <==> exists b: nat :: b < h.newCount && InBucket(h, key, info[id].svc, news, id, b)
  {
    forall sl: Slot | sl in Slots(news, id) ensures sl.0 < h.newCount && InBucket(h, key, info[id].svc, news, id, sl.0) {
      assert IdOf(news, sl) == id;
    }
    forall b: nat | InBucket(h, key, info[id].svc, news, id, b) ensures Slots(news, id) != {} {
      assert NewSlotIn(h, key, info[id].svc, b) in Slots(news, id);
    }
    if forall b: nat :: b < h.newCount ==> !InBucket(h, key, info[id].svc, news, id, b) {
      forall sl: Slot ensures sl !in Slots(news, id) { }
      assert Slots(news, id) == {};
    }
  }

  class AddrMan {
    const h: Hashing

    var key: nat
    var idCount: int
    var info: map<int, Info>
    var byAddr: map<NetAddr, int>
    var random: seq<int>
    var nTried: int
    var tried: map<Slot, int>
    var nNew: int
    var news: map<Slot, int>
    var lastGood: int
    var collisions: set<int>

    ghost function S(): State
      reads this
    {
      State(key, idCount, info, byAddr, random, nTried, tried, nNew, news, lastGood, collisions)
    }

    constructor (h: Hashing, key: nat)
      ensures this.h == h && RunInv(h, S()) && TablesOf(S()) == Tables(map[], map[]) && collisions == {}
    {
      this.h, this.key, idCount, info, byAddr, random := h, key, 0, map[], map[], [];
      nTried, tried, nNew, news, lastGood, collisions := 0, map[], 0, map[], 1, {};
    }

    method SwapRandomPositions(i: nat, j: nat)
      requires RandomOk(info, random) && i < |random| && j < |random|
      modifies this
      ensures S() == SwapRandom(old(S()), i, j)
    {
      if i == j { return; }
      var n1, n2 := random[i], random[j];
      info := info[n1 := info[n1].(randomPos := j)];
      info := info[n2 := info[n2].(randomPos := i)];
      random := random[i := n2];
      random := random[j := n1];
    }

    /** Both asserts of Delete are preconditions here; callers establish them. */
    method DeleteEntry(id: int)
      requires RandomOk(info, random) && id in info && !info[id].inTried && info[id].refCount == 0
      modifies this
      ensures S() == Delete(old(S()), id)
    {
      RandomPosOk(info, random, id);
      MoveLastOk(S(), id);
      var svc := info[id].svc;
      SwapRandomPositions(info[id].randomPos, |random| - 1);
      random := random[..|random| - 1];
      byAddr := byAddr - {svc.addr};
      info := info - {id};
      nNew := nNew - 1;
    }

    method ClearNewSlot(sl: Slot, ghost loose: set<int>, ghost uncounted: set<int>)
      requires Inv(h, S(), loose, uncounted)
      modifies this
      ensures S() == ClearNew(old(S()), sl)
      ensures Inv(h, S(), loose, uncounted)
    {
      hide AddrOk, RandomOk, NewOk, TriedOk, RefOk, CountOk, Delete, View, TablesOf;
      ClearNewInv(h, S(), sl, loose, uncounted);
      if sl in news {
        UnrefKnown(h, S(), sl, loose, uncounted);
        UnrefInv(h, S(), sl, loose, uncounted);
        var id := news[sl];
        info := info[id := info[id].(refCount := info[id].refCount - 1)];
        news := news - {sl};
        if info[id].refCount == 0 {
          DeleteEntry(id);
        }
      }
    }
  
    /** Lines 145-152 of MakeTried: out of every new bucket. */
    method StripEntry(id: int)
      requires NewOk(h, key, info, news) && id in info
      modifies this
      ensures S() == Strip(old(S()), id)
    {
      hide NewOk, StripBelow, Strip;
      ghost var s := S();
      StripBelowAll(h, s, id);
      var svc := info[id].svc;
      for b := 0 to h.newCount
        invariant S() == StripBelow(s, id, b)
      {
        StripBelowStep(h, s, id, b);
        StripBelowShape(s, id, b);
        var sl := NewSlotIn(h, key, svc, b);
        if sl in news && news[sl] == id {
          news := news - {sl};
          info := info[id := info[id].(refCount := info[id].refCount - 1)];
        }
      }
      StripBelowShape(s, id, h.newCount);
      nNew := nNew - 1;
    }

    /** No assert of MakeTried can fail: the count reaches zero and the slot is free. */
    method MakeTriedEntry(id: int)
      requires Valid(h, S()) && id in info && !info[id].inTried
      modifies this
      ensures S() == MakeTried(h, old(S()), id) && Valid(h, S())
    {
      hide AddrOk, RandomOk, NewOk, TriedOk, RefOk, CountOk, View, TablesOf, Slots, Promote, Without;
      MakeTriedInv(h, S(), id);
      StripInv(h, S(), id);
      StripEntry(id);
      assert info[id].refCount == 0;
      MakeRoomInv(h, S(), id);
      var svc := info[id].svc;
      var ts := TriedSlot(h, key, svc);
      if ts in tried {
        EvictTried(ts, id);
      }
      assert ts !in tried;
      tried := tried[ts := id];
      nTried := nTried + 1;
      info := info[id := info[id].(inTried := true)];
    }

    /** Lines 161-182 of MakeTried: the occupant goes back to the new table. */
    method EvictTried(ts: Slot, id: int)
      requires Inv(h, S(), {id}, {id}) && id in info && !info[id].inTried && info[id].refCount == 0
      requires ts == TriedSlot(h, key, info[id].svc) && ts in tried
      modifies this
      ensures S() == MakeRoom(h, old(S()), id)
    {
      hide AddrOk, RandomOk, NewOk, TriedOk, RefOk, CountOk, View, TablesOf, Slots, ClearNew;
      ghost var s := S();
      var e := tried[ts];
      TriedKnown(h, s.key, s.info, s.tried, ts);
      UntryInv(h, s, e, {id}, {id});
      info := info[e := info[e].(inTried := false)];
      tried := tried - {ts};
      nTried := nTried - 1;
      assert S() == Untry(h, s, e);
      assert {id} + {e} == {id, e};
      var hs := NewSlot(h, key, info[e].svc, info[e].source);
      NotHolder(info, news, hs, e, {id, e});
      ClearNewInv(h, S(), hs, {id, e}, {id, e});
      ClearNewSlot(hs, {id, e}, {id, e});
      assert hs !in news;
      info := info[e := info[e].(refCount := 1)];
      news := news[hs := e];
      nNew := nNew + 1;
    }

    /** Good_; start is the random first bucket of the search. */
    method GoodService(svc: Service, testBeforeEvict: bool, time: int, start: nat)
      requires Sound(h, S()) && start < h.newCount
      modifies this
      ensures S() == Good(h, old(S()), svc, testBeforeEvict, time) && Sound(h, S())
      ensures old(Pending(h, S())) ==> Pending(h, S())
    {
      hide RandomOk, TriedOk, RefOk, CountOk, View, TablesOf, NewOk, AddrOk, MakeTried, Pending, Slots, Ages, InBucket;
      ghost var s := S();
      GoodStep(h, s, svc, testBeforeEvict, time);
      lastGood := time;
      if svc.addr !in byAddr { return; }
      KnownAddr(info, byAddr, idCount, news, svc.addr);
      var id := byAddr[svc.addr];
      if info[id].svc != svc { return; }
      info := info[id := info[id].(lastSuccess := time, lastTry := time, attempts := 0)];
      if info[id].inTried { return; }
      StatsInv(h, s.(lastGood := time), id, info[id]);
      var found := FindBucket(id, svc, start);
      if !found { return; }
      var ts := TriedSlot(h, key, svc);
      if testBeforeEvict && ts in tried {
        if |collisions| < MAX_COLLISIONS {
          collisions := collisions + {id};
        }
      } else {
        MakeTriedEntry(id);
      }
    }

    method FindBucket(id: int, svc: Service, start: nat) returns (found: bool)
      requires NewOk(h, key, info, news) && id in info && info[id].svc == svc && start < h.newCount
      ensures found <==> Slots(news, id) != {}
    {
      hide NewOk;
      InSomeBucket(h, key, info, news, id);
      for n := 0 to h.newCount
        invariant forall k: nat :: k < n ==> !InBucket(h, key, svc, news, id, Probe(k, start, h.newCount))
      {
        if InBucket(h, key, svc, news, id, Probe(n, start, h.newCount)) { return true; }
      }
      forall b: nat | b < h.newCount ensures !InBucket(h, key, svc, news, id, b) {
        var k := CyclicVisits(b, start, h.newCount);
        assert Probe(k, start, h.newCount) == b;
      }
      return false;
    }

    /** Add_; lucky is the outcome of the 1-in-2^n draw, now the adjusted time. */
    method AddAddress(a: Advert, source: NetAddr, penalty: int, now: int, lucky: bool) returns (isNew: bool)
      requires Sound(h, S())
      modifies this
      ensures S() == Add(h, old(S()), a, source, penalty, now, lucky) && Sound(h, S())
      ensures old(Pending(h, S())) ==> Pending(h, S())
      ensures isNew <==> h.routable(a.svc.addr) && a.svc.addr !in old(byAddr)
    {
      hide Inv, Pending, Create, Place, MayGrow, Refreshed;
      AddStep(h, S(), a, source, penalty, now, lucky);
      if !h.routable(a.svc.addr) { return false; }
      var pen := Penalty(a, source, penalty);
      if a.svc.addr in byAddr {
        AddKnownAddress(a, source, pen, now, lucky);
        return false;
      } else {
        CreateInv(h, S(), a.svc, source, Max(0, a.time - pen), a.services);
        CreateEntry(a, source, pen);
        PlaceEntry(idCount - 1, source, now);
        return true;
      }
    }

    method AddKnownAddress(a: Advert, source: NetAddr, pen: int, now: int, lucky: bool)
      requires Valid(h, S()) && a.svc.addr in byAddr
      modifies this
      ensures var s := old(S());
              var id := IdOf(s.byAddr, a.svc.addr);
              && id in s.info
              && var i := Refreshed(s.info[id], a, pen, now);
              var u := s.(info := s.info[id := i]);
              && Valid(h, u)
              && S() == if MayGrow(i, a, lucky) then Place(h, u, id, source, now) else u
    {
      hide RandomOk, TriedOk, RefOk, CountOk, View, TablesOf, NewOk, AddrOk, Place, Slots;
      KnownAddr(info, byAddr, idCount, news, a.svc.addr);
      var id := byAddr[a.svc.addr];
      StatsInv(h, S(), id, Refreshed(info[id], a, pen, now));
      info := info[id := Refreshed(info[id], a, pen, now)];
      if MayGrow(info[id], a, lucky) {
        Loosen(info, news, {}, {id});
        PlaceEntry(id, source, now);
      }
    }

    method CreateEntry(a: Advert, source: NetAddr, pen: int)
      requires idCount >= 0
      modifies this
      ensures S() == Create(old(S()), a.svc, source, Max(0, a.time - pen), a.services).(nNew := old(nNew) + 1)
      ensures idCount == old(idCount) + 1 && old(idCount) in info
      ensures !info[old(idCount)].inTried && info[old(idCount)].refCount == 0
    {
      var id := idCount;
      idCount := idCount + 1;
      info := info[id := Info(a.svc, source, a.time, a.services, 0, 0, 0, 0, 0, false, |random|)];
      byAddr := byAddr[a.svc.addr := id];
      random := random + [id];
      info := info[id := info[id].(time := Max(0, info[id].time - pen))];
      nNew := nNew + 1;
      assert info == Create(old(S()), a.svc, source, Max(0, a.time - pen), a.services).info;
    }

    /** Add_ from the bucket computation on. */
    method PlaceEntry(id: int, source: NetAddr, now: int)
      requires Inv(h, S(), {id}, {}) && id in info && !info[id].inTried && info[id].refCount < BUCKETS_PER_ADDRESS
      modifies this
      ensures S() == Place(h, old(S()), id, source, now)
    {
      hide AddrOk, RandomOk, NewOk, TriedOk, RefOk, CountOk, View, TablesOf, Slots, Delete;
      var sl := NewSlot(h, key, info[id].svc, source);
      NewKnown(h, key, info, news, sl);
      if sl in news && news[sl] == id { return; }
      var insert := sl !in news;
      if !insert {
        var e := info[news[sl]];
        insert := IsTerrible(e, now) || (e.refCount > 1 && info[id].refCount == 0);
      }
      if insert {
        ClearNewInv(h, S(), sl, {id}, {});
        ClearNewSlot(sl, {id}, {});
        info := info[id := info[id].(refCount := info[id].refCount + 1)];
        news := news[sl := id];
      } else if info[id].refCount == 0 {
        DeleteEntry(id);
      }
    }
  
    /** ResolveCollisions_: the pending ids in ascending order, each judged once. */
    method ResolveCollisions(now: int, start: nat) returns (ghost ids: seq<int>)
      requires Sound(h, S()) && start < h.newCount
      modifies this
      ensures S() == ResolveAll(h, old(S()), ids, now) && Sound(h, S()) && Ages(old(S()), S())
      ensures old(Pending(h, S())) ==> Pending(h, S())
      ensures Sets.Enumerates(ids, {}, old(collisions))
      ensures collisions <= old(collisions)
    {
      hide Sound, Pending, ResolveOne, ResolveAll, Ages, Sets.IsLeast, Sets.Enumerates;
      ghost var s := S();
      var todo := collisions;
      ids := [];
      ResolveAllSnoc(h, s, [], 0, now);
      ResolveAllNone(h, s, now);
      Sets.EnumeratesNone(todo);
      while todo != {}
        invariant S() == ResolveAll(h, s, ids, now) && Sound(h, S()) && Ages(s, S())
        invariant Pending(h, s) ==> Pending(h, S())
        invariant collisions <= old(collisions)
        invariant Sets.Enumerates(ids, todo, old(collisions))
        decreases |todo|
      {
        Sets.LeastExists(todo);
        var id :| Sets.IsLeast(todo, id);
        Sets.EnumeratesStep(ids, todo, old(collisions), id);
        ResolveAllSnoc(h, s, ids, id, now);
        ResolveEntry(id, now, start);
        ids := ids + [id];
        todo := todo - {id};
        ResolveAllSnoc(h, s, ids, id, now);
      }
    }

    method ResolveEntry(id: int, now: int, start: nat)
      requires Sound(h, S()) && start < h.newCount
      modifies this
      ensures S() == ResolveOne(h, old(S()), id, now) && Sound(h, S()) && collisions <= old(collisions)
    {
      hide Inv, Pending, Good, TablesOf, GoodTables;
      ResolveStep(h, S(), id, now);
      var erase := false;
      if id !in info {
        erase := true;
      } else {
        var i := info[id];
        var ts := TriedSlot(h, key, i.svc);
        GoodInv(h, S(), i.svc, false, now);
        if !h.valid(i.svc.addr) {
          erase := true;
        } else if ts in tried {
          TriedEntry(h, S(), ts);
          var o := info[tried[ts]];
          if now - o.lastSuccess < REPLACEMENT_SECONDS {
            erase := true;
          } else if now - o.lastTry < REPLACEMENT_SECONDS {
            if now - o.lastTry > 60 {
              GoodService(i.svc, false, now, start);
              erase := true;
            }
          }
        } else {
          GoodService(i.svc, false, now, start);
          erase := true;
        }
      }
      if erase {
        collisions := collisions - {id};
      }
    }

    /**
     * SelectTriedCollision_: pick is the random choice.  The answer is the entry
     * the pending one would evict; without an occupant it is a default entry that
     * the lookup of id -1 leaves behind.
     */
    method SelectTriedCollision(pick: int) returns (r: Result)
      requires Sound(h, S()) && (collisions != {} ==> pick in collisions)
      modifies this
      ensures S() == if old(collisions) == {} then old(S()) else SelectCollision(h, old(S()), pick)
      ensures Sound(h, S()) <==> !Breaks(h, old(S()), OpSelect(pick))
      ensures old(Pending(h, S())) ==> RunInv(h, S()) && (old(collisions) != {} ==> !LooksUpMinusOne(h, old(S()), pick))
      ensures r.Nothing? <==> old(collisions) == {} || pick !in old(info)
      ensures r.Entry? ==>
        if LooksUpMinusOne(h, old(S()), pick) then r.info == DEFAULT_ENTRY
        else r.info == info[tried[TriedSlot(h, key, info[pick].svc)]] && r.info.inTried
    {
      hide Inv;
      ghost var s := S();
      StepSoundIff(h, s, OpSelect(pick));
      if !Breaks(h, s, OpSelect(pick)) { StepInv(h, s, OpSelect(pick)); }
      if collisions == {} { return Nothing; }
      if pick !in info {
        collisions := collisions - {pick};
        return Nothing;
      }
      var ts := TriedSlot(h, key, info[pick].svc);
      TriedEntry(h, S(), ts);
      if ts in tried { return Entry(info[tried[ts]]); }
      MinusOneUnknown(h, S());
      info := info[-1 := DEFAULT_ENTRY];
      return Entry(info[-1]);
    }

    /**
     * GetAddr_: a random selection without repetition from the entries that are
     * not terrible: all of them, unless 23% of the known ones or 2500 are fewer.
     */
    method GetAddr(now: int) returns (v: seq<Info>)
      requires Valid(h, S())
      modifies this
      ensures Valid(h, S()) && TablesOf(S()) == old(TablesOf(S()))
      ensures Selection(v, byAddr, old(info), now)
      ensures |v| == Least(23 * |old(random)| / 100, 2500, |Decent(old(info), now)|)
    {
      hide AddrOk, RandomOk, NewOk, TriedOk, RefOk, CountOk, View, TablesOf, SwapRandom, IsTerrible, Picked, Selection, Decent;
      ghost var s := S();
      var nodes := 23 * |random| / 100;
      if nodes > 2500 { nodes := 2500; }
      v := [];
      ghost var ids: seq<int> := [];
      var n := 0;
      NothingPicked(s.info, now);
      while n < |random| && |v| < nodes
        invariant Valid(h, S()) && TablesOf(S()) == TablesOf(s)
        invariant |random| == |s.random| && byAddr == s.byAddr && idCount == s.idCount
        invariant SameUpToPos(s.info, info)
        invariant 0 <= n <= |random| && |v| <= nodes && Picked(v, ids, s.info, random[..n], now)
        decreases |random| - n
      {
        var r: nat :| n <= r < |random|;
        ghost var before := random;
        SwapRandomOk(S(), n, r);
        SwapTail(S(), n, r);
        SameUpToPosInv(h, S(), SwapRandom(S(), n, r), {}, {});
        SwapRandomPositions(n, r);
        RandomKnown(info, random, n);
        assert random[..n] == before[..n];
        var id := random[n];
        PickNext(v, ids, s.info, random[..n], id, info[id], now);
        if !IsTerrible(info[id], now) {
          v := v + [info[id]];
          ids := ids + [id];
        }
        assert random[..n + 1] == random[..n] + [id];
        n := n + 1;
      }
      PickedSelection(v, ids, s.info, random[..n], s.byAddr, s.idCount, now);
      PickedSize(v, ids, s.info, random[..n], now);
      if n == |random| {
        assert random[..n] == random;
        AllSeen(info, random);
        PickedAll(v, ids, s.info, random, now);
      }
    }

    /** Clear: the pending collisions stay. */
    method ClearAll(newKey: nat)
      modifies this
      ensures S() == Clear(old(S()), newKey) && Sound(h, S())
    {
      ClearSound(h, S(), newKey);
      random := [];
      key := newKey;
      news, tried := map[], map[];
      idCount, nTried, nNew, lastGood := 0, 0, 0, 1;
      info, byAddr := map[], map[];
    }

    /**
     * Check_: zero exactly for the states Checks describes.  Its lookups may add
     * addresses to the index, though never to that of a consistent manager.
     */
    method Check() returns (r: int)
      requires InTables(h, news, tried)
      modifies this`byAddr
      ensures r == 0 <==> Checks(h, old(S()))
      ensures Defaulted(old(byAddr), byAddr) && (Valid(h, old(S())) ==> S() == old(S()))
    {
      hide Inv, EntriesCheck, TriedOk, NewOk, RefsCheck, TriedIds, NewIds, CountsOf, Defaulted;
      ghost var s := S();
      if Valid(h, s) { ValidIndexed(h, s); }
      assert Defaulted(byAddr, byAddr) by { DefaultedSelf(byAddr); }
      if |random| != nTried + nNew { return -7; }
      var after, setTried, counts, code;
      code, after, setTried, counts := CheckEntries(info, byAddr, random);
      byAddr := after;
      if code != 0 { return code; }
      CountsSize(info, counts);
      if |setTried| != nTried { return -9; }
      if |counts| != nNew { return -10; }
      code, setTried := CheckTried(h, key, info, tried, setTried);
      if code != 0 { return code; }
      code, counts := CheckNew(h, key, info, news, counts);
      if code != 0 { return code; }
      if setTried != {} { return -13; }
      if counts != map[] { return -15; }
      if key == 0 { return -16; }
      return 0;
    }
  }

  function Least(a: int, b: int, c: int): int {
    if a <= b && a <= c then a else if b <= c then b else c
  }

  ghost function Decent(info: map<int, Info>, now: int): set<int> {
    set n | n in info && !IsTerrible(info[n], now)
  }

  /** Entries as they are stored, without repetition, and none terrible. */
  ghost predicate Selection(v: seq<Info>, byAddr: map<NetAddr, int>, info: map<int, Info>, now: int) {
    && (forall i :: 0 <= i < |v| ==>
          && v[i].svc.addr in byAddr && IdOf(byAddr, v[i].svc.addr) in info
          && SameEntry(v[i], info[IdOf(byAddr, v[i].svc.addr)]) && !IsTerrible(v[i], now))
    && (forall i, j :: 0 <= i < j < |v| ==> v[i].svc.addr != v[j].svc.addr)
  }

  datatype Result = Nothing | Entry(info: Info)

  lemma MinusOneUnknown(h: Hashing, s: State)
    requires Valid(h, s)
    ensures -1 !in s.info
  {
  }

  lemma TriedEntry(h: Hashing, s: State, ts: Slot)
    requires Valid(h, s)
    ensures ts in s.tried ==> IdOf(s.tried, ts) in s.info && s.info[IdOf(s.tried, ts)].inTried
  {
  }

  lemma SwapTail(s: State, n: nat, r: nat)
    requires RandomOk(s.info, s.random) && n <= r < |s.random|
    ensures SwapRandom(s, n, r).random[..n] == s.random[..n]
  {
  }

  lemma RandomKnown(info: map<int, Info>, random: seq<int>, n: nat)
    requires RandomOk(info, random) && n < |random|
    ensures random[n] in info && random[n] !in random[..n]
  {
    var id := random[n];
    assert info[id].randomPos == n;
    forall i | 0 <= i < n ensures random[i] != id {
      assert info[random[i]].randomPos == i;
    }
  }

  lemma AllSeen(info: map<int, Info>, random: seq<int>)
    requires RandomOk(info, random)
    ensures forall n :: n in info ==> n in random
  {
    forall n | n in info ensures n in random {
      assert random[info[n].randomPos] == n;
    }
  }

  /** The selection so far: the ids seen whose entry is not terrible. */
  ghost predicate Picked(v: seq<Info>, ids: seq<int>, info: map<int, Info>, seen: seq<int>, now: int) {
    && |v| == |ids|
    && (forall i :: 0 <= i < |ids| ==> ids[i] in Decent(info, now) && SameEntry(v[i], info[ids[i]]))
    && (forall i, j :: 0 <= i < j < |ids| ==> ids[i] != ids[j])
    && (forall n :: n in ids ==> n in seen)
    && (forall n :: n in seen && n in Decent(info, now) ==> n in ids)
  }

  lemma NothingPicked(info: map<int, Info>, now: int)
    ensures Picked([], [], info, [], now)
  {
  }

  lemma PickNext(v: seq<Info>, ids: seq<int>, info: map<int, Info>, seen: seq<int>, id: int, i: Info, now: int)
    requires Picked(v, ids, info, seen, now) && id !in seen && id in info && SameEntry(i, info[id])
    ensures if IsTerrible(i, now) then Picked(v, ids, info, seen + [id], now)
            else Picked(v + [i], ids + [id], info, seen + [id], now)
  {
    assert IsTerrible(i, now) == IsTerrible(info[id], now);
    if !IsTerrible(i, now) {
      assert id in Decent(info, now);
      assert forall n :: n in ids + [id] <==> n in ids || n == id;
    }
    assert forall n :: n in seen + [id] <==> n in seen || n == id;
  }

  lemma PickedSelection(v: seq<Info>, ids: seq<int>, info: map<int, Info>, seen: seq<int>,
                        byAddr: map<NetAddr, int>, idCount: int, now: int)
    requires Picked(v, ids, info, seen, now) && AddrOk(info, byAddr, idCount)
    ensures Selection(v, byAddr, info, now)
  {
    forall i | 0 <= i < |v| ensures v[i].svc.addr in byAddr && IdOf(byAddr, v[i].svc.addr) == ids[i] && !IsTerrible(v[i], now) {
      var id := ids[i];
      assert id in Decent(info, now) && SameEntry(v[i], info[id]);
    }
  }

  lemma {:induction false} DistinctSize(ids: seq<int>, all: set<int>)
    requires forall i :: 0 <= i < |ids| ==> ids[i] in all
    requires forall i, j :: 0 <= i < j < |ids| ==> ids[i] != ids[j]
    ensures |ids| <= |all|
    ensures (forall n :: n in all ==> n in ids) ==> |ids| == |all|
    decreases |ids|
  {
    if ids == [] {
      if forall n :: n in all ==> n in ids { assert all == {}; }
    } else {
      var k := |ids| - 1;
      DistinctSize(ids[..k], all - {ids[k]});
      if forall n :: n in all ==> n in ids {
        forall n | n in all - {ids[k]} ensures n in ids[..k] {
          var i :| 0 <= i < |ids| && ids[i] == n;
          assert ids[..k][i] == n;
        }
      }
    }
  }

  lemma PickedSize(v: seq<Info>, ids: seq<int>, info: map<int, Info>, seen: seq<int>, now: int)
    requires Picked(v, ids, info, seen, now)
    ensures |v| <= |Decent(info, now)|
  {
    hide Decent, IsTerrible;
    DistinctSize(ids, Decent(info, now));
  }

  lemma PickedAll(v: seq<Info>, ids: seq<int>, info: map<int, Info>, seen: seq<int>, now: int)
    requires Picked(v, ids, info, seen, now) && forall n :: n in info ==> n in seen
    ensures |v| == |Decent(info, now)|
  {
    hide IsTerrible;
    DistinctSize(ids, Decent(info, now));
  }

  lemma StripBelowShape(s: State, id: int, b: nat)
    requires id in s.info
    ensures var u := StripBelow(s, id, b);
            id in u.info && u.key == s.key && u.nNew == s.nNew && u.info[id].svc == s.info[id].svc && u.info.Keys == s.info.Keys
  {
  }

  lemma TriedKnown(h: Hashing, key: nat, info: map<int, Info>, tried: map<Slot, int>, ts: Slot)
    requires TriedOk(h, key, info, tried) && ts in tried
    ensures tried[ts] in info && info[tried[ts]].inTried && TriedSlot(h, key, info[tried[ts]].svc) == ts
  {
    assert IdOf(tried, ts) in info;
  }
}
