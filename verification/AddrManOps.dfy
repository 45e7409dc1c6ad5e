/**
 * The operations of the address manager on its state, what each does to the two
 * tables, and what holds in every run.
 */
module AddrManOps {
  import opened AddrManState
  import Sets

  // ----- moving an entry to tried -------------------------------------------------

  /** Remove an id from every new bucket; it is then counted nowhere. */
  ghost function Strip(s: State, id: int): State
    requires id in s.info
  {
    s.(news := map sl | sl in s.news && s.news[sl] != id :: s.news[sl],
       info := s.info[id := s.info[id].(refCount := s.info[id].refCount - |Slots(s.news, id)|)],
       nNew := s.nNew - 1)
  }

  /** Take an id out of its tried slot; it is then counted nowhere. */
  ghost function Untry(h: Hashing, s: State, id: int): State
    requires id in s.info
  {
    s.(tried := s.tried - {TriedSlot(h, s.key, s.info[id].svc)},
       info := s.info[id := s.info[id].(inTried := false)],
       nTried := s.nTried - 1)
  }

  /** Put an id that is counted nowhere into a new slot. */
  ghost function Enter(s: State, sl: Slot, id: int): State
    requires id in s.info
  {
    Ref(s.(nNew := s.nNew + 1), sl, id)
  }

  /** Put an id that is counted nowhere into its tried slot. */
  ghost function Try(h: Hashing, s: State, id: int): State
    requires id in s.info
  {
    s.(tried := s.tried[TriedSlot(h, s.key, s.info[id].svc) := id],
       info := s.info[id := s.info[id].(inTried := true)],
       nTried := s.nTried + 1)
  }

  lemma StripRef(info: map<int, Info>, news: map<Slot, int>, id: int)
    requires RefOk(info, news, {}) && id in info
    ensures var info' := info[id := info[id].(refCount := info[id].refCount - |Slots(news, id)|)];
            var news' := map sl | sl in news && news[sl] != id :: news[sl];
            RefOk(info', news', {id}) && info'[id].refCount == 0
  {
    var info' := info[id := info[id].(refCount := info[id].refCount - |Slots(news, id)|)];
    var news' := map sl | sl in news && news[sl] != id :: news[sl];
    forall n | n in info' ensures info'[n].refCount == |Slots(news', n)| <= BUCKETS_PER_ADDRESS {
      assert n in info;
      assert Slots(news', n) == if n == id then {} else Slots(news, n);
    }
  }

  lemma StripTable(h: Hashing, key: nat, info: map<int, Info>, byAddr: map<NetAddr, int>, idCount: int, news: map<Slot, int>, id: int)
    requires NewOk(h, key, info, news) && AddrOk(info, byAddr, idCount) && id in info
    ensures var news' := map sl | sl in news && news[sl] != id :: news[sl];
            && NewOk(h, key, info, news')
            && View(news', info) == Without(View(news, info), info[id].svc.addr)
  {
    var news' := map sl | sl in news && news[sl] != id :: news[sl];
    forall sl | sl in news'
      ensures sl.0 < h.newCount && IdOf(news', sl) in info && !info[IdOf(news', sl)].inTried
              && sl == NewSlotIn(h, key, info[IdOf(news', sl)].svc, sl.0)
    {
      assert IdOf(news', sl) == IdOf(news, sl);
    }
    forall sl | sl in news
      ensures IdOf(news, sl) in info
      ensures info[IdOf(news, sl)].svc.addr == info[id].svc.addr <==> news[sl] == id
    {
    }
    forall sl | sl in news' ensures IdOf(news', sl) == IdOf(news, sl) { }
    assert View(news', info) == Without(View(news, info), info[id].svc.addr);
  }

  ghost function Without(t: map<Slot, Peer>, a: NetAddr): map<Slot, Peer> {
    map sl | sl in t && t[sl].svc.addr != a :: t[sl]
  }

  lemma StripInv(h: Hashing, s: State, id: int)
    requires Valid(h, s) && id in s.info && !s.info[id].inTried
    ensures Inv(h, Strip(s, id), {id}, {id})
    ensures Strip(s, id).info[id] == s.info[id].(refCount := 0)
    ensures TablesOf(Strip(s, id)) == Tables(Without(TablesOf(s).news, s.info[id].svc.addr), TablesOf(s).tried)
  {
    hide AddrOk, RandomOk, NewOk, TriedOk, RefOk, View, Slots;
    StripRef(s.info, s.news, id);
    var c := s.info[id].refCount - |Slots(s.news, id)|;
    RecountInv(h, s, id, c, {});
    var info' := s.info[id := s.info[id].(refCount := c)];
    StripTable(h, s.key, info', s.byAddr, s.idCount, s.news, id);
    StripCount(info', s.nTried, s.nNew, id);
  }

  lemma StripCount(info: map<int, Info>, nTried: int, nNew: int, id: int)
    requires CountOk(info, nTried, nNew, {}) && id in info && !info[id].inTried && info[id].refCount == 0
    ensures CountOk(info, nTried, nNew - 1, {id})
  {
  }

  /** Changing inTried alone. */
  lemma RetagShape(info: map<int, Info>, random: seq<int>, byAddr: map<NetAddr, int>, idCount: int, id: int, b: bool)
    requires AddrOk(info, byAddr, idCount) && RandomOk(info, random) && id in info
    ensures var i := info[id := info[id].(inTried := b)];
            AddrOk(i, byAddr, idCount) && RandomOk(i, random)
    ensures forall t: map<Slot, int> :: View(t, info[id := info[id].(inTried := b)]) == View(t, info)
  {
    var i := info[id := info[id].(inTried := b)];
    forall t: map<Slot, int> ensures View(t, i) == View(t, info) { }
  }

  lemma RetagRef(info: map<int, Info>, news: map<Slot, int>, id: int, b: bool, loose: set<int>)
    requires RefOk(info, news, loose) && id in info
    ensures RefOk(info[id := info[id].(inTried := b)], news, if b then loose - {id} else loose + {id})
  {
  }

  lemma UntryTables(h: Hashing, key: nat, info: map<int, Info>, news: map<Slot, int>, tried: map<Slot, int>, id: int)
    requires NewOk(h, key, info, news) && TriedOk(h, key, info, tried) && id in info && info[id].inTried
    ensures var i := info[id := info[id].(inTried := false)];
            NewOk(h, key, i, news) && TriedOk(h, key, i, tried - {TriedSlot(h, key, info[id].svc)})
    ensures View(tried - {TriedSlot(h, key, info[id].svc)}, info) == View(tried, info) - {TriedSlot(h, key, info[id].svc)}
  {
    var ts := TriedSlot(h, key, info[id].svc);
    forall sl | sl in tried - {ts} ensures IdOf(tried - {ts}, sl) == IdOf(tried, sl) != id { }
  }

  lemma UntryCount(info: map<int, Info>, nTried: int, nNew: int, id: int, uncounted: set<int>)
    requires CountOk(info, nTried, nNew, uncounted) && id in info && info[id].inTried && info[id].refCount == 0
    ensures CountOk(info[id := info[id].(inTried := false)], nTried - 1, nNew, uncounted + {id})
  {
    var i := info[id := info[id].(inTried := false)];
    assert id !in uncounted;
    assert TriedIds(i) == TriedIds(info) - {id} && id in TriedIds(info);
    assert NewIds(i) == NewIds(info) + {id} && id !in NewIds(info);
  }

  lemma UntryRefZero(h: Hashing, s: State, id: int, loose: set<int>)
    requires NewOk(h, s.key, s.info, s.news) && RefOk(s.info, s.news, loose) && id in s.info && s.info[id].inTried
    ensures s.info[id].refCount == 0
  {
    forall sl | sl in s.news ensures s.news[sl] != id { assert !s.info[IdOf(s.news, sl)].inTried; }
    assert Slots(s.news, id) == {};
  }

  lemma UntryInv(h: Hashing, s: State, id: int, loose: set<int>, uncounted: set<int>)
    requires Inv(h, s, loose, uncounted) && id in s.info && s.info[id].inTried
    ensures Inv(h, Untry(h, s, id), loose + {id}, uncounted + {id})
    ensures Untry(h, s, id).info[id].refCount == 0
    ensures TablesOf(Untry(h, s, id)) == Tables(TablesOf(s).news, TablesOf(s).tried - {TriedSlot(h, s.key, s.info[id].svc)})
  {
    hide AddrOk, RandomOk, NewOk, TriedOk, RefOk, CountOk, View, Slots;
    UntryRefZero(h, s, id, loose);
    RetagShape(s.info, s.random, s.byAddr, s.idCount, id, false);
    RetagRef(s.info, s.news, id, false, loose);
    UntryTables(h, s.key, s.info, s.news, s.tried, id);
    UntryCount(s.info, s.nTried, s.nNew, id, uncounted);
  }

  lemma TryTables(h: Hashing, key: nat, info: map<int, Info>, news: map<Slot, int>, tried: map<Slot, int>, id: int)
    requires NewOk(h, key, info, news) && TriedOk(h, key, info, tried) && id in info && !info[id].inTried
    requires TriedSlot(h, key, info[id].svc) !in tried && Slots(news, id) == {}
    ensures var i := info[id := info[id].(inTried := true)];
            var ts := TriedSlot(h, key, info[id].svc);
            && NewOk(h, key, i, news) && TriedOk(h, key, i, tried[ts := id])
            && View(tried[ts := id], info) == View(tried, info)[ts := PeerOf(info[id])]
  {
    var ts := TriedSlot(h, key, info[id].svc);
    forall sl | sl in news ensures IdOf(news, sl) != id {
      assert sl !in Slots(news, id);
    }
    forall sl | sl in tried ensures IdOf(tried[ts := id], sl) == IdOf(tried, sl) { }
    assert IdOf(tried[ts := id], ts) == id;
  }

  lemma TryCount(info: map<int, Info>, nTried: int, nNew: int, id: int)
    requires CountOk(info, nTried, nNew, {id}) && id in info && !info[id].inTried
    ensures CountOk(info[id := info[id].(inTried := true)], nTried + 1, nNew, {})
  {
    var i := info[id := info[id].(inTried := true)];
    assert TriedIds(i) == TriedIds(info) + {id} && id !in TriedIds(info);
    assert NewIds(i) == NewIds(info) - {id} && id in NewIds(info);
  }

  lemma NoSlots(info: map<int, Info>, news: map<Slot, int>, id: int, loose: set<int>)
    requires RefOk(info, news, loose) && id in info && info[id].refCount == 0
    ensures Slots(news, id) == {}
  {
    assert |Slots(news, id)| == 0;
  }

  lemma TryInv(h: Hashing, s: State, id: int, loose: set<int>)
    requires Inv(h, s, loose, {id}) && id in s.info && !s.info[id].inTried && s.info[id].refCount == 0
    requires TriedSlot(h, s.key, s.info[id].svc) !in s.tried
    ensures Inv(h, Try(h, s, id), loose - {id}, {})
    ensures TablesOf(Try(h, s, id)) ==
            Tables(TablesOf(s).news, TablesOf(s).tried[TriedSlot(h, s.key, s.info[id].svc) := PeerOf(s.info[id])])
  {
    hide AddrOk, RandomOk, NewOk, TriedOk, RefOk, CountOk, View, Slots;
    NoSlots(s.info, s.news, id, loose);
    RetagShape(s.info, s.random, s.byAddr, s.idCount, id, true);
    RetagRef(s.info, s.news, id, true, loose);
    TryTables(h, s.key, s.info, s.news, s.tried, id);
    TryCount(s.info, s.nTried, s.nNew, id);
  }

  lemma EnterInv(h: Hashing, s: State, sl: Slot, id: int, loose: set<int>, uncounted: set<int>)
    requires Inv(h, s, loose, uncounted) && sl !in s.news && sl.0 < h.newCount
    requires id in uncounted && id in s.info && !s.info[id].inTried && s.info[id].refCount == 0
    requires sl == NewSlotIn(h, s.key, s.info[id].svc, sl.0)
    ensures Inv(h, Enter(s, sl, id), loose - {id}, uncounted - {id})
    ensures TablesOf(Enter(s, sl, id)) == Tables(TablesOf(s).news[sl := PeerOf(s.info[id])], TablesOf(s).tried)
  {
    hide AddrOk, RandomOk, NewOk, TriedOk, RefOk, View;
    assert CountOk(s.info, s.nTried, s.nNew + 1, uncounted - {id});
    RefInv(h, s.(nNew := s.nNew + 1), sl, id, loose, uncounted - {id});
  }

  /** MakeTried once the id is out of the new table: make room, then take the slot. */
  ghost function MakeRoom(h: Hashing, s: State, id: int): State
    requires id in s.info && RandomOk(s.info, s.random) && NewOk(h, s.key, s.info, s.news)
    requires TriedOk(h, s.key, s.info, s.tried)
  {
    var ts := TriedSlot(h, s.key, s.info[id].svc);
    if ts !in s.tried || IdOf(s.tried, ts) !in s.info then s
    else
      var e := IdOf(s.tried, ts);
      var hs := NewSlot(h, s.key, s.info[e].svc, s.info[e].source);
      var u := Untry(h, s, e);
      RandomOkRetag(s.info, s.random, e);
      UntryTables(h, s.key, s.info, s.news, s.tried, e);
      assert hs in u.news ==> IdOf(u.news, hs) in u.info;
      var v := ClearNew(u, hs);
      if e in v.info then Enter(v, hs, e) else v
  }

  lemma RandomOkRetag(info: map<int, Info>, random: seq<int>, id: int)
    requires RandomOk(info, random) && id in info
    ensures RandomOk(info[id := info[id].(inTried := false)], random)
  {
  }

  ghost function MakeTried(h: Hashing, s: State, id: int): State
    requires Valid(h, s) && id in s.info && !s.info[id].inTried
  {
    StripInv(h, s, id);
    var t := MakeRoom(h, Strip(s, id), id);
    if id in t.info then Try(h, t, id) else t
  }

  /** The same on the tables: the evicted peer returns to its home slot, whoever is there loses it. */
  ghost function Promote(h: Hashing, key: nat, t: Tables, p: Peer): Tables {
    var news := Without(t.news, p.svc.addr);
    var ts := TriedSlot(h, key, p.svc);
    if ts in t.tried then
      var e := t.tried[ts];
      Tables(news[NewSlot(h, key, e.svc, e.source) := e], t.tried[ts := p])
    else
      Tables(news, t.tried[ts := p])
  }

  lemma MakeRoomInv(h: Hashing, s: State, id: int)
    requires Inv(h, s, {id}, {id}) && id in s.info && !s.info[id].inTried && s.info[id].refCount == 0
    ensures var t := MakeRoom(h, s, id);
            && Inv(h, t, {id}, {id})
            && id in t.info && t.info[id] == s.info[id].(randomPos := t.info[id].randomPos)
            && TriedSlot(h, s.key, s.info[id].svc) !in t.tried
            && t.key == s.key && t.collisions == s.collisions && t.lastGood == s.lastGood && t.idCount == s.idCount
            && t.tried == s.tried - {TriedSlot(h, s.key, s.info[id].svc)} && Carries(s.info, t.info, {})
    ensures var ts := TriedSlot(h, s.key, s.info[id].svc);
            TablesOf(MakeRoom(h, s, id)) ==
              if ts in TablesOf(s).tried then
                var e := TablesOf(s).tried[ts];
                Tables(TablesOf(s).news[NewSlot(h, s.key, e.svc, e.source) := e], TablesOf(s).tried - {ts})
              else TablesOf(s)
  {
    var ts := TriedSlot(h, s.key, s.info[id].svc);
    if ts in s.tried {
      var e := IdOf(s.tried, ts);
      assert e in s.info && s.info[e].inTried && TriedSlot(h, s.key, s.info[e].svc) == ts;
      MakeRoomEvict(h, s, id, e);
    }
  }

  lemma MakeRoomEvict(h: Hashing, s: State, id: int, e: int)
    requires Inv(h, s, {id}, {id}) && id in s.info && !s.info[id].inTried && s.info[id].refCount == 0
    requires e in s.info && s.info[e].inTried
    requires TriedSlot(h, s.key, s.info[e].svc) == TriedSlot(h, s.key, s.info[id].svc)
    requires TriedSlot(h, s.key, s.info[e].svc) in s.tried
    requires IdOf(s.tried, TriedSlot(h, s.key, s.info[e].svc)) == e
    ensures var t := MakeRoom(h, s, id);
            && Inv(h, t, {id}, {id})
            && id in t.info && t.info[id] == s.info[id].(randomPos := t.info[id].randomPos)
            && t.key == s.key && t.collisions == s.collisions && t.lastGood == s.lastGood && t.idCount == s.idCount
            && t.tried == s.tried - {TriedSlot(h, s.key, s.info[id].svc)} && Carries(s.info, t.info, {})
            && TablesOf(t) == Tables(TablesOf(s).news[NewSlot(h, s.key, s.info[e].svc, s.info[e].source) := PeerOf(s.info[e])],
                                     TablesOf(s).tried - {TriedSlot(h, s.key, s.info[id].svc)})
  {
    hide AddrOk, RandomOk, NewOk, TriedOk, RefOk, CountOk, View, Slots, ClearNew;
    var hs := NewSlot(h, s.key, s.info[e].svc, s.info[e].source);
    var u := Untry(h, s, e);
    UntryInv(h, s, e, {id}, {id});
    assert {id} + {e} == {id, e};
    NotHolder(u.info, u.news, hs, id, {id, e});
    NotHolder(u.info, u.news, hs, e, {id, e});
    NewKnown(h, u.key, u.info, u.news, hs);
    ClearNewInv(h, u, hs, {id, e}, {id, e});
    var v := ClearNew(u, hs);
    EnterInv(h, v, hs, e, {id, e}, {id, e});
    assert {id, e} - {e} == {id};
  }

  lemma NewKnown(h: Hashing, key: nat, info: map<int, Info>, news: map<Slot, int>, sl: Slot)
    requires NewOk(h, key, info, news)
    ensures sl in news ==> news[sl] in info && !info[news[sl]].inTried
  {
    assert sl in news ==> IdOf(news, sl) in info;
  }

  lemma NotHolder(info: map<int, Info>, news: map<Slot, int>, sl: Slot, id: int, loose: set<int>)
    requires RefOk(info, news, loose) && id in info && info[id].refCount == 0
    ensures sl in news ==> news[sl] != id
  {
    assert |Slots(news, id)| == 0;
    assert sl !in Slots(news, id);
  }

  /**
   * MakeTried keeps the whole invariant, never trips one of its asserts, and is
   * exactly Promote on the tables; no tried slot is ever left empty.
   */
  lemma MakeTriedInv(h: Hashing, s: State, id: int)
    requires Valid(h, s) && id in s.info && !s.info[id].inTried
    ensures Valid(h, MakeTried(h, s, id))
    ensures TablesOf(MakeTried(h, s, id)) == Promote(h, s.key, TablesOf(s), PeerOf(s.info[id]))
    ensures MakeTried(h, s, id).key == s.key && MakeTried(h, s, id).collisions == s.collisions
    ensures MakeTried(h, s, id).idCount == s.idCount && MakeTried(h, s, id).lastGood == s.lastGood
    ensures MakeTried(h, s, id).tried.Keys == s.tried.Keys + {TriedSlot(h, s.key, s.info[id].svc)}
    ensures id in MakeTried(h, s, id).info && MakeTried(h, s, id).info[id].inTried
    ensures Carries(s.info, MakeTried(h, s, id).info, {id}) && SameEntry(s.info[id], MakeTried(h, s, id).info[id])
  {
    hide AddrOk, RandomOk, NewOk, TriedOk, RefOk, CountOk, View, Slots, MakeRoom, Without;
    StripInv(h, s, id);
    var t := Strip(s, id);
    MakeRoomInv(h, t, id);
    TryInv(h, MakeRoom(h, t, id), id, {id});
    assert {id} - {id} == {};
  }

  // ----- changing an entry's statistics ---------------------------------------------

  /** Update only what no table, index or counter depends on. */
  ghost predicate StatsOnly(a: Info, b: Info) {
    b == a.(time := b.time, services := b.services, lastSuccess := b.lastSuccess, attempts := b.attempts,
            lastTry := b.lastTry, lastCountAttempt := b.lastCountAttempt)
  }

  lemma StatsInv(h: Hashing, s: State, id: int, i: Info)
    requires Valid(h, s) && id in s.info && StatsOnly(s.info[id], i)
    ensures Valid(h, s.(info := s.info[id := i])) && TablesOf(s.(info := s.info[id := i])) == TablesOf(s)
  {
    hide AddrOk, NewOk, TriedOk, RandomOk, RefOk, View;
    var info := s.info[id := i];
    StatsRef(s.info, s.news, s.random, id, i);
    assert SameShape(s.info, info);
    SameShapeAddr(s.info, info, s.byAddr, s.idCount);
    SameShapeTables(h, s.key, s.info, info, s.news, s.tried);
    SameShapeIds(s.info, info);
  }

  lemma StatsRef(info: map<int, Info>, news: map<Slot, int>, random: seq<int>, id: int, i: Info)
    requires RefOk(info, news, {}) && RandomOk(info, random) && id in info && StatsOnly(info[id], i)
    ensures RefOk(info[id := i], news, {}) && RandomOk(info[id := i], random)
  {
  }

  // ----- Good_ ------------------------------------------------------------------------

  ghost predicate Found(s: State, svc: Service) {
    svc.addr in s.byAddr && IdOf(s.byAddr, svc.addr) in s.info && s.info[IdOf(s.byAddr, svc.addr)].svc == svc
  }

  ghost function Good(h: Hashing, s: State, svc: Service, testBeforeEvict: bool, time: int): State
    requires Valid(h, s)
  {
    if !Found(s, svc) then s.(lastGood := time)
    else
      var id := IdOf(s.byAddr, svc.addr);
      var i := s.info[id].(lastSuccess := time, lastTry := time, attempts := 0);
      var t := s.(lastGood := time, info := s.info[id := i]);
      if i.inTried || Slots(s.news, id) == {} then t
      else if testBeforeEvict && TriedSlot(h, s.key, svc) in s.tried then
        if |s.collisions| < MAX_COLLISIONS then t.(collisions := t.collisions + {id}) else t
      else
        StatsInv(h, s.(lastGood := time), id, i);
        MakeTried(h, t, id)
  }

  /** On the tables, Good_ promotes an untried known service, or defers when the slot is taken. */
  ghost function GoodTables(h: Hashing, s: State, svc: Service, testBeforeEvict: bool): Tables {
    if Found(s, svc) && !s.info[IdOf(s.byAddr, svc.addr)].inTried
       && !(testBeforeEvict && TriedSlot(h, s.key, svc) in s.tried) then
      Promote(h, s.key, TablesOf(s), PeerOf(s.info[IdOf(s.byAddr, svc.addr)]))
    else TablesOf(s)
  }

  /** A known untried service whose tried slot is taken becomes a pending collision instead of evicting. */
  ghost predicate Defers(h: Hashing, s: State, svc: Service, testBeforeEvict: bool) {
    && Found(s, svc) && !s.info[IdOf(s.byAddr, svc.addr)].inTried
    && testBeforeEvict && TriedSlot(h, s.key, svc) in s.tried
  }

  lemma GoodInv(h: Hashing, s: State, svc: Service, testBeforeEvict: bool, time: int)
    requires Valid(h, s)
    ensures Valid(h, Good(h, s, svc, testBeforeEvict, time))
    ensures TablesOf(Good(h, s, svc, testBeforeEvict, time)) == GoodTables(h, s, svc, testBeforeEvict)
    ensures var t := Good(h, s, svc, testBeforeEvict, time);
            && t.key == s.key && t.idCount == s.idCount && s.tried.Keys <= t.tried.Keys
            && Inherits(s.info, t.info)
            && t.collisions ==
                 (if Defers(h, s, svc, testBeforeEvict) && |s.collisions| < MAX_COLLISIONS
                  then s.collisions + {IdOf(s.byAddr, svc.addr)} else s.collisions)
  {
    hide AddrOk, NewOk, TriedOk, RandomOk, RefOk, CountOk, View, MakeTried, Promote, Slots;
    if Found(s, svc) {
      var id := IdOf(s.byAddr, svc.addr);
      var i := s.info[id].(lastSuccess := time, lastTry := time, attempts := 0);
      var t := s.(lastGood := time, info := s.info[id := i]);
      HasSlot(s.info, s.news, id);
      assert Valid(h, s.(lastGood := time));
      StatsInv(h, s.(lastGood := time), id, i);
      if !i.inTried { MakeTriedInv(h, t, id); }
    }
  }

  /**
   * What Good_ records: the time of this success, in the entry and for the
   * manager, and no failed attempts.  The entry ends up tried unless it was
   * deferred; nothing else about any entry changes.
   */
  lemma GoodRecords(h: Hashing, s: State, svc: Service, testBeforeEvict: bool, time: int)
    requires Valid(h, s)
    ensures var t := Good(h, s, svc, testBeforeEvict, time);
            && t.lastGood == time
            && (!Found(s, svc) ==> t.info == s.info)
            && (Found(s, svc) ==>
                  var id := IdOf(s.byAddr, svc.addr);
                  && id in t.info && t.info[id].lastSuccess == t.info[id].lastTry == time && t.info[id].attempts == 0
                  && SameEntry(s.info[id].(lastSuccess := time, lastTry := time, attempts := 0), t.info[id])
                  && (t.info[id].inTried <==> s.info[id].inTried || !Defers(h, s, svc, testBeforeEvict))
                  && forall n :: n in t.info && n != id ==> n in s.info && SameEntry(s.info[n], t.info[n]))
  {
    hide AddrOk, NewOk, TriedOk, RandomOk, RefOk, CountOk, View, MakeTried, Promote, Slots;
    if Found(s, svc) {
      var id := IdOf(s.byAddr, svc.addr);
      var i := s.info[id].(lastSuccess := time, lastTry := time, attempts := 0);
      var t := s.(lastGood := time, info := s.info[id := i]);
      HasSlot(s.info, s.news, id);
      assert Valid(h, s.(lastGood := time));
      StatsInv(h, s.(lastGood := time), id, i);
      if !i.inTried { MakeTriedInv(h, t, id); }
    }
  }

  /** An untried entry is in some new slot, so Good_'s bucket search always finds one. */
  lemma HasSlot(info: map<int, Info>, news: map<Slot, int>, id: int)
    requires RefOk(info, news, {}) && id in info
    ensures !info[id].inTried ==> Slots(news, id) != {}
  {
  }

  // ----- Add_ ---------------------------------------------------------------------------

  /** Give an entry the next id, the last random position and an address index. */
  ghost function Register(s: State, i: Info): State {
    s.(idCount := s.idCount + 1,
       info := s.info[s.idCount := i],
       byAddr := s.byAddr[i.svc.addr := s.idCount],
       random := s.random + [s.idCount])
  }

  ghost function Create(s: State, svc: Service, source: NetAddr, time: int, services: set<nat>): State {
    Register(s, Info(svc, source, time, services, 0, 0, 0, 0, 0, false, |s.random|))
  }

  lemma CreateRandom(info: map<int, Info>, random: seq<int>, id: int, i: Info)
    requires RandomOk(info, random) && id !in info && i.randomPos == |random|
    ensures RandomOk(info[id := i], random + [id])
  {
    var r := random + [id];
    forall k | 0 <= k < |r| ensures r[k] in info[id := i] && info[id := i][r[k]].randomPos == k {
      if k < |random| { assert r[k] == random[k]; }
    }
  }

  lemma CreateAddr(info: map<int, Info>, byAddr: map<NetAddr, int>, idCount: int, i: Info)
    requires AddrOk(info, byAddr, idCount) && i.svc.addr !in byAddr && idCount >= 0
    ensures idCount !in info
    ensures AddrOk(info[idCount := i], byAddr[i.svc.addr := idCount], idCount + 1)
  {
    var b := byAddr[i.svc.addr := idCount];
    forall a | a in b ensures IdOf(b, a) in info[idCount := i] && info[idCount := i][IdOf(b, a)].svc.addr == a {
      if a != i.svc.addr { assert IdOf(b, a) == IdOf(byAddr, a); }
    }
  }

  lemma CreateRef(h: Hashing, key: nat, info: map<int, Info>, news: map<Slot, int>, id: int, i: Info, loose: set<int>)
    requires NewOk(h, key, info, news) && RefOk(info, news, loose) && id !in info
    requires !i.inTried && i.refCount == 0
    ensures RefOk(info[id := i], news, loose + {id})
  {
    forall sl | sl in news ensures news[sl] != id { assert IdOf(news, sl) in info; }
    assert Slots(news, id) == {};
  }

  lemma CreateTables(h: Hashing, key: nat, info: map<int, Info>, news: map<Slot, int>, tried: map<Slot, int>, id: int, i: Info)
    requires NewOk(h, key, info, news) && TriedOk(h, key, info, tried) && id !in info && !i.inTried
    ensures NewOk(h, key, info[id := i], news) && TriedOk(h, key, info[id := i], tried)
    ensures View(news, info[id := i]) == View(news, info) && View(tried, info[id := i]) == View(tried, info)
  {
    forall sl | sl in news ensures IdOf(news, sl) in info && IdOf(news, sl) != id { }
    forall sl | sl in tried ensures IdOf(tried, sl) in info && IdOf(tried, sl) != id { }
  }

  lemma CreateCount(info: map<int, Info>, nTried: int, nNew: int, id: int, i: Info)
    requires CountOk(info, nTried, nNew, {}) && id !in info && !i.inTried
    ensures CountOk(info[id := i], nTried, nNew + 1, {})
  {
    hide TriedIds, NewIds;
    CreateIds(info, id, i);
  }

  lemma CreateIds(info: map<int, Info>, id: int, i: Info)
    requires id !in info && !i.inTried
    ensures TriedIds(info[id := i]) == TriedIds(info)
    ensures NewIds(info[id := i]) == NewIds(info) + {id} && id !in NewIds(info)
  {
    var more := info[id := i];
    forall n ensures n in TriedIds(more) <==> n in TriedIds(info) { }
    forall n ensures n in NewIds(more) <==> n in NewIds(info) + {id} { }
  }

  /** A registered entry is counted as new but has no slot yet. */
  lemma RegisterInv(h: Hashing, s: State, i: Info, loose: set<int>)
    requires Inv(h, s, loose, {}) && i.svc.addr !in s.byAddr && s.idCount >= 0
    requires !i.inTried && i.refCount == 0 && i.randomPos == |s.random|
    ensures var t := Register(s, i).(nNew := s.nNew + 1);
            Inv(h, t, loose + {s.idCount}, {}) && TablesOf(t) == TablesOf(s)
  {
    hide AddrOk, NewOk, TriedOk, RandomOk, RefOk, CountOk, View;
    CreateAddr(s.info, s.byAddr, s.idCount, i);
    CreateRandom(s.info, s.random, s.idCount, i);
    CreateTables(h, s.key, s.info, s.news, s.tried, s.idCount, i);
    CreateRef(h, s.key, s.info, s.news, s.idCount, i, loose);
    CreateCount(s.info, s.nTried, s.nNew, s.idCount, i);
  }

  lemma CreateInv(h: Hashing, s: State, svc: Service, source: NetAddr, time: int, services: set<nat>)
    requires Valid(h, s) && svc.addr !in s.byAddr && s.idCount >= 0
    ensures var t := Create(s, svc, source, time, services).(nNew := s.nNew + 1);
            Inv(h, t, {s.idCount}, {}) && TablesOf(t) == TablesOf(s)
  {
    hide AddrOk, NewOk, TriedOk, RandomOk, RefOk, CountOk, View;
    RegisterInv(h, s, Info(svc, source, time, services, 0, 0, 0, 0, 0, false, |s.random|), {});
    assert {} + {s.idCount} == {s.idCount};
  }

  /** Whether Add_ takes the slot: it is free, or its holder is terrible or can spare it. */
  ghost predicate Inserts(s: State, sl: Slot, needy: bool, now: int) {
    sl !in s.news ||
    (IdOf(s.news, sl) in s.info &&
     (IsTerrible(s.info[IdOf(s.news, sl)], now) || (s.info[IdOf(s.news, sl)].refCount > 1 && needy)))
  }

  /** Add_ from the bucket computation on. */
  ghost function Place(h: Hashing, s: State, id: int, source: NetAddr, now: int): State
    requires id in s.info && RandomOk(s.info, s.random) && NewOk(h, s.key, s.info, s.news)
  {
    var sl := NewSlot(h, s.key, s.info[id].svc, source);
    NewKnown(h, s.key, s.info, s.news, sl);
    if sl in s.news && IdOf(s.news, sl) == id then s
    else if Inserts(s, sl, s.info[id].refCount == 0, now) then
      var t := ClearNew(s, sl);
      if id in t.info then Ref(t, sl, id) else t
    else if s.info[id].refCount == 0 then Delete(s, id)
    else s
  }

  lemma PlaceInv(h: Hashing, s: State, id: int, source: NetAddr, now: int)
    requires Inv(h, s, {id}, {}) && id in s.info && !s.info[id].inTried && s.info[id].refCount < BUCKETS_PER_ADDRESS
    ensures Valid(h, Place(h, s, id, source, now))
    ensures var sl := NewSlot(h, s.key, s.info[id].svc, source);
            TablesOf(Place(h, s, id, source, now)) ==
              if Inserts(s, sl, s.info[id].refCount == 0, now) && !(sl in s.news && IdOf(s.news, sl) == id) then
                Tables(TablesOf(s).news[sl := PeerOf(s.info[id])], TablesOf(s).tried)
              else TablesOf(s)
    ensures var t := Place(h, s, id, source, now);
            && t.key == s.key && t.idCount == s.idCount && t.tried == s.tried && t.collisions == s.collisions
            && Carries(s.info, t.info, {})
  {
    hide AddrOk, NewOk, TriedOk, RandomOk, RefOk, CountOk, View, Slots, ClearNew, Delete;
    var sl := NewSlot(h, s.key, s.info[id].svc, source);
    NewKnown(h, s.key, s.info, s.news, sl);
    var none: set<int> := {};
    assert {id} - {id} == none && none + {id} == {id} && none - {id} == none;
    if sl in s.news && s.news[sl] == id {
      Held(s.info, s.news, sl, id);
      Tighten(s.info, s.news, id, {});
    } else if Inserts(s, sl, s.info[id].refCount == 0, now) {
      ClearNewInv(h, s, sl, {id}, {});
      RefInv(h, ClearNew(s, sl), sl, id, {id}, {});
      assert (TablesOf(s).news - {sl})[sl := PeerOf(s.info[id])] == TablesOf(s).news[sl := PeerOf(s.info[id])];
    } else if s.info[id].refCount == 0 {
      DeleteInv(h, s, id, {}, {});
      DeleteFrame(s, id);
      SameCarries(s.info - {id}, s.info, Delete(s, id).info);
    } else {
      PositiveRef(s.info, s.news, id);
      Tighten(s.info, s.news, id, {});
    }
  }

  lemma SameCarries(a: map<int, Info>, b: map<int, Info>, c: map<int, Info>)
    requires SameUpToPos(a, c) && forall n :: n in a ==> n in b && a[n] == b[n]
    ensures Carries(b, c, {})
  {
  }

  lemma DeleteFrame(s: State, id: int)
    requires RandomOk(s.info, s.random) && id in s.info
    ensures var t := Delete(s, id);
            t.key == s.key && t.idCount == s.idCount && t.tried == s.tried && t.collisions == s.collisions
  {
  }

  lemma Held(info: map<int, Info>, news: map<Slot, int>, sl: Slot, id: int)
    requires RefOk(info, news, {id}) && id in info && sl in news && news[sl] == id
    ensures info[id].refCount >= 1
  {
    assert sl in Slots(news, id);
  }

  lemma PositiveRef(info: map<int, Info>, news: map<Slot, int>, id: int)
    requires RefOk(info, news, {id}) && id in info && info[id].refCount != 0
    ensures info[id].refCount >= 1
  {
  }

  function Max(a: int, b: int): int { if a < b then b else a }

  /** An advertised address: what a peer sends. */
  datatype Advert = Advert(svc: Service, time: int, services: set<nat>)

  /** Add_ on a known entry: the refreshed statistics. */
  function Refreshed(i: Info, a: Advert, penalty: int, now: int): Info {
    var interval := if now - a.time < 24 * 60 * 60 then 60 * 60 else 24 * 60 * 60;
    i.(time := if a.time != 0 && (i.time == 0 || i.time < a.time - interval - penalty)
               then Max(0, a.time - penalty) else i.time,
       services := i.services + a.services)
  }

  /** Whether a known entry may get one more reference; lucky is the 1-in-2^refCount draw. */
  predicate MayGrow(i: Info, a: Advert, lucky: bool) {
    && a.time != 0 && !(i.time != 0 && a.time <= i.time)
    && !i.inTried
    && i.refCount != BUCKETS_PER_ADDRESS
    && (i.refCount >= 1 ==> lucky)
  }

  function Penalty(a: Advert, source: NetAddr, penalty: int): int {
    if a.svc.addr == source then 0 else penalty
  }

  ghost function Add(h: Hashing, s: State, a: Advert, source: NetAddr, penalty: int, now: int, lucky: bool): State
    requires Valid(h, s) && s.idCount >= 0
  {
    var pen := Penalty(a, source, penalty);
    if !h.routable(a.svc.addr) then s
    else if a.svc.addr in s.byAddr then
      var id := IdOf(s.byAddr, a.svc.addr);
      var i := Refreshed(s.info[id], a, pen, now);
      StatsInv(h, s, id, i);
      var t := s.(info := s.info[id := i]);
      if MayGrow(i, a, lucky) then Place(h, t, id, source, now) else t
    else
      CreateInv(h, s, a.svc, source, Max(0, a.time - pen), a.services);
      Place(h, Create(s, a.svc, source, Max(0, a.time - pen), a.services).(nNew := s.nNew + 1), s.idCount, source, now)
  }

  /** On the tables: at most one new slot changes, the one the entry and the source hash to. */
  ghost function AddTables(h: Hashing, s: State, a: Advert, source: NetAddr, penalty: int, now: int, lucky: bool): Tables {
    if !h.routable(a.svc.addr) then TablesOf(s)
    else if a.svc.addr in s.byAddr && IdOf(s.byAddr, a.svc.addr) in s.info then
      var id := IdOf(s.byAddr, a.svc.addr);
      var i := Refreshed(s.info[id], a, Penalty(a, source, penalty), now);
      var sl := NewSlot(h, s.key, i.svc, source);
      var held := sl in s.news && IdOf(s.news, sl) == id;
      if MayGrow(i, a, lucky) && !held && Inserts(s, sl, false, now) then
        Tables(TablesOf(s).news[sl := PeerOf(i)], TablesOf(s).tried)
      else TablesOf(s)
    else
      var sl := NewSlot(h, s.key, a.svc, source);
      if Inserts(s, sl, true, now) then
        Tables(TablesOf(s).news[sl := Peer(a.svc, source)], TablesOf(s).tried)
      else TablesOf(s)
  }

  lemma KnownAddr(info: map<int, Info>, byAddr: map<NetAddr, int>, idCount: int, news: map<Slot, int>, a: NetAddr)
    requires AddrOk(info, byAddr, idCount) && RefOk(info, news, {}) && a in byAddr
    ensures IdOf(byAddr, a) in info && info[IdOf(byAddr, a)].svc.addr == a
    ensures info[IdOf(byAddr, a)].refCount <= BUCKETS_PER_ADDRESS
    ensures !info[IdOf(byAddr, a)].inTried ==> info[IdOf(byAddr, a)].refCount >= 1
  {
  }

  lemma AddKnown(h: Hashing, s: State, a: Advert, source: NetAddr, pen: int, now: int, lucky: bool)
    requires Valid(h, s) && a.svc.addr in s.byAddr
    ensures IdOf(s.byAddr, a.svc.addr) in s.info
    ensures var id := IdOf(s.byAddr, a.svc.addr);
            var i := Refreshed(s.info[id], a, pen, now);
            var u := s.(info := s.info[id := i]);
            var sl := NewSlot(h, s.key, i.svc, source);
            && Valid(h, u)
            && var t := if MayGrow(i, a, lucky) then Place(h, u, id, source, now) else u;
            && Valid(h, t) && t.key == s.key && t.tried == s.tried && t.collisions == s.collisions && t.idCount == s.idCount
            && Inherits(s.info, t.info) && Carries(u.info, t.info, {})
            && TablesOf(t) ==
                 if MayGrow(i, a, lucky) && !(sl in s.news && IdOf(s.news, sl) == id) && Inserts(s, sl, false, now) then
                   Tables(TablesOf(s).news[sl := PeerOf(i)], TablesOf(s).tried)
                 else TablesOf(s)
  {
    hide AddrOk, NewOk, TriedOk, RandomOk, CountOk, View, Slots, Place, RefOk, IsTerrible;
    KnownAddr(s.info, s.byAddr, s.idCount, s.news, a.svc.addr);
    var id := IdOf(s.byAddr, a.svc.addr);
    var i := Refreshed(s.info[id], a, pen, now);
    StatsInv(h, s, id, i);
    var u := s.(info := s.info[id := i]);
    if MayGrow(i, a, lucky) {
      Loosen(u.info, u.news, {}, {id});
      PlaceInv(h, u, id, source, now);
    }
  }

  /** Add_ keeps the whole invariant and is exactly AddTables on the tables. */
  lemma AddInv(h: Hashing, s: State, a: Advert, source: NetAddr, penalty: int, now: int, lucky: bool)
    requires Valid(h, s) && s.idCount >= 0
    ensures var t := Add(h, s, a, source, penalty, now, lucky);
            && Valid(h, t) && t.key == s.key && t.tried == s.tried && t.collisions == s.collisions
            && s.idCount <= t.idCount
            && forall n :: n in t.info && n < s.idCount ==> n in s.info && PeerOf(t.info[n]) == PeerOf(s.info[n])
    ensures TablesOf(Add(h, s, a, source, penalty, now, lucky)) == AddTables(h, s, a, source, penalty, now, lucky)
  {
    hide AddrOk, NewOk, TriedOk, RandomOk, CountOk, View, Slots, Place, RefOk, IsTerrible;
    var pen := Penalty(a, source, penalty);
    if h.routable(a.svc.addr) {
      if a.svc.addr in s.byAddr {
        AddKnown(h, s, a, source, pen, now, lucky);
      } else {
        AddUnknown(h, s, a.svc, source, Max(0, a.time - pen), a.services, now);
      }
    }
  }

  lemma AddUnknown(h: Hashing, s: State, svc: Service, source: NetAddr, time: int, services: set<nat>, now: int)
    requires Valid(h, s) && s.idCount >= 0 && svc.addr !in s.byAddr
    ensures var c := Create(s, svc, source, time, services).(nNew := s.nNew + 1);
            var sl := NewSlot(h, s.key, svc, source);
            && Inv(h, c, {s.idCount}, {})
            && var t := Place(h, c, s.idCount, source, now);
            && Valid(h, t) && t.key == s.key && t.tried == s.tried && t.collisions == s.collisions
            && t.idCount == s.idCount + 1 && Carries(c.info, t.info, {})
            && (forall n :: n in t.info && n < s.idCount ==> n in s.info && PeerOf(t.info[n]) == PeerOf(s.info[n]))
            && TablesOf(t) == if Inserts(s, sl, true, now) then Tables(TablesOf(s).news[sl := Peer(svc, source)], TablesOf(s).tried)
                              else TablesOf(s)
  {
    hide AddrOk, NewOk, TriedOk, RandomOk, CountOk, View, Slots, Place, RefOk, IsTerrible;
    var c := Create(s, svc, source, time, services).(nNew := s.nNew + 1);
    var sl := NewSlot(h, s.key, svc, source);
    CreateInv(h, s, svc, source, time, services);
    PlaceInv(h, c, s.idCount, source, now);
    NewKnown(h, s.key, s.info, s.news, sl);
    FreshId(s.info, s.byAddr, s.idCount);
    assert sl in s.news ==> IdOf(s.news, sl) != s.idCount;
    assert PeerOf(c.info[s.idCount]) == Peer(svc, source);
  }

  lemma FreshId(info: map<int, Info>, byAddr: map<NetAddr, int>, idCount: int)
    requires AddrOk(info, byAddr, idCount)
    ensures idCount !in info
  {
  }

  // ----- the remaining operations ---------------------------------------------------------

  ghost function SetStats(s: State, svc: Service, f: Info -> Info): State {
    if Found(s, svc) then
      var id := IdOf(s.byAddr, svc.addr);
      s.(info := s.info[id := f(s.info[id])])
    else s
  }

  function Attempted(i: Info, countFailure: bool, lastGood: int, time: int): Info {
    if countFailure && i.lastCountAttempt < lastGood then
      i.(lastTry := time, lastCountAttempt := time, attempts := i.attempts + 1)
    else
      i.(lastTry := time)
  }

  function Connected(i: Info, time: int): Info {
    if time - i.time > 20 * 60 then i.(time := time) else i
  }

  const REPLACEMENT_SECONDS: int := 4 * 60 * 60

  /** What ResolveCollisions_ decides about one pending id. */
  datatype Verdict = Keep | Erase | PromoteAndErase

  ghost function Judge(h: Hashing, s: State, id: int, now: int): Verdict {
    if id !in s.info || !h.valid(s.info[id].svc.addr) then Erase
    else
      var ts := TriedSlot(h, s.key, s.info[id].svc);
      if ts in s.tried && IdOf(s.tried, ts) in s.info then
        var old_ := s.info[IdOf(s.tried, ts)];
        if now - old_.lastSuccess < REPLACEMENT_SECONDS then Erase
        else if now - old_.lastTry < REPLACEMENT_SECONDS && now - old_.lastTry > 60 then PromoteAndErase
        else Keep
      else PromoteAndErase
  }

  ghost function ResolveOne(h: Hashing, s: State, id: int, now: int): State
    requires Valid(h, s)
  {
    match Judge(h, s, id, now)
    case Keep => s
    case Erase => s.(collisions := s.collisions - {id})
    case PromoteAndErase =>
      if id in s.info then
        var t := Good(h, s, s.info[id].svc, false, now);
        t.(collisions := t.collisions - {id})
      else s
  }

  /** ResolveCollisions_ over the pending ids in the order given. */
  ghost function ResolveAll(h: Hashing, s: State, ids: seq<int>, now: int): State
    requires Sound(h, s)
    decreases |ids|
  {
    if ids == [] then s
    else
      ResolveStep(h, s, ids[0], now);
      ResolveAll(h, ResolveOne(h, s, ids[0], now), ids[1..], now)
  }

  lemma ResolveAllNone(h: Hashing, s: State, now: int)
    requires Sound(h, s)
    ensures ResolveAll(h, s, [], now) == s
  {
  }

  lemma {:induction false} ResolveAllSnoc(h: Hashing, s: State, ids: seq<int>, id: int, now: int)
    requires Sound(h, s)
    ensures var t := ResolveAll(h, s, ids, now);
            Sound(h, t) && Ages(s, t) && (Pending(h, s) ==> Pending(h, t))
    ensures ResolveAll(h, s, ids + [id], now) == ResolveOne(h, ResolveAll(h, s, ids, now), id, now)
    decreases |ids|
  {
    hide Inv, Pending, ResolveOne;
    if ids == [] {
      assert ([] + [id])[0] == id && ([] + [id])[1..] == [];
      ResolveStep(h, s, id, now);
      assert ResolveAll(h, ResolveOne(h, s, id, now), [], now) == ResolveOne(h, s, id, now);
    } else {
      ResolveStep(h, s, ids[0], now);
      ResolveAllSnoc(h, ResolveOne(h, s, ids[0], now), ids[1..], id, now);
      assert (ids + [id])[0] == ids[0] && (ids + [id])[1..] == ids[1..] + [id];
    }
  }

  /** The tried slot of a known id is empty, so SelectTriedCollision_ would look up id -1. */
  ghost predicate LooksUpMinusOne(h: Hashing, s: State, id: int) {
    id in s.info && TriedSlot(h, s.key, s.info[id].svc) !in s.tried
  }

  /** A default entry: the null address, and in no table, index or vector. */
  const DEFAULT_ENTRY: Info := Info(Service(0, 0), 0, 100000000, {}, 0, 0, 0, 0, 0, false, -1)

  /** SelectTriedCollision_ drawing a pending id; looking up id -1 inserts a default entry there. */
  ghost function SelectCollision(h: Hashing, s: State, id: int): State {
    if id !in s.collisions then s
    else if id !in s.info then s.(collisions := s.collisions - {id})
    else if LooksUpMinusOne(h, s, id) && -1 !in s.info then s.(info := s.info[-1 := DEFAULT_ENTRY])
    else s
  }

  // ----- what holds between operations ----------------------------------------------------

  /** Every pending id that is still known has an occupant in its tried slot. */
  ghost predicate Pending(h: Hashing, s: State) {
    && |s.collisions| <= MAX_COLLISIONS
    && forall n :: n in s.collisions ==>
         0 <= n < s.idCount && (n in s.info ==> TriedSlot(h, s.key, s.info[n].svc) in s.tried)
  }

  ghost predicate Sound(h: Hashing, s: State) {
    Valid(h, s) && s.idCount >= 0
  }

  ghost predicate RunInv(h: Hashing, s: State) {
    Sound(h, s) && Pending(h, s)
  }

  /** Time only adds ids and tried slots; old ids keep their peer or disappear. */
  ghost predicate Ages(s: State, t: State) {
    && t.key == s.key && s.idCount <= t.idCount && s.tried.Keys <= t.tried.Keys
    && forall n :: n in t.info && n < s.idCount ==> n in s.info && PeerOf(t.info[n]) == PeerOf(s.info[n])
  }

  lemma AgesPending(h: Hashing, s: State, t: State)
    requires Pending(h, s) && Ages(s, t) && t.collisions <= s.collisions
    ensures Pending(h, t)
  {
    Sets.SubsetSize(t.collisions, s.collisions);
  }

  lemma SetStatsInv(h: Hashing, s: State, svc: Service, f: Info -> Info)
    requires Sound(h, s) && forall i :: StatsOnly(i, f(i))
    ensures var t := SetStats(s, svc, f);
            Sound(h, t) && Ages(s, t) && TablesOf(t) == TablesOf(s) && t.collisions == s.collisions
  {
    hide Inv;
    if Found(s, svc) {
      var id := IdOf(s.byAddr, svc.addr);
      assert StatsOnly(s.info[id], f(s.info[id]));
      StatsInv(h, s, id, f(s.info[id]));
    }
  }

  lemma AddStep(h: Hashing, s: State, a: Advert, source: NetAddr, penalty: int, now: int, lucky: bool)
    requires Sound(h, s)
    ensures var t := Add(h, s, a, source, penalty, now, lucky);
            Sound(h, t) && Ages(s, t) && t.collisions == s.collisions && (Pending(h, s) ==> Pending(h, t))
  {
    hide Inv, Add, AddTables, TablesOf, Pending;
    AddInv(h, s, a, source, penalty, now, lucky);
    if Pending(h, s) { AgesPending(h, s, Add(h, s, a, source, penalty, now, lucky)); }
  }

  lemma GoodStep(h: Hashing, s: State, svc: Service, test: bool, time: int)
    requires Sound(h, s)
    ensures var t := Good(h, s, svc, test, time);
            Sound(h, t) && Ages(s, t) && (!test ==> t.collisions == s.collisions) && (Pending(h, s) ==> Pending(h, t))
  {
    hide Inv, Good, Pending, GoodTables, TablesOf;
    GoodInv(h, s, svc, test, time);
    var t := Good(h, s, svc, test, time);
    if Pending(h, s) {
      AgesPending(h, s, t.(collisions := s.collisions));
      if t.collisions != s.collisions {
        GoodPending(h, s, svc);
        PendingGrows(h, t.(collisions := s.collisions), IdOf(s.byAddr, svc.addr));
      }
    }
  }

  lemma PendingGrows(h: Hashing, s: State, id: int)
    requires Pending(h, s) && |s.collisions| < MAX_COLLISIONS && 0 <= id < s.idCount
    requires id in s.info ==> TriedSlot(h, s.key, s.info[id].svc) in s.tried
    ensures Pending(h, s.(collisions := s.collisions + {id}))
  {
  }

  lemma GoodPending(h: Hashing, s: State, svc: Service)
    requires Valid(h, s) && Found(s, svc)
    ensures 0 <= IdOf(s.byAddr, svc.addr) < s.idCount
  {
  }

  lemma ShuffleStep(h: Hashing, s: State, i: nat, j: nat)
    requires Sound(h, s) && i < |s.random| && j < |s.random|
    ensures var t := SwapRandom(s, i, j);
            Sound(h, t) && Ages(s, t) && TablesOf(t) == TablesOf(s) && (Pending(h, s) ==> Pending(h, t))
  {
    hide SwapRandom, AddrOk, NewOk, TriedOk, RefOk, CountOk, RandomOk, View;
    SwapRandomOk(s, i, j);
    SameUpToPosInv(h, s, SwapRandom(s, i, j), {}, {});
    if Pending(h, s) { AgesPending(h, s, SwapRandom(s, i, j)); }
  }

  lemma EraseStep(h: Hashing, s: State, id: int)
    requires Sound(h, s)
    ensures var t := s.(collisions := s.collisions - {id});
            Sound(h, t) && Ages(s, t) && (Pending(h, s) ==> Pending(h, t))
  {
    hide AddrOk, NewOk, TriedOk, RefOk, CountOk, RandomOk;
    if Pending(h, s) { AgesPending(h, s, s.(collisions := s.collisions - {id})); }
  }

  lemma ResolveStep(h: Hashing, s: State, id: int, now: int)
    requires Sound(h, s)
    ensures var t := ResolveOne(h, s, id, now);
            Sound(h, t) && Ages(s, t) && t.collisions <= s.collisions && (Pending(h, s) ==> Pending(h, t))
  {
    hide Inv, Good, Pending;
    EraseStep(h, s, id);
    if id in s.info {
      GoodStep(h, s, s.info[id].svc, false, now);
      EraseStep(h, Good(h, s, s.info[id].svc, false, now), id);
    }
  }
}
