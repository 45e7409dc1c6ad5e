/**
 * The address manager as a value: two slot tables, two maps, a random-order
 * vector, reference counts and counters.  All of it is shown to be a faithful
 * representation of just two tables from slot to peer.
 */
module AddrManState {

  // ----- data -------------------------------------------------------------------

  type NetAddr = nat

  datatype Service = Service(addr: NetAddr, port: nat)

  /** What a table slot stands for: the service and the source it was learned from. */
  datatype Peer = Peer(svc: Service, source: NetAddr)

  datatype Info = Info(svc: Service, source: NetAddr, time: int, services: set<nat>,
                       lastSuccess: int, attempts: int, lastTry: int, lastCountAttempt: int,
                       refCount: int, inTried: bool, randomPos: int)

  type Slot = (nat, nat)

  const BUCKETS_PER_ADDRESS: int := 8
  const MAX_COLLISIONS: int := 10

  /** Table sizes, and the keyed hashes and address predicates, which stay uninterpreted. */
  datatype HashingRaw = Hashing(
    newCount: nat, triedCount: nat, size: nat,
    triedHash: (nat, Service) -> nat,
    newHash: (nat, Service, NetAddr) -> nat,
    posHash: (nat, Service, bool, nat) -> nat,
    routable: NetAddr -> bool,
    valid: NetAddr -> bool)

  type Hashing = h: HashingRaw | h.newCount > 0 && h.triedCount > 0 && h.size > 0
    witness Hashing(1, 1, 1, (k, s) => 0, (k, s, a) => 0, (k, s, f, b) => 0, a => true, a => true)

  /** A slot absent from a table is the source's -1. */
  datatype State = State(
    key: nat, idCount: int,
    info: map<int, Info>, byAddr: map<NetAddr, int>, random: seq<int>,
    nTried: int, tried: map<Slot, int>,
    nNew: int, news: map<Slot, int>,
    lastGood: int, collisions: set<int>)

  function NewSlot(h: Hashing, key: nat, svc: Service, source: NetAddr): Slot {
    var b := h.newHash(key, svc, source) % h.newCount;
    NewSlotIn(h, key, svc, b)
  }

  function NewSlotIn(h: Hashing, key: nat, svc: Service, bucket: nat): Slot {
    (bucket, h.posHash(key, svc, true, bucket) % h.size)
  }

  function TriedSlot(h: Hashing, key: nat, svc: Service): Slot {
    var b := h.triedHash(key, svc) % h.triedCount;
    (b, h.posHash(key, svc, false, b) % h.size)
  }

  /** CAddrInfo::IsTerrible, with times in seconds. */
  function IsTerrible(i: Info, now: int): bool {
    if i.lastTry != 0 && i.lastTry >= now - 60 then false
    else if i.time > now + 10 * 60 then true
    else if i.time == 0 || now - i.time > 30 * 24 * 60 * 60 then true
    else if i.lastSuccess == 0 && i.attempts >= 3 then true
    else now - i.lastSuccess > 7 * 24 * 60 * 60 && i.attempts >= 10
  }

  ghost function IdOf<K>(index: map<K, int>, k: K): int
    requires k in index
  {
    index[k]
  }

  // ----- the two tables -----------------------------------------------------------

  datatype Tables = Tables(news: map<Slot, Peer>, tried: map<Slot, Peer>)

  ghost function PeerOf(i: Info): Peer {
    Peer(i.svc, i.source)
  }

  ghost function View(table: map<Slot, int>, info: map<int, Info>): map<Slot, Peer> {
    map sl | sl in table && IdOf(table, sl) in info :: PeerOf(info[IdOf(table, sl)])
  }

  ghost function TablesOf(s: State): Tables {
    Tables(View(s.news, s.info), View(s.tried, s.info))
  }

  // ----- the invariant --------------------------------------------------------------

  ghost function Slots(table: map<Slot, int>, id: int): set<Slot> {
    set sl | sl in table && table[sl] == id
  }

  ghost function TriedIds(info: map<int, Info>): set<int> {
    set n | n in info && info[n].inTried
  }

  ghost function NewIds(info: map<int, Info>): set<int> {
    set n | n in info && !info[n].inTried
  }

  /** mapAddr and mapInfo are inverse, and ids come from the counter. */
  ghost predicate AddrOk(info: map<int, Info>, byAddr: map<NetAddr, int>, idCount: int) {
    && (forall n :: n in info ==> 0 <= n < idCount)
    && (forall n :: n in info ==> info[n].svc.addr in byAddr && byAddr[info[n].svc.addr] == n)
    && (forall a :: a in byAddr ==> IdOf(byAddr, a) in info && info[IdOf(byAddr, a)].svc.addr == a)
  }

  /** vRandom and the stored positions are inverse. */
  ghost predicate RandomOk(info: map<int, Info>, random: seq<int>) {
    && (forall n :: n in info ==> 0 <= info[n].randomPos < |random| && random[info[n].randomPos] == n)
    && (forall i :: 0 <= i < |random| ==> random[i] in info && info[random[i]].randomPos == i)
  }

  /** A new-table slot holds a known, untried id in the position its hash dictates. */
  ghost predicate NewOk(h: Hashing, key: nat, info: map<int, Info>, news: map<Slot, int>) {
    forall sl :: sl in news ==>
      && sl.0 < h.newCount
      && IdOf(news, sl) in info
      && !info[IdOf(news, sl)].inTried
      && sl == NewSlotIn(h, key, info[IdOf(news, sl)].svc, sl.0)
  }

  /** A tried id sits in exactly its own slot. */
  ghost predicate TriedOk(h: Hashing, key: nat, info: map<int, Info>, tried: map<Slot, int>) {
    && (forall sl :: sl in tried ==>
          && IdOf(tried, sl) in info && info[IdOf(tried, sl)].inTried
          && sl == TriedSlot(h, key, info[IdOf(tried, sl)].svc))
    && (forall n :: n in info && info[n].inTried ==>
          TriedSlot(h, key, info[n].svc) in tried && tried[TriedSlot(h, key, info[n].svc)] == n)
  }

  /** Reference counts are slot occurrences; only loose ids may have none outside tried. */
  ghost predicate RefOk(info: map<int, Info>, news: map<Slot, int>, loose: set<int>) {
    && (forall n :: n in info ==> info[n].refCount == |Slots(news, n)| <= BUCKETS_PER_ADDRESS)
    && (forall n :: n in info && !info[n].inTried && n !in loose ==> info[n].refCount >= 1)
  }

  /** The counters are exact, apart from untried ids that are momentarily not counted. */
  ghost predicate CountOk(info: map<int, Info>, nTried: int, nNew: int, uncounted: set<int>) {
    && uncounted <= NewIds(info)
    && (forall n :: n in uncounted ==> info[n].refCount == 0)
    && nTried == |TriedIds(info)|
    && nNew == |NewIds(info)| - |uncounted|
  }

  ghost predicate Inv(h: Hashing, s: State, loose: set<int>, uncounted: set<int>) {
    && AddrOk(s.info, s.byAddr, s.idCount)
    && RandomOk(s.info, s.random)
    && NewOk(h, s.key, s.info, s.news)
    && TriedOk(h, s.key, s.info, s.tried)
    && RefOk(s.info, s.news, loose)
    && CountOk(s.info, s.nTried, s.nNew, uncounted)
  }

  /** What holds between operations. */
  ghost predicate Valid(h: Hashing, s: State) {
    Inv(h, s, {}, {})
  }

  // ----- small state changes ----------------------------------------------------------

  ghost function SwapRandom(s: State, i: nat, j: nat): State
    requires RandomOk(s.info, s.random) && i < |s.random| && j < |s.random|
  {
    if i == j then s
    else
      var n1, n2 := s.random[i], s.random[j];
      var info := s.info[n1 := s.info[n1].(randomPos := j)];
      s.(info := info[n2 := info[n2].(randomPos := i)], random := s.random[i := n2][j := n1])
  }

  ghost function MoveLast(s: State, id: int): State
    requires RandomOk(s.info, s.random) && id in s.info
  {
    SwapRandom(s, s.info[id].randomPos, |s.random| - 1)
  }

  ghost function Delete(s: State, id: int): State
    requires RandomOk(s.info, s.random) && id in s.info
  {
    var t := MoveLast(s, id);
    t.(random := t.random[..|t.random| - 1],
       byAddr := t.byAddr - {s.info[id].svc.addr},
       info := t.info - {id},
       nNew := t.nNew - 1)
  }

  /** Equal up to positions in vRandom. */
  ghost predicate SameUpToPos(a: map<int, Info>, b: map<int, Info>) {
    a.Keys == b.Keys && forall n :: n in a ==> n in b && b[n] == a[n].(randomPos := b[n].randomPos)
  }

  lemma SwapRandomOk(s: State, i: nat, j: nat)
    requires RandomOk(s.info, s.random) && i < |s.random| && j < |s.random|
    ensures var t := SwapRandom(s, i, j);
            RandomOk(t.info, t.random) && |t.random| == |s.random| && SameUpToPos(s.info, t.info)
    ensures var t := SwapRandom(s, i, j);
            t.random[i] == s.random[j] && t.random[j] == s.random[i] && t == s.(info := t.info, random := t.random)
  {
    if i != j {
      var t := SwapRandom(s, i, j);
      var n1, n2 := s.random[i], s.random[j];
      assert n1 != n2;
      assert t.info.Keys == s.info.Keys;
      forall n | n in t.info
        ensures t.info[n] == s.info[n].(randomPos := if n == n1 then j else if n == n2 then i else s.info[n].randomPos)
      {
      }
      forall k | 0 <= k < |t.random|
        ensures t.random[k] == if k == i then n2 else if k == j then n1 else s.random[k]
      {
      }
    }
  }

  /** Equal in all that the tables and the address index depend on. */
  ghost predicate SameShape(a: map<int, Info>, b: map<int, Info>) {
    && (forall n :: n in b ==> n in a)
    && (forall n :: n in a ==>
          n in b && a[n].svc == b[n].svc && a[n].source == b[n].source && a[n].inTried == b[n].inTried)
  }

  lemma SameShapeAddr(a: map<int, Info>, b: map<int, Info>, byAddr: map<NetAddr, int>, idCount: int)
    requires SameShape(a, b) && AddrOk(a, byAddr, idCount)
    ensures AddrOk(b, byAddr, idCount)
  {
  }

  lemma SameShapeTables(h: Hashing, key: nat, a: map<int, Info>, b: map<int, Info>, news: map<Slot, int>, tried: map<Slot, int>)
    requires SameShape(a, b) && NewOk(h, key, a, news) && TriedOk(h, key, a, tried)
    ensures NewOk(h, key, b, news) && TriedOk(h, key, b, tried)
    ensures View(news, a) == View(news, b) && View(tried, a) == View(tried, b)
  {
  }

  lemma SameShapeIds(a: map<int, Info>, b: map<int, Info>)
    requires SameShape(a, b)
    ensures TriedIds(a) == TriedIds(b) && NewIds(a) == NewIds(b)
  {
    forall n ensures n in TriedIds(a) <==> n in TriedIds(b) { }
    forall n ensures n in NewIds(a) <==> n in NewIds(b) { }
  }

  /** Positions do not matter to the rest of the invariant or to the tables. */
  lemma SameUpToPosInv(h: Hashing, s: State, t: State, loose: set<int>, uncounted: set<int>)
    requires Inv(h, s, loose, uncounted) && SameUpToPos(s.info, t.info) && RandomOk(t.info, t.random)
    requires t == s.(info := t.info, random := t.random)
    ensures Inv(h, t, loose, uncounted) && TablesOf(t) == TablesOf(s)
  {
    assert SameShape(s.info, t.info);
    SameShapeAddr(s.info, t.info, s.byAddr, s.idCount);
    SameShapeTables(h, s.key, s.info, t.info, s.news, s.tried);
    SameShapeIds(s.info, t.info);
    forall n | n in t.info ensures t.info[n].refCount == s.info[n].refCount { }
  }

  // ----- deleting an entry ----------------------------------------------------------

  /** Dropping the last position of vRandom together with its id. */
  lemma PopRandomOk(info: map<int, Info>, random: seq<int>, id: int)
    requires RandomOk(info, random) && |random| > 0 && random[|random| - 1] == id
    ensures RandomOk(info - {id}, random[..|random| - 1])
  {
    var r := random[..|random| - 1];
    forall i | 0 <= i < |r| ensures r[i] in info - {id} && (info - {id})[r[i]].randomPos == i {
      assert r[i] == random[i];
      assert info[random[i]].randomPos == i;
      assert info[id].randomPos == |random| - 1;
    }
  }

  lemma RemoveAddr(info: map<int, Info>, byAddr: map<NetAddr, int>, idCount: int, id: int)
    requires AddrOk(info, byAddr, idCount) && id in info
    ensures AddrOk(info - {id}, byAddr - {info[id].svc.addr}, idCount)
  {
  }

  lemma RemoveRef(info: map<int, Info>, news: map<Slot, int>, id: int, loose: set<int>)
    requires RefOk(info, news, loose + {id}) && id in info && info[id].refCount == 0
    ensures RefOk(info - {id}, news, loose - {id})
    ensures forall sl :: sl in news ==> news[sl] != id
  {
    assert Slots(news, id) == {};
    forall sl | sl in news ensures news[sl] != id {
      assert sl !in Slots(news, id);
    }
  }

  lemma RemoveTables(h: Hashing, key: nat, info: map<int, Info>, news: map<Slot, int>, tried: map<Slot, int>, id: int)
    requires NewOk(h, key, info, news) && TriedOk(h, key, info, tried) && id in info && !info[id].inTried
    requires forall sl :: sl in news ==> news[sl] != id
    ensures NewOk(h, key, info - {id}, news) && TriedOk(h, key, info - {id}, tried)
    ensures View(news, info - {id}) == View(news, info) && View(tried, info - {id}) == View(tried, info)
  {
    forall sl | sl in news ensures IdOf(news, sl) in info - {id} { }
    forall sl | sl in tried ensures IdOf(tried, sl) in info - {id} { }
  }

  lemma RemoveCount(info: map<int, Info>, nTried: int, nNew: int, id: int, uncounted: set<int>)
    requires CountOk(info, nTried, nNew, uncounted) && id in info && !info[id].inTried && id !in uncounted
    ensures CountOk(info - {id}, nTried, nNew - 1, uncounted)
  {
    assert TriedIds(info - {id}) == TriedIds(info);
    assert NewIds(info - {id}) == NewIds(info) - {id} && id in NewIds(info);
  }

  lemma RandomPosOk(info: map<int, Info>, random: seq<int>, id: int)
    requires RandomOk(info, random) && id in info
    ensures 0 <= info[id].randomPos < |random| && random[info[id].randomPos] == id
  {
  }

  lemma MoveLastOk(s: State, id: int)
    requires RandomOk(s.info, s.random) && id in s.info
    ensures var t := MoveLast(s, id);
            && RandomOk(t.info, t.random) && SameUpToPos(s.info, t.info)
            && |t.random| > 0 && t.random[|t.random| - 1] == id
            && t == s.(info := t.info, random := t.random)
  {
    hide RandomOk, SwapRandom, SameUpToPos;
    RandomPosOk(s.info, s.random, id);
    SwapRandomOk(s, s.info[id].randomPos, |s.random| - 1);
  }

  lemma SameUpToPosWithout(a: map<int, Info>, b: map<int, Info>, id: int)
    requires SameUpToPos(a, b)
    ensures SameUpToPos(a - {id}, b - {id})
    ensures id in a ==> id in b && b[id] == a[id].(randomPos := b[id].randomPos)
  {
  }

  /** Delete keeps everything, and the tables never mention the entry. */
  lemma DeleteInv(h: Hashing, s: State, id: int, loose: set<int>, uncounted: set<int>)
    requires Inv(h, s, loose + {id}, uncounted) && id in s.info && id !in uncounted
    requires !s.info[id].inTried && s.info[id].refCount == 0
    ensures Inv(h, Delete(s, id), loose - {id}, uncounted)
    ensures TablesOf(Delete(s, id)) == TablesOf(s)
    ensures SameUpToPos(s.info - {id}, Delete(s, id).info)
  {
    hide AddrOk, RandomOk, NewOk, TriedOk, RefOk, CountOk, View, MoveLast, SameUpToPos;
    MoveLastOk(s, id);
    var t := MoveLast(s, id);
    SameUpToPosWithout(s.info, t.info, id);
    SameUpToPosInv(h, s, t, loose + {id}, uncounted);
    PopRandomOk(t.info, t.random, id);
    RemoveAddr(t.info, t.byAddr, t.idCount, id);
    RemoveRef(t.info, t.news, id, loose);
    RemoveTables(h, t.key, t.info, t.news, t.tried, id);
    RemoveCount(t.info, t.nTried, t.nNew, id, uncounted);
  }

  // ----- giving up and taking a slot ------------------------------------------------

  ghost function Unref(s: State, sl: Slot): State
    requires sl in s.news && s.news[sl] in s.info
  {
    var id := s.news[sl];
    s.(news := s.news - {sl}, info := s.info[id := s.info[id].(refCount := s.info[id].refCount - 1)])
  }

  ghost function Ref(s: State, sl: Slot, id: int): State
    requires id in s.info
  {
    s.(news := s.news[sl := id], info := s.info[id := s.info[id].(refCount := s.info[id].refCount + 1)])
  }

  lemma SlotSubset(a: set<Slot>, b: set<Slot>)
    requires a <= b
    ensures |a| <= |b|
  {
    assert b == a + (b - a);
  }

  lemma SlotsWithout(table: map<Slot, int>, sl: Slot, n: int)
    requires sl in table
    ensures Slots(table - {sl}, n) == if table[sl] == n then Slots(table, n) - {sl} else Slots(table, n)
    ensures table[sl] == n ==> sl in Slots(table, n)
  {
  }

  lemma SlotsWith(table: map<Slot, int>, sl: Slot, id: int, n: int)
    requires sl !in table
    ensures Slots(table[sl := id], n) == if id == n then Slots(table, n) + {sl} else Slots(table, n)
    ensures sl !in Slots(table, n)
  {
  }

  lemma UnrefRef(info: map<int, Info>, news: map<Slot, int>, sl: Slot, loose: set<int>)
    requires RefOk(info, news, loose) && sl in news && news[sl] in info
    ensures info[news[sl]].refCount >= 1
    ensures RefOk(info[news[sl] := info[news[sl]].(refCount := info[news[sl]].refCount - 1)], news - {sl}, loose + {news[sl]})
  {
    var id := news[sl];
    SlotsWithout(news, sl, id);
    var info' := info[id := info[id].(refCount := info[id].refCount - 1)];
    forall n | n in info' ensures info'[n].refCount == |Slots(news - {sl}, n)| <= BUCKETS_PER_ADDRESS {
      SlotsWithout(news, sl, n);
      assert n in info;
    }
  }

  lemma RefRef(info: map<int, Info>, news: map<Slot, int>, sl: Slot, id: int, loose: set<int>)
    requires RefOk(info, news, loose) && sl !in news && id in info && info[id].refCount < BUCKETS_PER_ADDRESS
    ensures RefOk(info[id := info[id].(refCount := info[id].refCount + 1)], news[sl := id], loose - {id})
  {
    var info' := info[id := info[id].(refCount := info[id].refCount + 1)];
    forall n | n in info' ensures info'[n].refCount == |Slots(news[sl := id], n)| <= BUCKETS_PER_ADDRESS {
      SlotsWith(news, sl, id, n);
      assert n in info;
    }
  }

  /** Changing one reference count touches nothing but the counts. */
  lemma RecountInv(h: Hashing, s: State, id: int, c: int, uncounted: set<int>)
    requires AddrOk(s.info, s.byAddr, s.idCount) && RandomOk(s.info, s.random)
    requires NewOk(h, s.key, s.info, s.news) && TriedOk(h, s.key, s.info, s.tried)
    requires CountOk(s.info, s.nTried, s.nNew, uncounted)
    requires id in s.info && id !in uncounted
    ensures var i := s.info[id := s.info[id].(refCount := c)];
            && AddrOk(i, s.byAddr, s.idCount) && RandomOk(i, s.random)
            && NewOk(h, s.key, i, s.news) && TriedOk(h, s.key, i, s.tried)
            && CountOk(i, s.nTried, s.nNew, uncounted)
            && View(s.news, i) == View(s.news, s.info) && View(s.tried, i) == View(s.tried, s.info)
  {
    var i := s.info[id := s.info[id].(refCount := c)];
    hide AddrOk, NewOk, TriedOk, View;
    assert SameShape(s.info, i);
    SameShapeAddr(s.info, i, s.byAddr, s.idCount);
    SameShapeTables(h, s.key, s.info, i, s.news, s.tried);
    SameShapeIds(s.info, i);
  }

  lemma UnrefTable(h: Hashing, key: nat, info: map<int, Info>, news: map<Slot, int>, sl: Slot)
    requires NewOk(h, key, info, news) && sl in news
    ensures NewOk(h, key, info, news - {sl}) && View(news - {sl}, info) == View(news, info) - {sl}
  {
  }

  lemma RefTable(h: Hashing, key: nat, info: map<int, Info>, news: map<Slot, int>, sl: Slot, id: int)
    requires NewOk(h, key, info, news) && sl.0 < h.newCount
    requires id in info && !info[id].inTried && sl == NewSlotIn(h, key, info[id].svc, sl.0)
    ensures NewOk(h, key, info, news[sl := id]) && View(news[sl := id], info) == View(news, info)[sl := PeerOf(info[id])]
  {
  }

  lemma UnrefKnown(h: Hashing, s: State, sl: Slot, loose: set<int>, uncounted: set<int>)
    requires NewOk(h, s.key, s.info, s.news) && RefOk(s.info, s.news, loose)
    requires CountOk(s.info, s.nTried, s.nNew, uncounted) && sl in s.news
    ensures s.news[sl] in s.info && s.news[sl] !in uncounted && !s.info[s.news[sl]].inTried
    ensures s.info[s.news[sl]].refCount >= 1
  {
    assert IdOf(s.news, sl) in s.info;
    UnrefRef(s.info, s.news, sl, loose);
  }

  lemma UnrefInv(h: Hashing, s: State, sl: Slot, loose: set<int>, uncounted: set<int>)
    requires Inv(h, s, loose, uncounted) && sl in s.news
    ensures s.news[sl] in s.info && s.news[sl] !in uncounted
    ensures Inv(h, Unref(s, sl), loose + {s.news[sl]}, uncounted)
    ensures TablesOf(Unref(s, sl)) == Tables(TablesOf(s).news - {sl}, TablesOf(s).tried)
  {
    hide AddrOk, RandomOk, NewOk, TriedOk, RefOk, CountOk, View;
    UnrefKnown(h, s, sl, loose, uncounted);
    var id := s.news[sl];
    UnrefRef(s.info, s.news, sl, loose);
    RecountInv(h, s, id, s.info[id].refCount - 1, uncounted);
    var i := s.info[id := s.info[id].(refCount := s.info[id].refCount - 1)];
    UnrefTable(h, s.key, i, s.news, sl);
  }

  lemma RefInv(h: Hashing, s: State, sl: Slot, id: int, loose: set<int>, uncounted: set<int>)
    requires Inv(h, s, loose, uncounted) && sl !in s.news && sl.0 < h.newCount
    requires id in s.info && !s.info[id].inTried && s.info[id].refCount < BUCKETS_PER_ADDRESS && id !in uncounted
    requires sl == NewSlotIn(h, s.key, s.info[id].svc, sl.0)
    ensures Inv(h, Ref(s, sl, id), loose - {id}, uncounted)
    ensures TablesOf(Ref(s, sl, id)) == Tables(TablesOf(s).news[sl := PeerOf(s.info[id])], TablesOf(s).tried)
  {
    hide AddrOk, RandomOk, NewOk, TriedOk, RefOk, CountOk, View;
    RefRef(s.info, s.news, sl, id, loose);
    RecountInv(h, s, id, s.info[id].refCount + 1, uncounted);
    var i := s.info[id := s.info[id].(refCount := s.info[id].refCount + 1)];
    RefTable(h, s.key, i, s.news, sl, id);
  }

  ghost function ClearNew(s: State, sl: Slot): State
    requires RandomOk(s.info, s.random) && (sl in s.news ==> s.news[sl] in s.info)
  {
    if sl !in s.news then s
    else
      var t := Unref(s, sl);
      if t.info[s.news[sl]].refCount == 0 then Delete(t, s.news[sl]) else t
  }

  /** No entry of b is new or has changed its peer. */
  ghost predicate Inherits(a: map<int, Info>, b: map<int, Info>) {
    forall n :: n in b ==> n in a && PeerOf(b[n]) == PeerOf(a[n])
  }

  /** The same peer with the same statistics. */
  ghost predicate SameEntry(a: Info, b: Info) {
    b == a.(refCount := b.refCount, inTried := b.inTried, randomPos := b.randomPos)
  }

  /** No entry of b is new or has changed its statistics, and only up may have become tried. */
  ghost predicate Carries(a: map<int, Info>, b: map<int, Info>, up: set<int>) {
    forall n :: n in b ==> n in a && SameEntry(a[n], b[n]) && (b[n].inTried ==> a[n].inTried || n in up)
  }

  /** Only vRandom, the address index, the new table and its counter may differ, and one entry's fate. */
  ghost predicate OnlyEvicts(s: State, t: State, gone: set<int>) {
    && t == s.(info := t.info, random := t.random, byAddr := t.byAddr, nNew := t.nNew, news := t.news)
    && Carries(s.info, t.info, {})
    && forall n :: n in s.info && n !in gone ==> n in t.info && t.info[n] == s.info[n].(randomPos := t.info[n].randomPos)
  }

  lemma Tighten(info: map<int, Info>, news: map<Slot, int>, id: int, loose: set<int>)
    requires RefOk(info, news, loose + {id}) && (id in info ==> info[id].refCount >= 1)
    ensures RefOk(info, news, loose)
  {
  }

  lemma Loosen(info: map<int, Info>, news: map<Slot, int>, loose: set<int>, more: set<int>)
    requires RefOk(info, news, loose) && loose <= more
    ensures RefOk(info, news, more)
  {
  }

  lemma ClearNewStep(h: Hashing, s: State, sl: Slot, loose: set<int>, uncounted: set<int>)
    requires sl in s.news && s.news[sl] in s.info && s.news[sl] !in uncounted && !s.info[s.news[sl]].inTried
    requires RandomOk(s.info, s.random)
    requires Inv(h, Unref(s, sl), loose + {s.news[sl]}, uncounted)
    requires s.info[s.news[sl]].refCount >= 1
    ensures Inv(h, ClearNew(s, sl), loose, uncounted) && ClearNew(s, sl).news == s.news - {sl}
    ensures TablesOf(ClearNew(s, sl)) == TablesOf(Unref(s, sl))
    ensures OnlyEvicts(s, ClearNew(s, sl), {s.news[sl]})
  {
    hide AddrOk, RandomOk, NewOk, TriedOk, RefOk, CountOk, View;
    var id := s.news[sl];
    var t := Unref(s, sl);
    if t.info[id].refCount == 0 {
      DeleteInv(h, t, id, loose, uncounted);
      Loosen(Delete(t, id).info, t.news, loose - {id}, loose);
    } else {
      Tighten(t.info, t.news, id, loose);
    }
  }

  lemma ViewAbsent(table: map<Slot, int>, info: map<int, Info>, sl: Slot)
    requires sl !in table
    ensures View(table, info) - {sl} == View(table, info) && table - {sl} == table
  {
  }

  /** ClearNew empties one slot; whoever lost the last reference is gone for good. */
  lemma ClearNewInv(h: Hashing, s: State, sl: Slot, loose: set<int>, uncounted: set<int>)
    requires Inv(h, s, loose, uncounted)
    ensures Inv(h, ClearNew(s, sl), loose, uncounted)
    ensures ClearNew(s, sl).news == s.news - {sl}
    ensures TablesOf(ClearNew(s, sl)) == Tables(TablesOf(s).news - {sl}, TablesOf(s).tried)
    ensures OnlyEvicts(s, ClearNew(s, sl), if sl in s.news then {s.news[sl]} else {})
  {
    hide AddrOk, RandomOk, NewOk, TriedOk, RefOk, CountOk, Delete, View;
    if sl in s.news {
      UnrefKnown(h, s, sl, loose, uncounted);
      UnrefInv(h, s, sl, loose, uncounted);
      ClearNewStep(h, s, sl, loose, uncounted);
    } else {
      ViewAbsent(s.news, s.info, sl);
    }
  }
}
