/**
 * What the operations of the address manager do to the entries: whom they let
 * in, whom they throw out, and what they record, in terms of times and counts.
 */
module AddrManEffects {
  import opened AddrManState
  import opened AddrManOps

  // ----- quality ----------------------------------------------------------------------------

  /**
   * An entry not tried within the last minute is terrible if its time is unset,
   * more than ten minutes ahead or more than thirty days old, or if it failed
   * three times without ever succeeding, or ten times in a week without success.
   */
  lemma TerribleIff(i: Info, now: int)
    ensures IsTerrible(i, now) <==>
      && (i.lastTry == 0 || i.lastTry < now - 60)
      && (i.time == 0 || i.time > now + 600 || i.time < now - 2592000
          || (i.lastSuccess == 0 && i.attempts >= 3)
          || (i.lastSuccess < now - 604800 && i.attempts >= 10))
  {
  }

  // ----- Add_ on an unknown address -----------------------------------------------------------

  /** The slot is free, or its holder is terrible or can spare it. */
  ghost predicate Yields(s: State, sl: Slot, now: int) {
    sl !in s.news ||
    (IdOf(s.news, sl) in s.info && (IsTerrible(s.info[IdOf(s.news, sl)], now) || s.info[IdOf(s.news, sl)].refCount > 1))
  }

  lemma PlacedNew(h: Hashing, c: State, id: int, source: NetAddr, now: int)
    requires Inv(h, c, {id}, {}) && id in c.info && !c.info[id].inTried && c.info[id].refCount == 0
    ensures var sl, t := NewSlot(h, c.key, c.info[id].svc, source), Place(h, c, id, source, now);
            && (sl in c.news ==> IdOf(c.news, sl) != id)
            && (id in t.info <==> Inserts(c, sl, true, now))
            && (id in t.info ==> t.info[id] == c.info[id].(refCount := 1, randomPos := t.info[id].randomPos))
  {
    hide AddrOk, NewOk, TriedOk, RandomOk, RefOk, CountOk, View, Slots, ClearNew, Delete;
    var sl := NewSlot(h, c.key, c.info[id].svc, source);
    NewKnown(h, c.key, c.info, c.news, sl);
    NotHolder(c.info, c.news, sl, id, {id});
    if Inserts(c, sl, true, now) {
      ClearNewInv(h, c, sl, {id}, {});
    } else {
      var none: set<int> := {};
      assert none + {id} == {id};
      DeleteInv(h, c, id, {}, {});
      Deleted(c.info, Delete(c, id).info, id);
    }
  }

  lemma Deleted(a: map<int, Info>, b: map<int, Info>, id: int)
    requires SameUpToPos(a - {id}, b)
    ensures id !in b
  {
  }

  lemma KnownByAddr(h: Hashing, s: State, id: int)
    requires Valid(h, s) && id in s.info
    ensures s.info[id].svc.addr in s.byAddr && IdOf(s.byAddr, s.info[id].svc.addr) == id
  {
  }

  lemma AddrKnown(h: Hashing, s: State, a: NetAddr)
    requires Valid(h, s) && a in s.byAddr
    ensures IdOf(s.byAddr, a) in s.info && s.info[IdOf(s.byAddr, a)].svc.addr == a
  {
  }

  /**
   * A new routable address is known afterwards if and only if its slot is free
   * or the holder is terrible or has another reference.  It starts with the
   * advertised time less the penalty, one reference and no history.
   */
  lemma AddNewOutcome(h: Hashing, s: State, a: Advert, source: NetAddr, penalty: int, now: int, lucky: bool)
    requires Sound(h, s) && h.routable(a.svc.addr) && a.svc.addr !in s.byAddr
    ensures var t := Add(h, s, a, source, penalty, now, lucky);
            var time := a.time - if a.svc.addr == source then 0 else penalty;
            && t.idCount == s.idCount + 1
            && (a.svc.addr in t.byAddr <==> Yields(s, NewSlot(h, s.key, a.svc, source), now))
            && (a.svc.addr in t.byAddr ==>
                  && IdOf(t.byAddr, a.svc.addr) == s.idCount && s.idCount in t.info
                  && t.info[s.idCount] == Info(a.svc, source, if time < 0 then 0 else time, a.services, 0, 0, 0, 0, 1, false,
                                               t.info[s.idCount].randomPos))
  {
    hide AddrOk, NewOk, TriedOk, RandomOk, RefOk, CountOk, View, Slots, Place, IsTerrible;
    var time := Max(0, a.time - Penalty(a, source, penalty));
    var c := Create(s, a.svc, source, time, a.services).(nNew := s.nNew + 1);
    var sl := NewSlot(h, s.key, a.svc, source);
    AddUnknown(h, s, a.svc, source, time, a.services, now);
    PlacedNew(h, c, s.idCount, source, now);
    var t := Add(h, s, a, source, penalty, now, lucky);
    NewKnown(h, s.key, s.info, s.news, sl);
    FreshId(s.info, s.byAddr, s.idCount);
    assert Inserts(c, sl, true, now) <==> Yields(s, sl, now);
    if s.idCount in t.info { KnownByAddr(h, t, s.idCount); }
    if a.svc.addr in t.byAddr {
      AddrKnown(h, t, a.svc.addr);
      var n := IdOf(t.byAddr, a.svc.addr);
      assert Carries(c.info, t.info, {});
      if n != s.idCount { KnownByAddr(h, s, n); }
    }
  }

  // ----- Add_ on a known address ---------------------------------------------------------------

  /**
   * Whether the stored time is replaced: it is unset, or the advertised one less
   * the penalty is later by an hour, or by a day unless it is less than a day old.
   */
  ghost predicate Newer(i: Info, a: Advert, pen: int, now: int) {
    a.time != 0 && (i.time == 0 || a.time - pen > i.time + if now - a.time < 86400 then 3600 else 86400)
  }

  ghost function NewTime(i: Info, a: Advert, pen: int, now: int): int {
    if !Newer(i, a, pen, now) then i.time else if a.time < pen then 0 else a.time - pen
  }

  /**
   * Whether the entry gets one more reference: the advert is later than the
   * stored time, the entry is untried with fewer than eight references and the
   * draw succeeds, and the slot is free or its holder terrible.
   */
  ghost predicate Grows(h: Hashing, s: State, id: int, a: Advert, source: NetAddr, pen: int, now: int, lucky: bool)
    requires id in s.info
  {
    var i, sl, time := s.info[id], NewSlot(h, s.key, s.info[id].svc, source), NewTime(s.info[id], a, pen, now);
    && a.time != 0 && (time == 0 || time < a.time) && !i.inTried && i.refCount < 8 && lucky
    && (sl in s.news ==> IdOf(s.news, sl) != id && IdOf(s.news, sl) in s.info && IsTerrible(s.info[IdOf(s.news, sl)], now))
  }

  lemma PlacedKnown(h: Hashing, u: State, id: int, source: NetAddr, now: int)
    requires Valid(h, u) && id in u.info && !u.info[id].inTried && 1 <= u.info[id].refCount < BUCKETS_PER_ADDRESS
    ensures var sl, t := NewSlot(h, u.key, u.info[id].svc, source), Place(h, u, id, source, now);
            var takes := Inserts(u, sl, false, now) && (sl in u.news ==> IdOf(u.news, sl) != id);
            && id in t.info
            && t.info[id] == u.info[id].(refCount := u.info[id].refCount + if takes then 1 else 0, randomPos := t.info[id].randomPos)
  {
    hide AddrOk, NewOk, TriedOk, RandomOk, RefOk, CountOk, View, Slots, ClearNew, Delete;
    var sl := NewSlot(h, u.key, u.info[id].svc, source);
    NewKnown(h, u.key, u.info, u.news, sl);
    if Inserts(u, sl, false, now) && (sl in u.news ==> IdOf(u.news, sl) != id) {
      Loosen(u.info, u.news, {}, {id});
      ClearNewInv(h, u, sl, {id}, {});
    }
  }

  /** A known address keeps its identity and history; its services accumulate, and time and references move as said above. */
  lemma AddKnownOutcome(h: Hashing, s: State, a: Advert, source: NetAddr, penalty: int, now: int, lucky: bool)
    requires Sound(h, s) && h.routable(a.svc.addr) && a.svc.addr in s.byAddr
    ensures var t, id := Add(h, s, a, source, penalty, now, lucky), IdOf(s.byAddr, a.svc.addr);
            var pen := if a.svc.addr == source then 0 else penalty;
            && t.idCount == s.idCount && id in s.info && id in t.info
            && t.info[id] == s.info[id].(time := NewTime(s.info[id], a, pen, now), services := s.info[id].services + a.services,
                                         refCount := s.info[id].refCount + (if Grows(h, s, id, a, source, pen, now, lucky) then 1 else 0),
                                         randomPos := t.info[id].randomPos)
  {
    hide AddrOk, NewOk, TriedOk, RandomOk, RefOk, CountOk, View, Slots, Place, IsTerrible, TablesOf;
    var id, pen := IdOf(s.byAddr, a.svc.addr), Penalty(a, source, penalty);
    KnownAddr(s.info, s.byAddr, s.idCount, s.news, a.svc.addr);
    AddKnown(h, s, a, source, pen, now, lucky);
    var i := Refreshed(s.info[id], a, pen, now);
    var u := s.(info := s.info[id := i]);
    assert i.time == NewTime(s.info[id], a, pen, now);
    if MayGrow(i, a, lucky) {
      PlacedKnown(h, u, id, source, now);
      var sl := NewSlot(h, s.key, i.svc, source);
      NewKnown(h, s.key, s.info, s.news, sl);
    }
  }

  // ----- Attempt_ and Connected_ -----------------------------------------------------------------

  /**
   * A failure counts once for every success anywhere: a second counted attempt
   * before the next Good_ changes only the time of the last try.
   */
  lemma AttemptCountsOnce(i: Info, countFailure: bool, lastGood: int, time: int, later: int)
    ensures var j := Attempted(i, countFailure, lastGood, time);
            && j.lastTry == time
            && j.attempts == i.attempts + (if countFailure && i.lastCountAttempt < lastGood then 1 else 0)
            && j == i.(lastTry := j.lastTry, attempts := j.attempts, lastCountAttempt := j.lastCountAttempt)
            && (j.attempts == i.attempts ==> j.lastCountAttempt == i.lastCountAttempt)
            && (countFailure && time >= lastGood ==> Attempted(j, countFailure, lastGood, later) == j.(lastTry := later))
  {
  }

  /** A connection moves the time forward, and only by more than twenty minutes. */
  lemma ConnectedForward(i: Info, time: int)
    ensures var j := Connected(i, time);
            && j == i.(time := j.time) && j.time >= i.time && (j.time != i.time ==> j.time == time > i.time + 1200)
            && (time > i.time + 1200 ==> j.time == time)
  {
  }

  // ----- ResolveCollisions_ ------------------------------------------------------------------------

  /** The pending id is known, its address valid, and its tried slot occupied. */
  ghost predicate Contested(h: Hashing, s: State, id: int) {
    && id in s.info && h.valid(s.info[id].svc.addr) && TriedSlot(h, s.key, s.info[id].svc) in s.tried
    && IdOf(s.tried, TriedSlot(h, s.key, s.info[id].svc)) in s.info
  }

  ghost function Occupant(h: Hashing, s: State, id: int): Info
    requires Contested(h, s, id)
  {
    s.info[IdOf(s.tried, TriedSlot(h, s.key, s.info[id].svc))]
  }

  /** The occupant had no success for four hours, but was tried in them, more than a minute ago. */
  ghost predicate Evicts(h: Hashing, s: State, id: int, now: int) {
    && id in s.info && h.valid(s.info[id].svc.addr)
    && (Contested(h, s, id) ==>
          var o := Occupant(h, s, id);
          o.lastSuccess <= now - 14400 && now - 14400 < o.lastTry < now - 60)
  }

  /** The occupant had no success for four hours and its test is outstanding. */
  ghost predicate StaysPending(h: Hashing, s: State, id: int, now: int) {
    Contested(h, s, id) &&
    var o := Occupant(h, s, id);
    o.lastSuccess <= now - 14400 && (o.lastTry <= now - 14400 || o.lastTry >= now - 60)
  }

  /**
   * What happens to one pending id.  It takes the tried slot if and only if the
   * occupant failed its test or there is none; it stays pending if and only if
   * the test is outstanding; in every other case the occupant keeps its place.
   */
  lemma ResolveOutcome(h: Hashing, s: State, id: int, now: int)
    requires Valid(h, s)
    ensures var t := ResolveOne(h, s, id, now);
            && t.collisions == (if StaysPending(h, s, id, now) then s.collisions else s.collisions - {id})
            && (if Evicts(h, s, id, now) then
                  && id in t.info && t.info[id].inTried && t.info[id].lastSuccess == t.info[id].lastTry == t.lastGood == now
                  && t.info[id].attempts == 0
                  && (!s.info[id].inTried ==> TablesOf(t) == Promote(h, s.key, TablesOf(s), PeerOf(s.info[id])))
                else t.info == s.info && TablesOf(t) == TablesOf(s) && t.lastGood == s.lastGood)
  {
    hide Inv, Good, TablesOf, Promote;
    if id in s.info {
      TriedHolder(h, s, TriedSlot(h, s.key, s.info[id].svc));
      KnownByAddr(h, s, id);
      GoodInv(h, s, s.info[id].svc, false, now);
      GoodRecords(h, s, s.info[id].svc, false, now);
    }
    SameTables(s, ResolveOne(h, s, id, now));
    if id in s.info {
      var g := Good(h, s, s.info[id].svc, false, now);
      SameTables(g, g.(collisions := g.collisions - {id}));
    }
  }

  lemma SameTables(s: State, t: State)
    ensures s.news == t.news && s.tried == t.tried && s.info == t.info ==> TablesOf(s) == TablesOf(t)
  {
  }

  lemma TriedHolder(h: Hashing, s: State, ts: Slot)
    requires Valid(h, s)
    ensures ts in s.tried ==> IdOf(s.tried, ts) in s.info && s.info[IdOf(s.tried, ts)].inTried
  {
  }
}
