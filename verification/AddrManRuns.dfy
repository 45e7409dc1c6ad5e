/**
 * Runs of the address manager: operations in any order and with any arguments,
 * what holds after every run, and which managers Clear leaves safe.
 */
module AddrManRuns {
  import opened AddrManState
  import opened AddrManOps
  import Sets

  datatype Op =
    | OpAdd(a: Advert, source: NetAddr, penalty: int, now: int, lucky: bool)
    | OpGood(svc: Service, testBeforeEvict: bool, time: int)
    | OpAttempt(svc: Service, countFailure: bool, time: int)
    | OpConnected(svc: Service, time: int)
    | OpSetServices(svc: Service, services: set<nat>)
    | OpShuffle(i: nat, j: nat)
    | OpResolve(id: int, now: int)
    | OpSelect(id: int)

  ghost function Step(h: Hashing, s: State, op: Op): State
    requires Sound(h, s)
  {
    match op
    case OpAdd(a, source, penalty, now, lucky) => Add(h, s, a, source, penalty, now, lucky)
    case OpGood(svc, test, time) => Good(h, s, svc, test, time)
    case OpAttempt(svc, count, time) => SetStats(s, svc, i => Attempted(i, count, s.lastGood, time))
    case OpConnected(svc, time) => SetStats(s, svc, i => Connected(i, time))
    case OpSetServices(svc, services) => SetStats(s, svc, (i: Info) => i.(services := services))
    case OpShuffle(i, j) => if i < |s.random| && j < |s.random| then SwapRandom(s, i, j) else s
    case OpResolve(id, now) => ResolveOne(h, s, id, now)
    case OpSelect(id) => SelectCollision(h, s, id)
  }

  /** A select that draws a pending id whose tried slot is empty. */
  ghost predicate Breaks(h: Hashing, s: State, op: Op) {
    op.OpSelect? && op.id in s.collisions && LooksUpMinusOne(h, s, op.id)
  }

  /**
   * Every other operation keeps the tables, indexes, vector, reference counts
   * and counters consistent, leaves no tried slot empty, and keeps the promise
   * about pending collisions if it held before.
   */
  lemma StepInv(h: Hashing, s: State, op: Op)
    requires Sound(h, s) && !Breaks(h, s, op)
    ensures Sound(h, Step(h, s, op)) && Ages(s, Step(h, s, op))
    ensures Pending(h, s) ==> Pending(h, Step(h, s, op))
  {
    hide Inv, Add, Good, SwapRandom, SetStats, Pending, ResolveOne;
    match op
    case OpAdd(a, source, penalty, now, lucky) => AddStep(h, s, a, source, penalty, now, lucky);
    case OpGood(svc, test, time) => GoodStep(h, s, svc, test, time);
    case OpAttempt(svc, count, time) => QuietStep(h, s, svc, i => Attempted(i, count, s.lastGood, time));
    case OpConnected(svc, time) => QuietStep(h, s, svc, i => Connected(i, time));
    case OpSetServices(svc, services) => QuietStep(h, s, svc, (i: Info) => i.(services := services));
    case OpShuffle(i, j) => if i < |s.random| && j < |s.random| { ShuffleStep(h, s, i, j); }
    case OpResolve(id, now) => ResolveStep(h, s, id, now);
    case OpSelect(id) => EraseStep(h, s, id);
  }

  /** A step keeps the manager consistent if and only if it is not such a select. */
  lemma StepSoundIff(h: Hashing, s: State, op: Op)
    requires Sound(h, s)
    ensures Sound(h, Step(h, s, op)) <==> !Breaks(h, s, op)
  {
    hide RandomOk, NewOk, TriedOk, RefOk, CountOk, Add, Good, SwapRandom, SetStats, ResolveOne;
    if Breaks(h, s, op) {
      assert -1 !in s.info;
      assert -1 in Step(h, s, op).info;
    } else {
      StepInv(h, s, op);
    }
  }

  /** While the promise about pending collisions holds there is no such select. */
  lemma PendingNeverBreaks(h: Hashing, s: State, op: Op)
    requires Pending(h, s)
    ensures !Breaks(h, s, op)
  {
  }

  lemma QuietStep(h: Hashing, s: State, svc: Service, f: Info -> Info)
    requires Sound(h, s) && forall i :: StatsOnly(i, f(i))
    ensures var t := SetStats(s, svc, f); Sound(h, t) && Ages(s, t) && (Pending(h, s) ==> Pending(h, t))
  {
    hide Inv, SetStats, Pending, TablesOf;
    SetStatsInv(h, s, svc, f);
    if Pending(h, s) { AgesPending(h, s, SetStats(s, svc, f)); }
  }

  /** No step of the run is a select that looks up id -1. */
  ghost predicate Quiet(h: Hashing, s: State, ops: seq<Op>)
    requires Sound(h, s)
    decreases |ops|
  {
    ops == [] || (!Breaks(h, s, ops[0]) && (StepInv(h, s, ops[0]); Quiet(h, Step(h, s, ops[0]), ops[1..])))
  }

  ghost function Run(h: Hashing, s: State, ops: seq<Op>): State
    requires Sound(h, s) && Quiet(h, s, ops)
    decreases |ops|
  {
    if ops == [] then s
    else
      StepInv(h, s, ops[0]);
      Run(h, Step(h, s, ops[0]), ops[1..])
  }

  /** No run, however long, gets to look up id -1. */
  ghost predicate EveryRunSafe(h: Hashing, s: State)
    requires Sound(h, s)
  {
    forall ops :: Quiet(h, s, ops)
  }

  lemma {:induction false} RunAges(h: Hashing, s: State, ops: seq<Op>)
    requires Sound(h, s) && Quiet(h, s, ops)
    ensures var t := Run(h, s, ops);
            Sound(h, t) && Ages(s, t) && (Pending(h, s) ==> Pending(h, t))
    decreases |ops|
  {
    hide Inv, Step, Pending;
    if ops != [] {
      StepInv(h, s, ops[0]);
      RunAges(h, Step(h, s, ops[0]), ops[1..]);
    }
  }

  lemma {:induction false} PendingQuiet(h: Hashing, s: State, ops: seq<Op>)
    requires RunInv(h, s)
    ensures Quiet(h, s, ops)
    decreases |ops|
  {
    hide Inv, Step, Pending, Breaks;
    if ops != [] {
      PendingNeverBreaks(h, s, ops[0]);
      StepInv(h, s, ops[0]);
      PendingQuiet(h, Step(h, s, ops[0]), ops[1..]);
    }
  }

  /**
   * From a consistent manager whose pending collisions have occupants, every
   * run ends in a consistent manager, gives up no tried slot, leaves at most
   * ten collisions pending, and never looks up id -1.
   */
  lemma RunSafe(h: Hashing, s: State, ops: seq<Op>)
    requires RunInv(h, s)
    ensures Quiet(h, s, ops) && EveryRunSafe(h, s)
    ensures var t := Run(h, s, ops); RunInv(h, t) && Ages(s, t) && |t.collisions| <= MAX_COLLISIONS
  {
    hide Inv, Step, Run, Quiet;
    forall any ensures Quiet(h, s, any) { PendingQuiet(h, s, any); }
    RunAges(h, s, ops);
  }

  // ----- Clear ----------------------------------------------------------------------------

  /** Clear leaves the pending collisions alone. */
  ghost function Clear(s: State, key: nat): State {
    State(key, 0, map[], map[], [], 0, map[], 0, map[], 1, s.collisions)
  }

  lemma ClearSound(h: Hashing, s: State, key: nat)
    ensures Sound(h, Clear(s, key))
    ensures s.collisions == {} ==> RunInv(h, Clear(s, key))
  {
  }

  /** The time Add_ stores for a new entry. */
  function Stored(op: Op): int
    requires op.OpAdd?
  {
    Max(0, op.a.time - Penalty(op.a, op.source, op.penalty))
  }

  /** Insertions of different routable addresses. */
  ghost predicate AddsDistinct(h: Hashing, ops: seq<Op>) {
    && (forall i :: 0 <= i < |ops| ==> ops[i].OpAdd? && h.routable(ops[i].a.svc.addr))
    && (forall i, j :: 0 <= i < j < |ops| ==> ops[i].a.svc.addr != ops[j].a.svc.addr)
  }

  /** A fresh entry with this time gives up its slot: unset, too old or too far in the future. */
  predicate Stale(time: int, now: int) {
    time == 0 || now - time > 30 * 24 * 60 * 60 || time > now + 10 * 60
  }

  /** After k insertions the i-th address, if still known, has id i and untouched statistics. */
  ghost predicate FedInfo(h: Hashing, info: map<int, Info>, ops: seq<Op>, k: nat)
    requires AddsDistinct(h, ops) && k <= |ops|
  {
    forall n :: n in info ==>
      0 <= n < k && info[n].svc == ops[n].a.svc && info[n].lastTry == 0 && info[n].time == Stored(ops[n])
  }

  ghost predicate Fed(h: Hashing, s: State, ops: seq<Op>, k: nat)
    requires AddsDistinct(h, ops) && k <= |ops|
  {
    Sound(h, s) && s.idCount == k && s.tried == map[] && FedInfo(h, s.info, ops, k)
  }

  lemma FedUnknown(h: Hashing, s: State, ops: seq<Op>, k: nat)
    requires AddsDistinct(h, ops) && k < |ops| && Fed(h, s, ops, k)
    ensures ops[k].a.svc.addr !in s.byAddr
  {
    hide RandomOk, NewOk, TriedOk, RefOk, CountOk;
    forall a | a in s.byAddr ensures a != ops[k].a.svc.addr {
      assert IdOf(s.byAddr, a) in s.info;
    }
  }

  lemma FedNext(h: Hashing, info: map<int, Info>, after: map<int, Info>, i: Info, ops: seq<Op>, k: nat)
    requires AddsDistinct(h, ops) && k < |ops| && FedInfo(h, info, ops, k) && Carries(info[k := i], after, {})
    requires i.svc == ops[k].a.svc && i.lastTry == 0 && i.time == Stored(ops[k])
    ensures FedInfo(h, after, ops, k + 1)
  {
  }

  /** What Add_ does with an address it does not know. */
  lemma AddNew(h: Hashing, s: State, op: Op)
    requires Sound(h, s) && op.OpAdd? && h.routable(op.a.svc.addr) && op.a.svc.addr !in s.byAddr
    ensures var i := Info(op.a.svc, op.source, Stored(op), op.a.services, 0, 0, 0, 0, 0, false, |s.random|);
            var t := Add(h, s, op.a, op.source, op.penalty, op.now, op.lucky);
            && t == Step(h, s, op) && Sound(h, t) && t.tried == s.tried && t.collisions == s.collisions
            && t.idCount == s.idCount + 1 && Carries(s.info[s.idCount := i], t.info, {})
  {
    hide Inv, Place, View, TablesOf, IsTerrible, Inserts, Carries;
    AddUnknown(h, s, op.a.svc, op.source, Stored(op), op.a.services, op.now);
  }

  /** Each insertion of a new address uses up one id, whether or not the address finds a slot. */
  lemma FedStep(h: Hashing, s: State, ops: seq<Op>, k: nat)
    requires AddsDistinct(h, ops) && k < |ops| && Fed(h, s, ops, k)
    ensures Sound(h, s) && Fed(h, Step(h, s, ops[k]), ops, k + 1) && Step(h, s, ops[k]).collisions == s.collisions
    ensures !Breaks(h, s, ops[k])
    ensures Add(h, s, ops[k].a, ops[k].source, ops[k].penalty, ops[k].now, ops[k].lucky) == Step(h, s, ops[k])
  {
    hide Inv, Add, FedInfo, Carries, Step;
    var op := ops[k];
    FedUnknown(h, s, ops, k);
    AddNew(h, s, op);
    var i := Info(op.a.svc, op.source, Stored(op), op.a.services, 0, 0, 0, 0, 0, false, |s.random|);
    FedNext(h, s.info, Step(h, s, op).info, i, ops, k);
  }

  lemma {:induction false} FedRun(h: Hashing, s: State, ops: seq<Op>, k: nat, m: nat)
    requires AddsDistinct(h, ops) && k <= m <= |ops| && Fed(h, s, ops, k)
    ensures Quiet(h, s, ops[k..m]) && Fed(h, Run(h, s, ops[k..m]), ops, m) && Run(h, s, ops[k..m]).collisions == s.collisions
    decreases m - k
  {
    hide Inv, Step, AddsDistinct, FedInfo, Add;
    if k < m {
      FedStep(h, s, ops, k);
      assert ops[k..m][0] == ops[k] && ops[k..m][1..] == ops[k + 1..m];
      FedRun(h, Step(h, s, ops[k]), ops, k + 1, m);
    }
  }

  lemma {:induction false} RunSnoc(h: Hashing, s: State, ops: seq<Op>, op: Op)
    requires Sound(h, s) && Quiet(h, s, ops)
    ensures Sound(h, Run(h, s, ops)) && (Quiet(h, s, ops + [op]) <==> !Breaks(h, Run(h, s, ops), op))
    ensures !Breaks(h, Run(h, s, ops), op) ==> Run(h, s, ops + [op]) == Step(h, Run(h, s, ops), op)
    decreases |ops|
  {
    hide Inv, Step;
    RunAges(h, s, ops);
    if ops == [] {
      assert ([] + [op])[0] == op && ([] + [op])[1..] == [];
      if !Breaks(h, s, op) {
        StepInv(h, s, op);
        assert Run(h, Step(h, s, op), []) == Step(h, s, op);
      }
    } else {
      StepInv(h, s, ops[0]);
      RunSnoc(h, Step(h, s, ops[0]), ops[1..], op);
      assert (ops + [op])[0] == ops[0] && (ops + [op])[1..] == ops[1..] + [op];
    }
  }

  /** Holders that are all stale give up the slot, so the last address gets one. */
  lemma FedPlaced(h: Hashing, s: State, ops: seq<Op>, k: nat)
    requires AddsDistinct(h, ops) && k < |ops| && Fed(h, s, ops, k)
    requires forall i :: 0 <= i < k ==> Stale(Stored(ops[i]), ops[k].now)
    ensures Sound(h, s) && k in Step(h, s, ops[k]).info
  {
    var op := ops[k];
    FedStep(h, s, ops, k);
    FedUnknown(h, s, ops, k);
    FedInserts(h, s, ops, k, NewSlot(h, s.key, op.a.svc, op.source));
    hide Inv, Step, Add, Inserts, AddsDistinct;
    AddInv(h, s, op.a, op.source, op.penalty, op.now, op.lucky);
    var t := Step(h, s, op);
    ViewKnown(t.news, t.info, NewSlot(h, s.key, op.a.svc, op.source));
    FedAddr(h, t.info, ops, k);
  }

  lemma FedInserts(h: Hashing, s: State, ops: seq<Op>, k: nat, sl: Slot)
    requires AddsDistinct(h, ops) && k < |ops| && Fed(h, s, ops, k)
    requires forall i :: 0 <= i < k ==> Stale(Stored(ops[i]), ops[k].now)
    ensures Inserts(s, sl, true, ops[k].now)
  {
    hide AddrOk, RandomOk, TriedOk, RefOk, CountOk;
    NewKnown(h, s.key, s.info, s.news, sl);
  }

  lemma ViewKnown(table: map<Slot, int>, info: map<int, Info>, sl: Slot)
    ensures sl in View(table, info) ==> exists n :: n in info && PeerOf(info[n]) == View(table, info)[sl]
  {
    if sl in View(table, info) { assert IdOf(table, sl) in info; }
  }

  lemma FedAddr(h: Hashing, info: map<int, Info>, ops: seq<Op>, k: nat)
    requires AddsDistinct(h, ops) && k < |ops| && FedInfo(h, info, ops, k + 1)
    ensures forall n :: n in info && info[n].svc == ops[k].a.svc ==> n == k
  {
  }

  /**
   * A pending id n survives Clear, and after it any n + 1 insertions of different
   * routable addresses lead to a state in which drawing n looks up id -1,
   * provided only that the n earlier entries are stale when the last one is
   * inserted.
   */
  lemma ClearThenAddsLookUpMinusOne(h: Hashing, s: State, key: nat, n: nat, ops: seq<Op>)
    requires n in s.collisions && |ops| == n + 1 && AddsDistinct(h, ops)
    requires forall i :: 0 <= i < n ==> Stale(Stored(ops[i]), ops[n].now)
    ensures Sound(h, Clear(s, key))
    ensures Quiet(h, Clear(s, key), ops) && Breaks(h, Run(h, Clear(s, key), ops), OpSelect(n))
    ensures !Quiet(h, Clear(s, key), ops + [OpSelect(n)])
  {
    ClearSound(h, s, key);
    var c := Clear(s, key);
    hide Inv, Step, Run, AddsDistinct;
    assert ops[0..n] + [ops[n]] == ops;
    FedRun(h, c, ops, 0, n);
    RunSnoc(h, c, ops[0..n], ops[n]);
    FedPlaced(h, Run(h, c, ops[0..n]), ops, n);
    FedStep(h, Run(h, c, ops[0..n]), ops, n);
    RunSnoc(h, c, ops, OpSelect(n));
  }

  /** Insertions of the first addresses of a supply, all with an unset time. */
  ghost function Feed(supply: seq<NetAddr>, m: nat): (ops: seq<Op>)
    requires m <= |supply|
  {
    seq(m, i requires 0 <= i < m => OpAdd(Advert(Service(supply[i], 0), 0, {}), 0, 0, 0, false))
  }

  /**
   * No later run of a cleared manager looks up id -1, and so every one keeps it
   * consistent, if and only if nothing was pending, given as many different
   * routable addresses as the pending ids call for.
   */
  lemma ClearSafeIff(h: Hashing, s: State, key: nat, supply: seq<NetAddr>)
    requires forall n :: n in s.collisions ==> 0 <= n < |supply|
    requires forall i :: 0 <= i < |supply| ==> h.routable(supply[i])
    requires forall i, j :: 0 <= i < j < |supply| ==> supply[i] != supply[j]
    ensures Sound(h, Clear(s, key))
    ensures EveryRunSafe(h, Clear(s, key)) <==> s.collisions == {}
  {
    ClearSound(h, s, key);
    var c := Clear(s, key);
    hide Inv, Step, Run, Pending, Quiet;
    if s.collisions == {} {
      RunSafe(h, c, []);
    } else {
      Sets.NonEmpty(s.collisions);
      var n :| n in s.collisions;
      var ops := Feed(supply, n + 1);
      ClearThenAddsLookUpMinusOne(h, s, key, n, ops);
    }
  }

  // ----- statistics -------------------------------------------------------------------------

  /** No negative times, and a tried entry has been connected to. */
  ghost predicate StatsOk(info: map<int, Info>) {
    forall n :: n in info ==> StatOk(info[n])
  }

  predicate StatOk(i: Info) {
    i.lastTry >= 0 && i.lastSuccess >= 0 && (i.inTried ==> i.lastSuccess != 0)
  }

  /** Good_ on this service leaves sensible statistics: time zero only if the entry stays untried. */
  ghost predicate GoodTime(h: Hashing, s: State, svc: Service, test: bool, time: int) {
    Found(s, svc) ==>
      time > 0 || (time == 0 && !s.info[IdOf(s.byAddr, svc.addr)].inTried && test && TriedSlot(h, s.key, svc) in s.tried)
  }

  ghost predicate TimeOk(h: Hashing, s: State, op: Op) {
    match op
    case OpGood(svc, test, time) => GoodTime(h, s, svc, test, time)
    case OpAttempt(svc, _, time) => Found(s, svc) ==> time >= 0
    case OpResolve(id, now) => Judge(h, s, id, now) == PromoteAndErase ==> now > 0
    case _ => true
  }

  lemma CarriesStats(a: map<int, Info>, b: map<int, Info>, up: set<int>)
    requires StatsOk(a) && Carries(a, b, up) && forall n :: n in up && n in a ==> a[n].lastSuccess > 0
    ensures StatsOk(b)
  {
  }

  lemma UpdateStats(info: map<int, Info>, id: int, i: Info)
    requires StatsOk(info)
    ensures StatsOk(info[id := i]) <==> StatOk(i)
  {
    assert info[id := i][id] == i;
  }

  lemma PromoteStats(h: Hashing, t: State, id: int, time: int)
    requires Valid(h, t) && id in t.info && !t.info[id].inTried && t.info[id].lastSuccess == time
    requires time >= 0 ==> StatsOk(t.info)
    ensures StatsOk(MakeTried(h, t, id).info) <==> time > 0
  {
    hide Inv, MakeTried, TablesOf, Promote;
    MakeTriedInv(h, t, id);
    if time > 0 { CarriesStats(t.info, MakeTried(h, t, id).info, {id}); }
  }

  lemma GoodStats(h: Hashing, s: State, svc: Service, test: bool, time: int)
    requires Valid(h, s) && StatsOk(s.info)
    ensures StatsOk(Good(h, s, svc, test, time).info) <==> GoodTime(h, s, svc, test, time)
  {
    hide AddrOk, NewOk, TriedOk, RandomOk, RefOk, CountOk, View, MakeTried, Slots, StatsOk;
    if Found(s, svc) {
      var id := IdOf(s.byAddr, svc.addr);
      var i := s.info[id].(lastSuccess := time, lastTry := time, attempts := 0);
      var t := s.(lastGood := time, info := s.info[id := i]);
      HasSlot(s.info, s.news, id);
      assert Valid(h, s.(lastGood := time));
      StatsInv(h, s.(lastGood := time), id, i);
      UpdateStats(s.info, id, i);
      if !i.inTried { PromoteStats(h, t, id, time); }
    }
  }

  lemma AddStats(h: Hashing, s: State, a: Advert, source: NetAddr, penalty: int, now: int, lucky: bool)
    requires Sound(h, s) && StatsOk(s.info)
    ensures StatsOk(Add(h, s, a, source, penalty, now, lucky).info)
  {
    hide Inv, Place, StatsOk, TablesOf, Inserts, IsTerrible, Inherits;
    var op := OpAdd(a, source, penalty, now, lucky);
    if h.routable(a.svc.addr) {
      if a.svc.addr in s.byAddr {
        AddKnown(h, s, a, source, Penalty(a, source, penalty), now, lucky);
        var id := IdOf(s.byAddr, a.svc.addr);
        var i := Refreshed(s.info[id], a, Penalty(a, source, penalty), now);
        RefreshStats(s.info, id, i);
        CarriesStats(s.info[id := i], Add(h, s, a, source, penalty, now, lucky).info, {});
      } else {
        AddNew(h, s, op);
        var i := Info(a.svc, source, Stored(op), a.services, 0, 0, 0, 0, 0, false, |s.random|);
        UpdateStats(s.info, s.idCount, i);
        CarriesStats(s.info[s.idCount := i], Add(h, s, a, source, penalty, now, lucky).info, {});
      }
    }
  }

  lemma RefreshStats(info: map<int, Info>, id: int, i: Info)
    requires StatsOk(info) && id in info && i == info[id].(time := i.time, services := i.services)
    ensures StatsOk(info[id := i])
  {
  }

  lemma SetStatsStats(s: State, svc: Service, f: Info -> Info)
    requires StatsOk(s.info)
    ensures StatsOk(SetStats(s, svc, f).info) <==> (Found(s, svc) ==> StatOk(f(s.info[IdOf(s.byAddr, svc.addr)])))
  {
    if Found(s, svc) { UpdateStats(s.info, IdOf(s.byAddr, svc.addr), f(s.info[IdOf(s.byAddr, svc.addr)])); }
  }

  lemma KnownStats(s: State, svc: Service)
    requires StatsOk(s.info) && Found(s, svc)
    ensures StatOk(s.info[IdOf(s.byAddr, svc.addr)])
  {
  }

  lemma ShuffleStats(s: State, i: nat, j: nat)
    requires RandomOk(s.info, s.random) && i < |s.random| && j < |s.random| && StatsOk(s.info)
    ensures StatsOk(SwapRandom(s, i, j).info)
  {
    SwapRandomOk(s, i, j);
  }

  lemma SelfFound(h: Hashing, s: State, id: int)
    requires Valid(h, s) && id in s.info
    ensures Found(s, s.info[id].svc) && IdOf(s.byAddr, s.info[id].svc.addr) == id
  {
  }

  /**
   * Every operation keeps the statistics sensible exactly when its time
   * argument is positive, or when the time does not reach an entry it would spoil.
   */
  lemma StatsStepIff(h: Hashing, s: State, op: Op)
    requires Sound(h, s) && StatsOk(s.info)
    ensures StatsOk(Step(h, s, op).info) <==> TimeOk(h, s, op)
  {
    hide Inv, Add, Good, SwapRandom, StatsOk, RandomOk, GoodTime;
    match op
    case OpAdd(a, source, penalty, now, lucky) => AddStats(h, s, a, source, penalty, now, lucky);
    case OpGood(svc, test, time) => GoodStats(h, s, svc, test, time);
    case OpAttempt(svc, count, time) =>
      SetStatsStats(s, svc, i => Attempted(i, count, s.lastGood, time));
      if Found(s, svc) { KnownStats(s, svc); }
    case OpConnected(svc, time) =>
      SetStatsStats(s, svc, i => Connected(i, time));
      if Found(s, svc) { KnownStats(s, svc); }
    case OpSetServices(svc, services) =>
      SetStatsStats(s, svc, (i: Info) => i.(services := services));
      if Found(s, svc) { KnownStats(s, svc); }
    case OpShuffle(i, j) => if i < |s.random| && j < |s.random| { ShuffleRandom(h, s); ShuffleStats(s, i, j); }
    case OpResolve(id, now) => ResolveStats(h, s, id, now);
    case OpSelect(id) => UpdateStats(s.info, -1, DEFAULT_ENTRY);
  }

  lemma ShuffleRandom(h: Hashing, s: State)
    requires Sound(h, s)
    ensures RandomOk(s.info, s.random)
  {
  }

  lemma ResolveStats(h: Hashing, s: State, id: int, now: int)
    requires Valid(h, s) && StatsOk(s.info)
    ensures StatsOk(ResolveOne(h, s, id, now).info) <==> (Judge(h, s, id, now) == PromoteAndErase ==> now > 0)
  {
    hide Inv, Good, StatsOk, Found;
    if id in s.info {
      SelfFound(h, s, id);
      GoodStats(h, s, s.info[id].svc, false, now);
    }
  }
}
