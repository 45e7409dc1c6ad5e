/**
 * The address manager's own consistency check, and how far it agrees with the
 * invariant proved of every run.
 */
module AddrManCheck {
  import opened AddrManState
  import opened AddrManOps
  import opened AddrManRuns
  import Sets

  /** What the check demands of one entry; an address missing from the index counts as id 0. */
  predicate EntryChecks(i: Info, n: int, byAddr: map<NetAddr, int>, random: seq<int>) {
    && (if i.inTried then i.lastSuccess != 0 && i.refCount == 0 else 1 <= i.refCount <= BUCKETS_PER_ADDRESS)
    && (if i.svc.addr in byAddr then byAddr[i.svc.addr] == n else n == 0)
    && 0 <= i.randomPos < |random| && random[i.randomPos] == n
    && i.lastTry >= 0 && i.lastSuccess >= 0
  }

  ghost predicate EntriesCheck(info: map<int, Info>, byAddr: map<NetAddr, int>, random: seq<int>) {
    forall n :: n in info ==> EntryChecks(info[n], n, byAddr, random)
  }

  /** Reference counts of untried entries are slot occurrences. */
  ghost predicate RefsCheck(info: map<int, Info>, news: map<Slot, int>) {
    forall n :: n in info && !info[n].inTried ==> info[n].refCount == |Slots(news, n)|
  }

  /** What Check_ accepts. */
  ghost predicate Checks(h: Hashing, s: State) {
    && |s.random| == s.nTried + s.nNew
    && EntriesCheck(s.info, s.byAddr, s.random)
    && |TriedIds(s.info)| == s.nTried && |NewIds(s.info)| == s.nNew
    && TriedOk(h, s.key, s.info, s.tried)
    && NewOk(h, s.key, s.info, s.news) && RefsCheck(s.info, s.news)
    && s.key != 0
  }

  /** What Check_ does not look at: the id counter, and the address index from the address to the entry. */
  ghost predicate Indexed(s: State) {
    && (forall n :: n in s.info ==> 0 <= n < s.idCount)
    && (forall a :: a in s.byAddr ==> IdOf(s.byAddr, a) in s.info && s.info[IdOf(s.byAddr, a)].svc.addr == a)
    && (0 in s.info ==> s.info[0].svc.addr in s.byAddr)
  }

  lemma InfoSize(info: map<int, Info>)
    ensures |info| == |TriedIds(info)| + |NewIds(info)|
  {
    assert info.Keys == TriedIds(info) + NewIds(info);
    assert |info| == |info.Keys|;
  }

  /** With as many places as entries, one direction of the index suffices. */
  lemma PositionsFill(info: map<int, Info>, random: seq<int>)
    requires forall n :: n in info ==> 0 <= info[n].randomPos < |random| && random[info[n].randomPos] == n
    requires |random| == |info|
    ensures RandomOk(info, random)
  {
    var all := Sets.Elems(random);
    Sets.ElemsSize(random);
    forall n | n in info ensures n in all { assert random[info[n].randomPos] == n; }
    Sets.SubsetSize(info.Keys, all);
    assert |info| == |info.Keys|;
    forall k | 0 <= k < |random| ensures random[k] in info && info[random[k]].randomPos == k {
      assert random[k] in all;
    }
  }

  lemma RandomFills(info: map<int, Info>, random: seq<int>)
    requires RandomOk(info, random)
    ensures |random| == |info|
  {
    var all := Sets.Elems(random);
    assert all == info.Keys by {
      forall n ensures n in all <==> n in info { }
    }
    assert |info| == |info.Keys|;
    DistinctSize(random);
  }

  lemma {:induction false} DistinctSize(s: seq<int>)
    requires forall i, j :: 0 <= i < j < |s| ==> s[i] != s[j]
    ensures |Sets.Elems(s)| == |s|
  {
    if s == [] {
      assert Sets.Elems(s) == {};
    } else {
      var n := |s| - 1;
      DistinctSize(s[..n]);
      assert s == s[..n] + [s[n]];
      assert Sets.Elems(s) == Sets.Elems(s[..n]) + {s[n]} && s[n] !in Sets.Elems(s[..n]);
    }
  }

  lemma TriedUnreferenced(h: Hashing, key: nat, info: map<int, Info>, news: map<Slot, int>, n: int)
    requires NewOk(h, key, info, news) && n in info && info[n].inTried
    ensures Slots(news, n) == {}
  {
    forall sl | sl in news ensures news[sl] != n { assert !info[IdOf(news, sl)].inTried; }
  }

  lemma ChecksRefs(h: Hashing, key: nat, info: map<int, Info>, news: map<Slot, int>, byAddr: map<NetAddr, int>, random: seq<int>)
    requires NewOk(h, key, info, news) && EntriesCheck(info, byAddr, random) && RefsCheck(info, news)
    ensures RefOk(info, news, {})
  {
    hide NewOk, Slots;
    forall n | n in info ensures info[n].refCount == |Slots(news, n)| <= BUCKETS_PER_ADDRESS {
      assert EntryChecks(info[n], n, byAddr, random);
      if info[n].inTried { TriedUnreferenced(h, key, info, news, n); }
    }
  }

  lemma ChecksAddr(s: State)
    requires EntriesCheck(s.info, s.byAddr, s.random) && Indexed(s)
    ensures AddrOk(s.info, s.byAddr, s.idCount) && StatsOk(s.info)
  {
    forall n | n in s.info ensures s.info[n].svc.addr in s.byAddr && s.byAddr[s.info[n].svc.addr] == n && StatOk(s.info[n]) {
      assert EntryChecks(s.info[n], n, s.byAddr, s.random);
    }
  }

  lemma ChecksValid(h: Hashing, s: State)
    requires Checks(h, s) && Indexed(s)
    ensures Valid(h, s) && StatsOk(s.info)
  {
    hide NewOk, TriedOk, RefOk, RefsCheck, AddrOk, RandomOk, TriedIds, NewIds;
    ChecksAddr(s);
    InfoSize(s.info);
    forall n | n in s.info ensures 0 <= s.info[n].randomPos < |s.random| && s.random[s.info[n].randomPos] == n {
      assert EntryChecks(s.info[n], n, s.byAddr, s.random);
    }
    PositionsFill(s.info, s.random);
    ChecksRefs(h, s.key, s.info, s.news, s.byAddr, s.random);
  }

  lemma ValidEntry(h: Hashing, s: State, n: int)
    requires Valid(h, s) && StatsOk(s.info) && n in s.info
    ensures EntryChecks(s.info[n], n, s.byAddr, s.random)
  {
    hide TriedOk, CountOk;
    if s.info[n].inTried { TriedUnreferenced(h, s.key, s.info, s.news, n); }
  }

  lemma ValidChecks(h: Hashing, s: State)
    requires Valid(h, s) && StatsOk(s.info) && s.key != 0
    ensures Checks(h, s) && Indexed(s)
  {
    hide NewOk, TriedOk, TriedIds, NewIds;
    InfoSize(s.info);
    RandomFills(s.info, s.random);
    forall n | n in s.info ensures EntryChecks(s.info[n], n, s.byAddr, s.random) { ValidEntry(h, s, n); }
  }

  /**
   * The check passes exactly the consistent managers with sensible statistics
   * and a key, up to the id counter and the address index it does not look at.
   */
  lemma ChecksIff(h: Hashing, s: State)
    ensures Checks(h, s) && Indexed(s) <==> Valid(h, s) && StatsOk(s.info) && s.key != 0
  {
    hide Inv, Checks, Indexed, StatsOk;
    if Checks(h, s) && Indexed(s) { ChecksValid(h, s); ChecksKey(h, s); }
    if Valid(h, s) && StatsOk(s.info) && s.key != 0 { ValidChecks(h, s); }
  }

  lemma ChecksKey(h: Hashing, s: State)
    requires Checks(h, s)
    ensures s.key != 0
  {
  }

  /** A manager without entries but with a stale address index passes the check. */
  lemma ChecksMissesIndex(h: Hashing, key: nat, a: NetAddr, n: int)
    requires key != 0
    ensures var s := State(key, 0, map[], map[a := n], [], 0, map[], 0, map[], 1, {});
            Checks(h, s) && !Valid(h, s)
  {
    var s := State(key, 0, map[], map[a := n], [], 0, map[], 0, map[], 1, {});
    assert TriedIds(s.info) == {} && NewIds(s.info) == {};
    assert IdOf(s.byAddr, a) !in s.info;
  }

  /** Positive times in all operations that record one. */
  predicate Timed(op: Op) {
    match op
    case OpGood(_, _, time) => time > 0
    case OpAttempt(_, _, time) => time > 0
    case OpResolve(_, now) => now > 0
    case _ => true
  }

  /** After every run with positive times that never looks up id -1, from a manager that passes, the check passes. */
  lemma {:induction false} RunChecks(h: Hashing, s: State, ops: seq<Op>)
    requires Sound(h, s) && Quiet(h, s, ops) && StatsOk(s.info) && s.key != 0 && forall op :: op in ops ==> Timed(op)
    ensures Checks(h, Run(h, s, ops)) && StatsOk(Run(h, s, ops).info)
    decreases |ops|
  {
    hide Inv, Step, StatsOk, Checks;
    if ops == [] {
      ChecksIff(h, s);
    } else {
      StepInv(h, s, ops[0]);
      StatsStepIff(h, s, ops[0]);
      assert Timed(ops[0]);
      RunChecks(h, Step(h, s, ops[0]), ops[1..]);
    }
  }

  /** After a select that looks up id -1 it fails: the entry there has no reference. */
  lemma BreakFailsCheck(h: Hashing, s: State, op: Op)
    requires Sound(h, s) && Breaks(h, s, op)
    ensures Step(h, s, op).info.Keys == s.info.Keys + {-1} && -1 !in s.info
    ensures !Checks(h, Step(h, s, op))
  {
    hide RandomOk, NewOk, TriedOk, RefOk, CountOk;
    var t := Step(h, s, op);
    assert t.info[-1] == DEFAULT_ENTRY;
    assert !EntryChecks(t.info[-1], -1, t.byAddr, t.random);
  }

  // ----- Check_ -------------------------------------------------------------------------------

  /** The tables are arrays of fixed size. */
  ghost predicate InTables(h: Hashing, news: map<Slot, int>, tried: map<Slot, int>) {
    && (forall sl :: sl in news ==> sl.0 < h.newCount && sl.1 < h.size)
    && (forall sl :: sl in tried ==> sl.0 < h.triedCount && sl.1 < h.size)
  }

  /** The slots a nested loop has passed. */
  ghost predicate Before(sl: Slot, n: nat, i: nat) {
    sl.0 < n || (sl.0 == n && sl.1 < i)
  }

  ghost predicate TriedSlotOk(h: Hashing, key: nat, info: map<int, Info>, tried: map<Slot, int>, sl: Slot)
    requires sl in tried
  {
    IdOf(tried, sl) in info && info[IdOf(tried, sl)].inTried && sl == TriedSlot(h, key, info[IdOf(tried, sl)].svc)
  }

  /** The tried id has been met in its own slot. */
  ghost predicate Met(h: Hashing, key: nat, info: map<int, Info>, tried: map<Slot, int>, x: int, n: nat, i: nat)
    requires x in info
  {
    var sl := TriedSlot(h, key, info[x].svc);
    sl in tried && IdOf(tried, sl) == x && Before(sl, n, i)
  }

  ghost predicate TriedVisited(h: Hashing, key: nat, info: map<int, Info>, tried: map<Slot, int>, left: set<int>, n: nat, i: nat) {
    && (forall sl :: sl in tried && Before(sl, n, i) ==> TriedSlotOk(h, key, info, tried, sl))
    && (forall x :: x in left <==> x in info && info[x].inTried && !Met(h, key, info, tried, x, n, i))
  }

  lemma TriedVisit(h: Hashing, key: nat, info: map<int, Info>, tried: map<Slot, int>, left: set<int>, n: nat, i: nat)
    requires TriedVisited(h, key, info, tried, left, n, i)
    ensures (n, i) !in tried ==> TriedVisited(h, key, info, tried, left, n, i + 1)
    ensures (n, i) in tried && tried[(n, i)] !in left ==> !TriedOk(h, key, info, tried)
    ensures (n, i) in tried && tried[(n, i)] in left ==>
      && tried[(n, i)] in info
      && (TriedSlot(h, key, info[tried[(n, i)]].svc) != (n, i) ==> !TriedOk(h, key, info, tried))
      && (TriedSlot(h, key, info[tried[(n, i)]].svc) == (n, i) ==>
            TriedVisited(h, key, info, tried, left - {tried[(n, i)]}, n, i + 1))
  {
    var sl: Slot := (n, i);
    forall s: Slot ensures Before(s, n, i + 1) <==> Before(s, n, i) || s == sl { }
    if sl in tried {
      assert IdOf(tried, sl) == tried[sl];
    }
  }

  lemma TriedVisitedAll(h: Hashing, key: nat, info: map<int, Info>, tried: map<Slot, int>, left: set<int>)
    requires TriedVisited(h, key, info, tried, left, h.triedCount, 0)
    requires forall sl :: sl in tried ==> sl.0 < h.triedCount && sl.1 < h.size
    ensures left == {} <==> TriedOk(h, key, info, tried)
  {
    forall sl: Slot | sl in tried ensures Before(sl, h.triedCount, 0) { }
    Sets.NonEmpty(left);
    if left == {} {
      forall x | x in info && info[x].inTried ensures Met(h, key, info, tried, x, h.triedCount, 0) { assert x !in left; }
    }
  }

  /** The pass over the tried table: nothing is left over exactly when every tried id is in its own slot. */
  method CheckTried(h: Hashing, key: nat, info: map<int, Info>, tried: map<Slot, int>, setTried: set<int>) returns (r: int, left: set<int>)
    requires forall sl :: sl in tried ==> sl.0 < h.triedCount && sl.1 < h.size
    requires setTried == TriedIds(info)
    ensures r == 0 && left == {} <==> TriedOk(h, key, info, tried)
    ensures r in {0, -11, -17, -18}
  {
    left := setTried;
    assert TriedVisited(h, key, info, tried, left, 0, 0);
    hide TriedVisited, TriedOk, TriedIds;
    for n := 0 to h.triedCount
      invariant TriedVisited(h, key, info, tried, left, n, 0)
    {
      for i := 0 to h.size
        invariant TriedVisited(h, key, info, tried, left, n, i)
      {
        TriedVisit(h, key, info, tried, left, n, i);
        if (n, i) in tried {
          var id := tried[(n, i)];
          if id !in left { return -11, left; }
          var svc := info[id].svc;
          if h.triedHash(key, svc) % h.triedCount != n { return -17, left; }
          if h.posHash(key, svc, false, n) % h.size != i { return -18, left; }
          left := left - {id};
        }
      }
      TriedRowDone(h, key, info, tried, left, n);
    }
    TriedVisitedAll(h, key, info, tried, left);
    r := 0;
  }

  lemma TriedRowDone(h: Hashing, key: nat, info: map<int, Info>, tried: map<Slot, int>, left: set<int>, n: nat)
    requires TriedVisited(h, key, info, tried, left, n, h.size)
    requires forall sl :: sl in tried ==> sl.0 < h.triedCount && sl.1 < h.size
    ensures TriedVisited(h, key, info, tried, left, n + 1, 0)
  {
    forall sl: Slot | sl in tried ensures Before(sl, n, h.size) <==> Before(sl, n + 1, 0) { }
  }

  ghost predicate NewSlotOk(h: Hashing, key: nat, info: map<int, Info>, news: map<Slot, int>, sl: Slot)
    requires sl in news
  {
    IdOf(news, sl) in info && !info[IdOf(news, sl)].inTried && sl == NewSlotIn(h, key, info[IdOf(news, sl)].svc, sl.0)
  }

  /** Slots of an id that the loop has passed. */
  ghost function Passed(news: map<Slot, int>, x: int, n: nat, i: nat): set<Slot> {
    set sl | sl in news && news[sl] == x && Before(sl, n, i)
  }

  /** What is left of each count; spent counts are removed. */
  ghost predicate Remaining(info: map<int, Info>, news: map<Slot, int>, left: map<int, int>, n: nat, i: nat) {
    && (forall x :: x in left ==> x in info)
    && (forall x :: x in info && !info[x].inTried ==> |Passed(news, x, n, i)| <= info[x].refCount)
    && (forall x :: x in info ==> (x in left <==> !info[x].inTried && |Passed(news, x, n, i)| < info[x].refCount))
    && (forall x :: x in left ==> left[x] == info[x].refCount - |Passed(news, x, n, i)|)
  }

  ghost predicate NewVisited(h: Hashing, key: nat, info: map<int, Info>, news: map<Slot, int>, left: map<int, int>, n: nat, i: nat) {
    && (forall sl :: sl in news && Before(sl, n, i) ==> NewSlotOk(h, key, info, news, sl))
    && Remaining(info, news, left, n, i)
  }

  lemma PassedNext(news: map<Slot, int>, x: int, n: nat, i: nat)
    ensures |Passed(news, x, n, i + 1)| == |Passed(news, x, n, i)| + if (n, i) in news && news[(n, i)] == x then 1 else 0
    ensures |Passed(news, x, n, i + 1)| <= |Slots(news, x)|
  {
    var sl: Slot := (n, i);
    assert sl !in Passed(news, x, n, i);
    if sl in news && news[sl] == x {
      assert Passed(news, x, n, i + 1) == Passed(news, x, n, i) + {sl};
    } else {
      assert Passed(news, x, n, i + 1) == Passed(news, x, n, i);
    }
    SlotSubset(Passed(news, x, n, i + 1), Slots(news, x));
  }

  /** One count goes down, and disappears when it reaches zero. */
  function Less(left: map<int, int>, id: int): map<int, int>
    requires id in left
  {
    if left[id] - 1 == 0 then left - {id} else left[id := left[id] - 1]
  }

  lemma RemainingNext(info: map<int, Info>, news: map<Slot, int>, left: map<int, int>, n: nat, i: nat)
    requires Remaining(info, news, left, n, i)
    ensures (n, i) !in news ==> Remaining(info, news, left, n, i + 1)
    ensures (n, i) in news && news[(n, i)] in left ==> Remaining(info, news, Less(left, news[(n, i)]), n, i + 1)
    ensures (n, i) in news && news[(n, i)] in info && !info[news[(n, i)]].inTried && news[(n, i)] !in left ==> !RefsCheck(info, news)
  {
    hide Passed, Slots;
    forall x
      ensures |Passed(news, x, n, i + 1)| == |Passed(news, x, n, i)| + if (n, i) in news && news[(n, i)] == x then 1 else 0
      ensures |Passed(news, x, n, i + 1)| <= |Slots(news, x)|
    {
      PassedNext(news, x, n, i);
    }
    if (n, i) in news {
      var id := news[(n, i)];
      if id in info && !info[id].inTried && id !in left {
        assert info[id].refCount < |Slots(news, id)|;
      }
    }
  }

  lemma NewVisit(h: Hashing, key: nat, info: map<int, Info>, news: map<Slot, int>, left: map<int, int>, n: nat, i: nat)
    requires NewVisited(h, key, info, news, left, n, i)
    ensures (n, i) !in news ==> NewVisited(h, key, info, news, left, n, i + 1)
    ensures (n, i) in news && news[(n, i)] !in left ==> !(NewOk(h, key, info, news) && RefsCheck(info, news))
    ensures (n, i) in news && news[(n, i)] in left ==>
      && news[(n, i)] in info
      && (NewSlotIn(h, key, info[news[(n, i)]].svc, n) != (n, i) ==> !NewOk(h, key, info, news))
      && (NewSlotIn(h, key, info[news[(n, i)]].svc, n) == (n, i) ==>
            NewVisited(h, key, info, news, Less(left, news[(n, i)]), n, i + 1))
  {
    RemainingNext(info, news, left, n, i);
    var sl: Slot := (n, i);
    forall s: Slot ensures Before(s, n, i + 1) <==> Before(s, n, i) || s == sl { }
    if sl in news {
      assert IdOf(news, sl) == news[sl];
      assert news[sl] in left ==> news[sl] in info && !info[news[sl]].inTried;
    }
    hide Less, Passed, Slots, RefsCheck;
  }

  lemma NewRowDone(h: Hashing, key: nat, info: map<int, Info>, news: map<Slot, int>, left: map<int, int>, n: nat)
    requires NewVisited(h, key, info, news, left, n, h.size)
    requires forall sl :: sl in news ==> sl.0 < h.newCount && sl.1 < h.size
    ensures NewVisited(h, key, info, news, left, n + 1, 0)
  {
    forall sl: Slot | sl in news ensures Before(sl, n, h.size) <==> Before(sl, n + 1, 0) { }
    forall x ensures Passed(news, x, n, h.size) == Passed(news, x, n + 1, 0) { }
  }

  lemma NewVisitedAll(h: Hashing, key: nat, info: map<int, Info>, news: map<Slot, int>, left: map<int, int>)
    requires NewVisited(h, key, info, news, left, h.newCount, 0)
    requires forall sl :: sl in news ==> sl.0 < h.newCount && sl.1 < h.size
    ensures left == map[] <==> NewOk(h, key, info, news) && RefsCheck(info, news)
  {
    forall sl: Slot | sl in news ensures Before(sl, h.newCount, 0) { }
    forall x ensures Passed(news, x, h.newCount, 0) == Slots(news, x) { }
    hide Passed, Slots, Before;
    assert NewOk(h, key, info, news);
    if left == map[] {
      forall x | x in info && !info[x].inTried ensures info[x].refCount == |Slots(news, x)| { assert x !in left; }
    }
    if RefsCheck(info, news) {
      forall x ensures x !in left { }
      assert left == map[];
    }
  }

  ghost predicate CountsOf(info: map<int, Info>, counts: map<int, int>) {
    && (forall x :: x in counts <==> x in info && !info[x].inTried)
    && (forall x :: x in counts ==> counts[x] == info[x].refCount >= 1)
  }

  lemma NewStart(h: Hashing, key: nat, info: map<int, Info>, news: map<Slot, int>, counts: map<int, int>)
    requires CountsOf(info, counts)
    ensures NewVisited(h, key, info, news, counts, 0, 0)
  {
    forall x ensures Passed(news, x, 0, 0) == {} { }
  }

  /** The pass over the new table: all counts are used up exactly when slots and reference counts agree. */
  method CheckNew(h: Hashing, key: nat, info: map<int, Info>, news: map<Slot, int>, counts: map<int, int>) returns (r: int, left: map<int, int>)
    requires forall sl :: sl in news ==> sl.0 < h.newCount && sl.1 < h.size
    requires CountsOf(info, counts)
    ensures r == 0 && left == map[] <==> NewOk(h, key, info, news) && RefsCheck(info, news)
    ensures r in {0, -12, -19}
  {
    hide NewVisited, NewOk, RefsCheck, CountsOf;
    left := counts;
    NewStart(h, key, info, news, counts);
    for n := 0 to h.newCount
      invariant NewVisited(h, key, info, news, left, n, 0)
    {
      for i := 0 to h.size
        invariant NewVisited(h, key, info, news, left, n, i)
      {
        NewVisit(h, key, info, news, left, n, i);
        if (n, i) in news {
          var id := news[(n, i)];
          if id !in left { return -12, left; }
          if h.posHash(key, info[id].svc, true, n) % h.size != i { return -19, left; }
          left := Less(left, id);
        }
      }
      NewRowDone(h, key, info, news, left, n);
    }
    NewVisitedAll(h, key, info, news, left);
    r := 0;
  }

  /** The index after lookups that insert 0 for a missing address. */
  ghost predicate Defaulted(before: map<NetAddr, int>, after: map<NetAddr, int>) {
    && (forall a :: a in before ==> a in after && after[a] == before[a])
    && (forall a :: a in after && a !in before ==> after[a] == 0)
  }

  lemma DefaultedSelf(byAddr: map<NetAddr, int>)
    ensures Defaulted(byAddr, byAddr)
  {
  }

  /** Entries outside todo pass, and the id 0 is the only one that can have been added to the index. */
  ghost predicate EntriesVisited(info: map<int, Info>, before: map<NetAddr, int>, after: map<NetAddr, int>, random: seq<int>,
                                 setTried: set<int>, counts: map<int, int>, todo: set<int>) {
    && todo <= info.Keys
    && (forall n :: n in info && n !in todo ==> EntryChecks(info[n], n, before, random))
    && (forall x :: x in setTried <==> x in info && x !in todo && info[x].inTried)
    && (forall x :: x in counts <==> x in info && x !in todo && !info[x].inTried)
    && (forall x :: x in counts ==> counts[x] == info[x].refCount >= 1)
    && Defaulted(before, after)
    && (forall a :: a in after && a !in before ==> 0 in info && 0 !in todo && info[0].svc.addr == a)
  }

  lemma EntryVisit(info: map<int, Info>, before: map<NetAddr, int>, after: map<NetAddr, int>, random: seq<int>,
                   setTried: set<int>, counts: map<int, int>, todo: set<int>, n: int)
    requires EntriesVisited(info, before, after, random, setTried, counts, todo) && n in todo
    ensures var i := info[n];
            var b := if i.svc.addr in after then after else after[i.svc.addr := 0];
            && Defaulted(before, b) && i.svc.addr in b
            && (b[i.svc.addr] == n <==> if i.svc.addr in before then before[i.svc.addr] == n else n == 0)
            && (EntryChecks(i, n, before, random) ==>
                  EntriesVisited(info, before, b, random, if i.inTried then setTried + {n} else setTried,
                                 if i.inTried then counts else counts[n := i.refCount], todo - {n}))
  {
  }

  /** The pass over the entries, in ascending order. */
  method CheckEntries(info: map<int, Info>, byAddr: map<NetAddr, int>, random: seq<int>)
    returns (r: int, after: map<NetAddr, int>, setTried: set<int>, counts: map<int, int>)
    ensures r == 0 <==> EntriesCheck(info, byAddr, random)
    ensures r == 0 ==> setTried == TriedIds(info) && CountsOf(info, counts)
    ensures Defaulted(byAddr, after)
    ensures (forall n :: n in info ==> info[n].svc.addr in byAddr) ==> after == byAddr
    ensures r in {0, -1, -2, -3, -4, -5, -6, -8, -14}
  {
    after, setTried, counts := byAddr, {}, map[];
    var todo := info.Keys;
    assert EntriesVisited(info, byAddr, after, random, setTried, counts, todo);
    while todo != {}
      invariant EntriesVisited(info, byAddr, after, random, setTried, counts, todo)
      invariant (forall n :: n in info ==> info[n].svc.addr in byAddr) ==> after == byAddr
      decreases |todo|
    {
      Sets.LeastExists(todo);
      var n :| Sets.IsLeast(todo, n);
      var i := info[n];
      EntryVisit(info, byAddr, after, random, setTried, counts, todo, n);
      hide EntriesVisited;
      if i.inTried {
        if i.lastSuccess == 0 { return -1, after, setTried, counts; }
        if i.refCount != 0 { return -2, after, setTried, counts; }
        setTried := setTried + {n};
      } else {
        if i.refCount < 0 || i.refCount > BUCKETS_PER_ADDRESS { return -3, after, setTried, counts; }
        if i.refCount == 0 { return -4, after, setTried, counts; }
        counts := counts[n := i.refCount];
      }
      if i.svc.addr !in after { after := after[i.svc.addr := 0]; }
      if after[i.svc.addr] != n { return -5, after, setTried, counts; }
      if i.randomPos < 0 || i.randomPos >= |random| || random[i.randomPos] != n { return -14, after, setTried, counts; }
      if i.lastTry < 0 { return -6, after, setTried, counts; }
      if i.lastSuccess < 0 { return -8, after, setTried, counts; }
      todo := todo - {n};
    }
    forall x ensures x in setTried <==> x in TriedIds(info) { }
    r := 0;
  }

  lemma CountsSize(info: map<int, Info>, counts: map<int, int>)
    requires CountsOf(info, counts)
    ensures |counts| == |NewIds(info)|
  {
    var ids := NewIds(info);
    forall x ensures x in counts.Keys <==> x in ids { }
    assert counts.Keys == ids;
    assert |counts| == |counts.Keys|;
  }

  lemma ValidIndexed(h: Hashing, s: State)
    requires Valid(h, s)
    ensures InTables(h, s.news, s.tried)
    ensures forall n :: n in s.info ==> s.info[n].svc.addr in s.byAddr
  {
    forall sl | sl in s.news ensures sl.0 < h.newCount && sl.1 < h.size { assert IdOf(s.news, sl) in s.info; }
    forall sl | sl in s.tried ensures sl.0 < h.triedCount && sl.1 < h.size { assert IdOf(s.tried, sl) in s.info; }
  }
}
