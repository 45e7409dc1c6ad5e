/**
 * The order in which block assembly looks at candidates, whole runs of its loop,
 * and two runs that leave out a package although it fits.
 */
module MinerRuns {
  import opened Miner

  // ----- the order of candidates ------------------------------------------------------------

  /** All that the order looks at is known. */
  predicate Listed(p: Pool, t: Tx) {
    t in p.anc && t in p.size && t in p.fee && t in p.tag
  }

  /** The fee and the size that count: the transaction's own, or its package's if that rate is lower. */
  function RateFee(p: Pool, t: Tx, m: Modified): int
    requires Listed(p, t)
  {
    if p.fee[t] * m.size > m.fees * p.size[t] then m.fees else p.fee[t]
  }

  function RateSize(p: Pool, t: Tx, m: Modified): int
    requires Listed(p, t)
  {
    if p.fee[t] * m.size > m.fees * p.size[t] then m.size else p.size[t]
  }

  /** CompareTxMemPoolEntryByAncestorFee: the higher rate first, then the lower hash. */
  predicate FeeBefore(p: Pool, a: Tx, ma: Modified, b: Tx, mb: Modified)
    requires Listed(p, a) && Listed(p, b)
  {
    var f1, f2 := RateFee(p, a, ma) * RateSize(p, b, mb), RateSize(p, a, ma) * RateFee(p, b, mb);
    if f1 == f2 then p.tag[a].hash < p.tag[b].hash else f1 > f2
  }

  /** GetCreateOrCall. */
  function Op(g: Tag): nat {
    (if g.calls then 1 else 0) + (if g.creates then 2 else 0)
  }

  /** Among contract transactions with equal ancestry: the gas price, the size, the hash. */
  predicate GasBefore(p: Pool, a: Tx, b: Tx)
    requires Listed(p, a) && Listed(p, b)
  {
    if p.tag[a].gasPrice != p.tag[b].gasPrice then p.tag[a].gasPrice > p.tag[b].gasPrice
    else if p.size[a] != p.size[b] then p.size[a] < p.size[b]
    else p.tag[a].hash < p.tag[b].hash
  }

  /** CompareTxMemPoolEntryByAncestorFeeOrGasPrice: plain transactions first. */
  predicate PoolBefore(p: Pool, full: map<Tx, Modified>, a: Tx, b: Tx)
    requires Listed(p, a) && Listed(p, b) && a in full && b in full
  {
    var x, y := Op(p.tag[a]), Op(p.tag[b]);
    if x == 0 && y == 0 then FeeBefore(p, a, full[a], b, full[b])
    else if x == 0 || y == 0 then x == 0
    else if x != y && (x == 1 || y == 1) then x != 1
    else if AncestorCount(p, a) != AncestorCount(p, b) then AncestorCount(p, a) < AncestorCount(p, b)
    else GasBefore(p, a, b)
  }

  /** CompareModifiedEntry: the same with the figures of the moment; alone means that no ancestor is counted. */
  predicate ModifiedBefore(p: Pool, a: Tx, ma: Modified, b: Tx, mb: Modified)
    requires Listed(p, a) && Listed(p, b)
  {
    var x, y := Op(p.tag[a]), Op(p.tag[b]);
    if x == 0 && y == 0 then FeeBefore(p, a, ma, b, mb)
    else if x == 0 || y == 0 then x == 0
    else if x != y && (x == 1 || y == 1) then x != 1
    else if (ma.size == p.size[a]) != (mb.size == p.size[b]) then ma.size == p.size[a]
    else GasBefore(p, a, b)
  }

  ghost function Rate(p: Pool, t: Tx, m: Modified): real
    requires Listed(p, t) && p.size[t] > 0 && m.size > 0
  {
    RateFee(p, t, m) as real / RateSize(p, t, m) as real
  }

  /** Cross-multiplying compares quotients. */
  lemma CrossMultiply(a: int, b: int, c: int, d: int)
    requires b > 0 && d > 0
    ensures a * d > b * c <==> a as real / b as real > c as real / d as real
    ensures a * d == b * c <==> a as real / b as real == c as real / d as real
  {
    var x, y := a as real / b as real, c as real / d as real;
    assert x * b as real == a as real && y * d as real == c as real;
    var q := b as real * d as real;
    assert q > 0.0;
    assert (a * d) as real == a as real * d as real == x * q;
    assert (b * c) as real == b as real * c as real == y * q;
    if x > y { assert (x - y) * q > 0.0; }
    if x < y { assert (y - x) * q > 0.0; }
  }

  /** The comparison by fees is one of rates. */
  lemma FeeBeforeIs(p: Pool, a: Tx, ma: Modified, b: Tx, mb: Modified)
    requires Listed(p, a) && Listed(p, b) && p.size[a] > 0 && p.size[b] > 0 && ma.size > 0 && mb.size > 0
    ensures FeeBefore(p, a, ma, b, mb) <==>
      Rate(p, a, ma) > Rate(p, b, mb) || (Rate(p, a, ma) == Rate(p, b, mb) && p.tag[a].hash < p.tag[b].hash)
  {
    CrossMultiply(RateFee(p, a, ma), RateSize(p, a, ma), RateFee(p, b, mb), RateSize(p, b, mb));
  }

  /** Sizes are positive, as those of transactions are. */
  ghost predicate Sized(p: Pool, t: Tx, m: Modified) {
    Listed(p, t) && p.size[t] > 0 && m.size > 0
  }

  /** CompareModifiedEntry is a strict order, and total where hashes differ, so there is one best entry. */
  lemma ModifiedIsOrder(p: Pool, a: Tx, ma: Modified, b: Tx, mb: Modified, c: Tx, mc: Modified)
    requires Sized(p, a, ma) && Sized(p, b, mb) && Sized(p, c, mc)
    ensures !ModifiedBefore(p, a, ma, a, ma)
    ensures ModifiedBefore(p, a, ma, b, mb) && ModifiedBefore(p, b, mb, c, mc) ==> ModifiedBefore(p, a, ma, c, mc)
    ensures p.tag[a].hash != p.tag[b].hash ==> ModifiedBefore(p, a, ma, b, mb) || ModifiedBefore(p, b, mb, a, ma)
  {
    hide FeeBefore, Rate;
    FeeBeforeIs(p, a, ma, a, ma);
    FeeBeforeIs(p, a, ma, b, mb);
    FeeBeforeIs(p, b, mb, a, ma);
    FeeBeforeIs(p, b, mb, c, mc);
    FeeBeforeIs(p, a, ma, c, mc);
  }

  /** So is the order of the pool. */
  lemma PoolIsOrder(p: Pool, full: map<Tx, Modified>, a: Tx, b: Tx, c: Tx)
    requires a in full && b in full && c in full && Sized(p, a, full[a]) && Sized(p, b, full[b]) && Sized(p, c, full[c])
    ensures !PoolBefore(p, full, a, a)
    ensures PoolBefore(p, full, a, b) && PoolBefore(p, full, b, c) ==> PoolBefore(p, full, a, c)
    ensures p.tag[a].hash != p.tag[b].hash ==> PoolBefore(p, full, a, b) || PoolBefore(p, full, b, a)
  {
    hide FeeBefore, Rate;
    FeeBeforeIs(p, a, full[a], a, full[a]);
    FeeBeforeIs(p, a, full[a], b, full[b]);
    FeeBeforeIs(p, b, full[b], a, full[a]);
    FeeBeforeIs(p, b, full[b], c, full[c]);
    FeeBeforeIs(p, a, full[a], c, full[c]);
  }

  // ----- the loop -----------------------------------------------------------------------------

  /** What the loop of addPackageTxs carries: the position in the pool order, and the failures in a row. */
  datatype Loop = Loop(mi: nat, modified: map<Tx, Modified>, failed: set<Tx>, block: set<Tx>, load: Load, failures: nat)

  /** The candidate of a round, the first pool entry that is not stale, and the package if it comes to that. */
  datatype Pick = Pick(iter: Tx, usingModified: bool, k: nat, sorted: seq<Tx>)

  /** The whole pool, best first. */
  ghost predicate IsOrder(p: Pool, full: map<Tx, Modified>, order: seq<Tx>) {
    && Elements(order) == p.anc.Keys
    && (forall i :: 0 <= i < |order| ==> Listed(p, order[i]) && order[i] in full)
    && (forall i, j :: 0 <= i < j < |order| ==> order[i] != order[j] && PoolBefore(p, full, order[i], order[j]))
  }

  predicate Stale(a: Loop, t: Tx) {
    t in a.modified || t in a.block || t in a.failed
  }

  /** The first entry of the modified set. */
  ghost predicate Best(p: Pool, modified: map<Tx, Modified>, t: Tx) {
    && t in modified && Listed(p, t)
    && forall u :: u in modified && u != t ==> Listed(p, u) && ModifiedBefore(p, t, modified[t], u, modified[u])
  }

  /** The best modified entry comes before the next entry of the pool. */
  ghost predicate Overtakes(p: Pool, full: map<Tx, Modified>, modified: map<Tx, Modified>, next: Tx) {
    Listed(p, next) && next in full && exists t :: Best(p, modified, t) && ModifiedBefore(p, t, modified[t], next, full[next])
  }

  /** Stale entries of the pool order are passed over, then the better of the two candidates is taken. */
  ghost predicate Picks(p: Pool, full: map<Tx, Modified>, order: seq<Tx>, a: Loop, c: Pick, mi: nat) {
    && a.mi <= c.k <= |order| && (forall i :: a.mi <= i < c.k ==> Stale(a, order[i]))
    && (c.k < |order| ==> !Stale(a, order[c.k]))
    && if c.k == |order| || Overtakes(p, full, a.modified, order[c.k])
       then c.usingModified && Best(p, a.modified, c.iter) && mi == c.k
       else !c.usingModified && c.iter == order[c.k] && mi == c.k + 1
  }

  /** CFeeRate::GetFee for a rate that is not negative. */
  function MinFee(rate: nat, size: int): int {
    if rate * size / 1000 == 0 && size != 0 && rate > 0 then 1 else rate * size / 1000
  }

  /** At least the rate a thousand bytes, rounded down, and never nothing for a positive rate. */
  lemma MinFeeIff(rate: nat, size: int, fees: int)
    requires size > 0
    ensures fees >= MinFee(rate, size) <==> 1000 * (fees + 1) > rate * size && (rate > 0 ==> fees >= 1)
  {
    if rate > 0 { assert rate * size > 0; }
  }

  /** Over a thousand failures in a row on a block that is close to full. */
  predicate GivesUp(lim: Limits, a: Loop) {
    a.failures > 1000 && a.load.weight > lim.maxWeight - 4000
  }

  /** Packages too large count; ones that are not final do not; the others start a new count. */
  function NextFailures(lim: Limits, w: World, load: Load, m: Modified, failures: nat): nat {
    if !Fits(lim, load, m) then failures + 1 else if w.isFinal then 0 else failures
  }

  function CandidateOf(full: map<Tx, Modified>, a: Loop, c: Pick): Candidate {
    Candidate(c.iter, c.usingModified, a.modified, a.failed, full)
  }

  ghost predicate IsCandidate(p: Pool, a: Loop, c: Pick) {
    c.iter in p.anc && c.iter !in a.block && (c.usingModified ==> c.iter in a.modified)
  }

  /** One round of the loop: pick, fee cut-off, and what considering the candidate does. */
  ghost predicate Round(p: Pool, lim: Limits, w: World, rate: nat, full: map<Tx, Modified>, order: seq<Tx>, a: Loop, c: Pick, b: Loop) {
    && !GivesUp(lim, a) && IsCandidate(p, a, c) && Picks(p, full, order, a, c, b.mi)
    && var d := CandidateOf(full, a, c);
    && FiguresOf(p, d).fees >= MinFee(rate, FiguresOf(p, d).size)
    && Outcome(p, lim, w, d, a.load, a.block, b.modified, b.failed, c.sorted, b.load, b.block)
    && b.failures == NextFailures(lim, w, a.load, FiguresOf(p, d), a.failures)
  }

  /** The candidate pays less than the cut-off. */
  ghost predicate CutOff(p: Pool, rate: nat, full: map<Tx, Modified>, order: seq<Tx>, a: Loop, c: Pick, mi: nat) {
    && IsCandidate(p, a, c) && Picks(p, full, order, a, c, mi)
    && var m := FiguresOf(p, CandidateOf(full, a, c));
       m.fees < MinFee(rate, m.size)
  }

  ghost predicate Ended(order: seq<Tx>, a: Loop) {
    a.modified == map[] && forall i :: a.mi <= i < |order| ==> Stale(a, order[i])
  }

  ghost predicate Traced(p: Pool, lim: Limits, world: nat -> World, rate: nat, full: map<Tx, Modified>, order: seq<Tx>, trace: seq<Loop>, picks: seq<Pick>) {
    && |trace| == |picks| + 1
    && forall i :: 0 <= i < |picks| ==> Round(p, lim, world(i), rate, full, order, trace[i], picks[i], trace[i + 1])
  }

  /** A run from an empty block until nothing is left to look at. */
  ghost predicate IsRun(p: Pool, lim: Limits, world: nat -> World, rate: nat, full: map<Tx, Modified>, order: seq<Tx>, trace: seq<Loop>, picks: seq<Pick>) {
    && ValidPool(p) && FullOk(p, full) && IsOrder(p, full, order)
    && Traced(p, lim, world, rate, full, order, trace, picks)
    && trace[0] == Loop(0, map[], {}, {}, Load(4000, 400), 0) && Ended(order, trace[|picks|])
  }

  // ----- nothing is overlooked --------------------------------------------------------------------

  /**
   * The round has t as its candidate, and it is too large by its figures or not
   * final; or t is in the package of the round from where that stops, because of
   * a contract that does not fit or a time-out.
   */
  ghost predicate TurnedDown(p: Pool, lim: Limits, w: World, full: map<Tx, Modified>, a: Loop, c: Pick, t: Tx) {
    && IsCandidate(p, a, c)
    && if !Fits(lim, a.load, FiguresOf(p, CandidateOf(full, a, c))) || !w.isFinal then t == c.iter
       else
         && (forall u :: u in c.sorted ==> u in p.weight && u in p.sigOps)
         && var h := Halt(p, lim, w, c.sorted, a.load, 0);
            h.0 < |c.sorted| && Stops(p, lim, w, h.1, c.sorted[h.0], h.0) && t in Elements(c.sorted[h.0..])
  }

  ghost predicate TurnedDownBefore(p: Pool, lim: Limits, world: nat -> World, full: map<Tx, Modified>, trace: seq<Loop>, picks: seq<Pick>, n: nat, t: Tx)
    requires |trace| == |picks| + 1 && n <= |picks|
  {
    exists j :: 0 <= j < n && TurnedDown(p, lim, world(j), full, trace[j], picks[j], t)
  }

  lemma {:induction false} HaltStops(p: Pool, lim: Limits, w: World, sorted: seq<Tx>, load: Load, i: nat)
    requires i <= |sorted| && forall t :: t in sorted ==> t in p.weight && t in p.sigOps
    ensures var h := Halt(p, lim, w, sorted, load, i); h.0 < |sorted| ==> Stops(p, lim, w, h.1, sorted[h.0], h.0)
    decreases |sorted| - i
  {
    hide Stops, LoadAfter;
    if i < |sorted| && !Stops(p, lim, w, load, sorted[i], i) {
      HaltStops(p, lim, w, sorted, LoadAfter(p, w, load, sorted[i]), i + 1);
    }
  }

  lemma ElementsSplit(s: seq<Tx>, k: nat, t: Tx)
    requires k <= |s| && t in Elements(s)
    ensures t in Elements(s[..k]) || t in Elements(s[k..])
  {
    var i :| 0 <= i < |s| && s[i] == t;
    if i < k { assert s[..k][i] == t; } else { assert s[k..][i - k] == t; }
  }

  /** A round loses nothing: what leaves the modified set or is marked is in the block or turned down. */
  lemma RoundKeeps(p: Pool, lim: Limits, w: World, rate: nat, full: map<Tx, Modified>, order: seq<Tx>, a: Loop, c: Pick, b: Loop, t: Tx)
    requires Round(p, lim, w, rate, full, order, a, c, b)
    ensures a.block <= b.block
    ensures t in a.modified || t == c.iter ==> t in b.modified || t in b.block || TurnedDown(p, lim, w, full, a, c, t)
    ensures t in b.failed ==> t in a.failed || t in b.block || TurnedDown(p, lim, w, full, a, c, t)
  {
    hide Picks, Halt, Stops, IsPackage, Full, Elements, MinFee, Touched, Credit;
    var d := CandidateOf(full, a, c);
    if Fits(lim, a.load, FiguresOf(p, d)) && w.isFinal {
      HaltStops(p, lim, w, c.sorted, a.load, 0);
      var h := Halt(p, lim, w, c.sorted, a.load, 0);
      assert c.iter in Elements(c.sorted);
      if t in Elements(c.sorted) {
        ElementsSplit(c.sorted, h.0, t);
        if h.0 == |c.sorted| { NoElements(c.sorted, h.0, t); }
      }
    }
  }

  lemma NoElements(s: seq<Tx>, k: nat, t: Tx)
    requires k == |s|
    ensures t !in Elements(s[k..])
  {
  }

  /** What the pool order was passed over for, and what was marked, has been dealt with. */
  ghost predicate Settled(p: Pool, lim: Limits, world: nat -> World, full: map<Tx, Modified>, order: seq<Tx>, trace: seq<Loop>, picks: seq<Pick>, n: nat, t: Tx)
    requires |trace| == |picks| + 1 && n <= |picks|
  {
    var a := trace[n];
    && ((exists q :: 0 <= q < a.mi && q < |order| && order[q] == t) ==>
          t in a.block || t in a.modified || TurnedDownBefore(p, lim, world, full, trace, picks, n, t))
    && (t in a.failed ==> t in a.block || TurnedDownBefore(p, lim, world, full, trace, picks, n, t))
  }

  /** The pool order is left behind only for stale entries and the candidate itself. */
  lemma PassedOver(p: Pool, full: map<Tx, Modified>, order: seq<Tx>, a: Loop, c: Pick, mi: nat, q: nat)
    requires Picks(p, full, order, a, c, mi) && q < mi && q < |order|
    ensures q < a.mi || Stale(a, order[q]) || order[q] == c.iter
  {
  }

  lemma SettledNext(p: Pool, lim: Limits, world: nat -> World, rate: nat, full: map<Tx, Modified>, order: seq<Tx>, trace: seq<Loop>, picks: seq<Pick>, n: nat, t: Tx)
    requires Traced(p, lim, world, rate, full, order, trace, picks) && n < |picks|
    requires Settled(p, lim, world, full, order, trace, picks, n, t)
    ensures Settled(p, lim, world, full, order, trace, picks, n + 1, t)
  {
    hide Round, Picks, TurnedDown;
    var a, c, b := trace[n], picks[n], trace[n + 1];
    RoundKeeps(p, lim, world(n), rate, full, order, a, c, b, t);
    RoundPicks(p, lim, world(n), rate, full, order, a, c, b);
    if TurnedDown(p, lim, world(n), full, a, c, t) || TurnedDownBefore(p, lim, world, full, trace, picks, n, t) {
      assert TurnedDownBefore(p, lim, world, full, trace, picks, n + 1, t);
    }
    if q :| 0 <= q < b.mi && q < |order| && order[q] == t {
      PassedOver(p, full, order, a, c, b.mi, q);
    }
  }

  lemma RoundPicks(p: Pool, lim: Limits, w: World, rate: nat, full: map<Tx, Modified>, order: seq<Tx>, a: Loop, c: Pick, b: Loop)
    requires Round(p, lim, w, rate, full, order, a, c, b)
    ensures Picks(p, full, order, a, c, b.mi)
  {
  }

  lemma {:induction false} SettledAt(p: Pool, lim: Limits, world: nat -> World, rate: nat, full: map<Tx, Modified>, order: seq<Tx>, trace: seq<Loop>, picks: seq<Pick>, n: nat, t: Tx)
    requires Traced(p, lim, world, rate, full, order, trace, picks) && n <= |picks|
    requires trace[0].mi == 0 && trace[0].failed == {}
    ensures Settled(p, lim, world, full, order, trace, picks, n, t)
  {
    hide Traced;
    if n > 0 {
      SettledAt(p, lim, world, rate, full, order, trace, picks, n - 1, t);
      SettledNext(p, lim, world, rate, full, order, trace, picks, n - 1, t);
    }
  }

  /**
   * Nothing is overlooked: in a loop that ran to its end every transaction of
   * the pool is in the block, or was turned down in some round.
   */
  lemma NothingOverlooked(p: Pool, lim: Limits, world: nat -> World, rate: nat, full: map<Tx, Modified>, order: seq<Tx>, trace: seq<Loop>, picks: seq<Pick>, t: Tx)
    requires Traced(p, lim, world, rate, full, order, trace, picks) && Elements(order) == p.anc.Keys && t in p.anc
    requires trace[0].mi == 0 && trace[0].failed == {} && Ended(order, trace[|picks|])
    ensures t in trace[|picks|].block || TurnedDownBefore(p, lim, world, full, trace, picks, |picks|, t)
  {
    hide Round, TurnedDownBefore;
    assert t in Elements(order);
    SettledAt(p, lim, world, rate, full, order, trace, picks, |picks|, t);
    var q :| 0 <= q < |order| && order[q] == t;
    var a := trace[|picks|];
    if q >= a.mi { assert Stale(a, order[q]); }
  }

  // ----- nothing is looked at twice ------------------------------------------------------------------

  lemma RoundAdvances(p: Pool, lim: Limits, w: World, rate: nat, full: map<Tx, Modified>, order: seq<Tx>, a: Loop, c: Pick, b: Loop)
    requires Round(p, lim, w, rate, full, order, a, c, b)
    ensures a.failed <= b.failed && a.mi <= c.k <= b.mi
    ensures !c.usingModified ==> c.k < |order| && c.iter == order[c.k] && b.mi == c.k + 1 && c.iter !in a.failed
    ensures c.usingModified && c.iter !in b.block && (forall k :: !w.timeUp(k)) ==> c.iter in b.failed
  {
    hide Halt, Stops, IsPackage, Full, Elements, MinFee, Updated, Overtakes, Best;
    var d := CandidateOf(full, a, c);
    if Fits(lim, a.load, FiguresOf(p, d)) && w.isFinal {
      var h := Halt(p, lim, w, c.sorted, a.load, 0);
      assert c.iter in Elements(c.sorted);
      assert c.sorted[..|c.sorted|] == c.sorted;
    }
  }

  lemma {:induction false} Advances(p: Pool, lim: Limits, world: nat -> World, rate: nat, full: map<Tx, Modified>, order: seq<Tx>, trace: seq<Loop>, picks: seq<Pick>, i: nat, j: nat)
    requires Traced(p, lim, world, rate, full, order, trace, picks) && i <= j <= |picks|
    ensures trace[i].mi <= trace[j].mi && trace[i].failed <= trace[j].failed
    decreases j - i
  {
    hide Round;
    if i < j {
      Advances(p, lim, world, rate, full, order, trace, picks, i, j - 1);
      RoundAdvances(p, lim, world(j - 1), rate, full, order, trace[j - 1], picks[j - 1], trace[j]);
    }
  }

  /**
   * An entry is taken from the pool order at most once, and not at all once it
   * failed as a modified entry, unless that was for want of time.
   */
  lemma NotTwice(p: Pool, lim: Limits, world: nat -> World, rate: nat, full: map<Tx, Modified>, order: seq<Tx>, trace: seq<Loop>, picks: seq<Pick>, i: nat, j: nat)
    requires Traced(p, lim, world, rate, full, order, trace, picks) && IsOrder(p, full, order)
    requires i < j < |picks| && !picks[j].usingModified
    ensures !picks[i].usingModified ==> picks[i].iter != picks[j].iter
    ensures picks[i].usingModified && picks[i].iter !in trace[i + 1].block && (forall k :: !world(i).timeUp(k)) ==> picks[i].iter != picks[j].iter
  {
    hide Round, PoolBefore, Elements;
    RoundAdvances(p, lim, world(i), rate, full, order, trace[i], picks[i], trace[i + 1]);
    Advances(p, lim, world, rate, full, order, trace, picks, i + 1, j);
    RoundAdvances(p, lim, world(j), rate, full, order, trace[j], picks[j], trace[j + 1]);
  }

  // ----- addPackageTxs ------------------------------------------------------------------------------

  /** Transactions have a size, and different ones different hashes. */
  ghost predicate Comparable(p: Pool) {
    && (forall t :: t in p.anc ==> Listed(p, t) && p.size[t] > 0)
    && (forall t, u :: t in p.anc && u in p.anc && t != u ==> Listed(p, t) && Listed(p, u) && p.tag[t].hash != p.tag[u].hash)
  }

  /** Every modified entry is Sized. */
  ghost predicate AllSized(p: Pool, modified: map<Tx, Modified>) {
    forall t :: t in modified ==> t in p.anc && Sized(p, t, modified[t])
  }

  lemma ModifiedSized(p: Pool, modified: map<Tx, Modified>, block: set<Tx>)
    requires ValidPool(p) && Comparable(p) && ModifiedOk(p, modified, block, block)
    ensures AllSized(p, modified)
  {
    hide Sum;
    forall t | t in modified ensures t in p.anc && Sized(p, t, modified[t]) {
      assert Covers(p, modified[t], t, block);
      SumMono(p.size, {t}, Remaining(p, t, block));
      var none: set<Tx> := {};
      SumNone(p.size);
      SumNext(p.size, none, t);
      assert none + {t} == {t};
    }
  }

  lemma BestUnique(p: Pool, modified: map<Tx, Modified>, t: Tx, u: Tx)
    requires AllSized(p, modified) && Best(p, modified, t) && Best(p, modified, u)
    ensures t == u
  {
    hide ModifiedBefore;
    if t != u { ModifiedIsOrder(p, t, modified[t], u, modified[u], t, modified[t]); }
  }

  ghost predicate BestOf(p: Pool, modified: map<Tx, Modified>, seen: set<Tx>, t: Tx) {
    && seen <= modified.Keys && t in seen && Listed(p, t)
    && forall u :: u in seen && u != t ==> Listed(p, u) && ModifiedBefore(p, t, modified[t], u, modified[u])
  }

  lemma BestNext(p: Pool, modified: map<Tx, Modified>, seen: set<Tx>, t: Tx, u: Tx)
    requires AllSized(p, modified) && Comparable(p) && BestOf(p, modified, seen, t) && u in modified && u !in seen
    requires Listed(p, u)
    ensures BestOf(p, modified, seen + {u}, if ModifiedBefore(p, u, modified[u], t, modified[t]) then u else t)
  {
    hide ModifiedBefore;
    ModifiedIsOrder(p, u, modified[u], t, modified[t], t, modified[t]);
    if ModifiedBefore(p, u, modified[u], t, modified[t]) {
      forall v | v in seen && v != t ensures ModifiedBefore(p, u, modified[u], v, modified[v]) {
        ModifiedIsOrder(p, u, modified[u], t, modified[t], v, modified[v]);
      }
    }
  }

  /** The first entry of the ordered index. */
  method FirstOf(p: Pool, modified: map<Tx, Modified>) returns (t: Tx)
    requires AllSized(p, modified) && Comparable(p) && modified.Keys != {}
    ensures Best(p, modified, t)
  {
    hide Comparable, ModifiedBefore;
    NonEmpty(modified.Keys);
    t :| t in modified.Keys;
    var todo := modified.Keys - {t};
    assert modified.Keys - todo == {t};
    while todo != {}
      invariant todo <= modified.Keys && BestOf(p, modified, modified.Keys - todo, t)
      decreases |todo|
    {
      NonEmpty(todo);
      var u :| u in todo;
      assert u in modified && Sized(p, u, modified[u]);
      BestNext(p, modified, modified.Keys - todo, t, u);
      assert modified.Keys - todo + {u} == modified.Keys - (todo - {u});
      if ModifiedBefore(p, u, modified[u], t, modified[t]) { t := u; }
      todo := todo - {u};
    }
    assert modified.Keys - todo == modified.Keys;
  }

  /** Stale entries have been passed over from the state's own position up to mi. */
  ghost predicate PassedTo(order: seq<Tx>, a: Loop, mi: nat) {
    a.mi <= mi <= |order| && forall i :: a.mi <= i < mi ==> Stale(a, order[i])
  }

  /** The better of the next pool entry and the best modified one. */
  method PickCandidate(p: Pool, full: map<Tx, Modified>, order: seq<Tx>, ghost a: Loop, mi: nat, modified: map<Tx, Modified>)
    returns (iter: Tx, usingModified: bool, mi': nat)
    requires AllSized(p, modified) && Comparable(p) && full.Keys == p.anc.Keys && Elements(order) == p.anc.Keys
    requires a.modified == modified && PassedTo(order, a, mi)
    requires if mi == |order| then modified.Keys != {} else !Stale(a, order[mi])
    ensures mi' == (if usingModified then mi else mi + 1) && (usingModified ==> iter in modified) && (!usingModified ==> mi < |order| && iter == order[mi])
    ensures Picks(p, full, order, a, Pick(iter, usingModified, mi, []), mi')
  {
    hide ModifiedBefore, Best, AllSized;
    if mi < |order| { assert order[mi] in Elements(order); }
    if modified.Keys == {} {
      NoBest(p, modified);
      return order[mi], false, mi + 1;
    }
    iter := FirstOf(p, modified);
    BestIn(p, modified, iter);
    if mi == |order| || ModifiedBefore(p, iter, modified[iter], order[mi], full[order[mi]]) {
      return iter, true, mi;
    }
    forall t | Best(p, modified, t) ensures t == iter { BestUnique(p, modified, t, iter); }
    return order[mi], false, mi + 1;
  }

  lemma NoBest(p: Pool, modified: map<Tx, Modified>)
    requires modified.Keys == {}
    ensures forall t :: !Best(p, modified, t)
  {
  }

  lemma BestIn(p: Pool, modified: map<Tx, Modified>, t: Tx)
    requires Best(p, modified, t)
    ensures t in modified && Listed(p, t)
  {
  }

  lemma TracedNext(p: Pool, lim: Limits, world: nat -> World, rate: nat, full: map<Tx, Modified>, order: seq<Tx>, trace: seq<Loop>, picks: seq<Pick>, c: Pick, b: Loop)
    requires Traced(p, lim, world, rate, full, order, trace, picks)
    requires Round(p, lim, world(|picks|), rate, full, order, trace[|picks|], c, b)
    ensures Traced(p, lim, world, rate, full, order, trace + [b], picks + [c])
  {
    hide Round;
    var tr, pi := trace + [b], picks + [c];
    forall i | 0 <= i < |pi| ensures Round(p, lim, world(i), rate, full, order, tr[i], pi[i], tr[i + 1]) {
      if i < |picks| { assert tr[i] == trace[i] && tr[i + 1] == trace[i + 1] && pi[i] == picks[i]; }
    }
  }

  datatype Stop = Done | OutOfTime | FeeTooLow | GaveUp

  /** The state the loop starts from: descendants of what is in the block are modified. */
  ghost predicate Starts(p: Pool, full: map<Tx, Modified>, block: set<Tx>, load: Load, a: Loop) {
    a == Loop(0, a.modified, {}, block, load, 0) && Updated(p, map[], full, block, block, a.modified)
  }

  /** Why the loop stopped where it did. */
  ghost predicate StopsFor(p: Pool, lim: Limits, world: nat -> World, rate: nat, full: map<Tx, Modified>, order: seq<Tx>,
                           trace: seq<Loop>, picks: seq<Pick>, stop: Stop, outOfTime: nat -> bool)
    requires |trace| == |picks| + 1
  {
    var last := trace[|picks|];
    match stop
    case Done => Ended(order, last) && forall t :: t in p.anc && t !in last.block ==> TurnedDownBefore(p, lim, world, full, trace, picks, |picks|, t)
    case OutOfTime => exists i :: outOfTime(i)
    case FeeTooLow => exists c: Pick, mi: nat :: CutOff(p, rate, full, order, last, c, mi)
    case GaveUp => GivesUp(lim, last)
  }

  /** All that stays fixed while the loop runs. */
  datatype Setting = Setting(p: Pool, lim: Limits, world: nat -> World, rate: nat, full: map<Tx, Modified>, order: seq<Tx>, block: set<Tx>, load: Load)

  /** Within the limits, unless nothing was added at all. */
  predicate Within(lim: Limits, from: Load, to: Load) {
    (to.weight == from.weight || to.weight < lim.maxWeight) && (to.sigOps == from.sigOps || to.sigOps < lim.maxSigOps)
  }

  /** The block has only grown, and a pool of plain transactions keeps it within the limits. */
  ghost predicate Grown(s: Setting, a: Loop) {
    s.block <= a.block && (s.p.contracts == {} ==> Within(s.lim, s.load, a.load))
  }

  /** The loop is at a, with the pool order passed up to mi. */
  ghost predicate Running(s: Setting, trace: seq<Loop>, picks: seq<Pick>, a: Loop, mi: nat) {
    && Grown(s, a)
    && Traced(s.p, s.lim, s.world, s.rate, s.full, s.order, trace, picks) && Starts(s.p, s.full, s.block, s.load, trace[0])
    && a == trace[|picks|] && PassedTo(s.order, a, mi) && !GivesUp(s.lim, a)
  }

  /** The loop has ended, for the given reason. */
  ghost predicate Ran(s: Setting, trace: seq<Loop>, picks: seq<Pick>, last: Loop, stop: Stop, outOfTime: nat -> bool) {
    && Grown(s, last)
    && Traced(s.p, s.lim, s.world, s.rate, s.full, s.order, trace, picks) && Starts(s.p, s.full, s.block, s.load, trace[0])
    && last == trace[|picks|] && StopsFor(s.p, s.lim, s.world, s.rate, s.full, s.order, trace, picks, stop, outOfTime)
  }

  lemma RunStarts(s: Setting, a: Loop)
    requires a == Loop(0, a.modified, {}, s.block, s.load, 0) && Updated(s.p, map[], s.full, s.block, s.block, a.modified)
    ensures Running(s, [a], [], a, 0)
  {
  }

  lemma RunPasses(s: Setting, trace: seq<Loop>, picks: seq<Pick>, a: Loop, mi: nat)
    requires Running(s, trace, picks, a, mi)
    ensures PassedTo(s.order, a, mi) && !GivesUp(s.lim, a)
    ensures mi < |s.order| && Stale(a, s.order[mi]) ==> Running(s, trace, picks, a, mi + 1)
  {
  }

  /** After a round the loop goes on, or gives up. */
  lemma RunGoesOn(s: Setting, trace: seq<Loop>, picks: seq<Pick>, a: Loop, mi: nat, c: Pick, b: Loop, outOfTime: nat -> bool)
    requires Running(s, trace, picks, a, mi) && b.mi <= |s.order|
    requires Round(s.p, s.lim, s.world(|picks|), s.rate, s.full, s.order, a, c, b)
    requires a.block <= b.block && (s.p.contracts == {} ==> Within(s.lim, a.load, b.load))
    ensures if b.failures > 1000 && b.load.weight > s.lim.maxWeight - 4000
            then Ran(s, trace + [b], picks + [c], b, GaveUp, outOfTime)
            else Running(s, trace + [b], picks + [c], b, b.mi)
  {
    hide Round, Starts;
    TracedNext(s.p, s.lim, s.world, s.rate, s.full, s.order, trace, picks, c, b);
    assert (trace + [b])[0] == trace[0];
  }

  lemma RunTimesOut(s: Setting, trace: seq<Loop>, picks: seq<Pick>, a: Loop, mi: nat, outOfTime: nat -> bool, tick: nat)
    requires Running(s, trace, picks, a, mi) && outOfTime(tick)
    ensures Ran(s, trace, picks, a, OutOfTime, outOfTime)
  {
    hide Traced, Starts;
    TracedSize(s, trace, picks);
  }

  lemma TracedSize(s: Setting, trace: seq<Loop>, picks: seq<Pick>)
    requires Traced(s.p, s.lim, s.world, s.rate, s.full, s.order, trace, picks)
    ensures |trace| == |picks| + 1
  {
  }

  lemma RunIsCutOff(s: Setting, trace: seq<Loop>, picks: seq<Pick>, a: Loop, mi: nat, outOfTime: nat -> bool, c: Pick, next: nat)
    requires Running(s, trace, picks, a, mi) && CutOff(s.p, s.rate, s.full, s.order, a, c, next)
    ensures Ran(s, trace, picks, a, FeeTooLow, outOfTime)
  {
    hide Traced, Starts, CutOff;
    TracedSize(s, trace, picks);
  }

  lemma RunIsDone(s: Setting, trace: seq<Loop>, picks: seq<Pick>, a: Loop, outOfTime: nat -> bool)
    requires Running(s, trace, picks, a, |s.order|) && a.modified.Keys == {} && Elements(s.order) == s.p.anc.Keys
    ensures Ran(s, trace, picks, a, Done, outOfTime)
  {
    hide Round, TurnedDownBefore, Elements, Updated;
    assert a.modified == map[];
    forall t | t in s.p.anc && t !in a.block ensures TurnedDownBefore(s.p, s.lim, s.world, s.full, trace, picks, |picks|, t) {
      NothingOverlooked(s.p, s.lim, s.world, s.rate, s.full, s.order, trace, picks, t);
    }
  }

  lemma OrderKeys(p: Pool, full: map<Tx, Modified>, order: seq<Tx>)
    requires IsOrder(p, full, order)
    ensures Elements(order) == p.anc.Keys
  {
  }

  lemma PicksPackage(p: Pool, full: map<Tx, Modified>, order: seq<Tx>, a: Loop, iter: Tx, usingModified: bool, k: nat, sorted: seq<Tx>, mi: nat)
    requires Picks(p, full, order, a, Pick(iter, usingModified, k, []), mi)
    ensures Picks(p, full, order, a, Pick(iter, usingModified, k, sorted), mi)
  {
  }

  lemma CandidateKnown(p: Pool, order: seq<Tx>, a: Loop, c: Pick)
    requires Elements(order) == p.anc.Keys && ModifiedOk(p, a.modified, a.block, a.block)
    requires if c.usingModified then c.iter in a.modified else c.k < |order| && c.iter == order[c.k] && !Stale(a, c.iter)
    ensures IsCandidate(p, a, c)
  {
    if !c.usingModified { assert order[c.k] in Elements(order); }
  }

  /** What can still go in, and what is still to be looked at. */
  ghost function Left(p: Pool, block: set<Tx>): nat {
    |p.anc.Keys - block|
  }

  ghost function Todo(order: seq<Tx>, mi: nat, modified: map<Tx, Modified>): nat {
    (if mi < |order| then |order| - mi else 0) + |modified.Keys|
  }

  lemma TodoPasses(order: seq<Tx>, mi: nat, modified: map<Tx, Modified>)
    ensures mi < |order| ==> Todo(order, mi + 1, modified) < Todo(order, mi, modified)
  {
  }

  /** The rest of a loop pass, once the pool order is not at a stale entry. */
  method TakeTurn(b: BlockAssembler, full: map<Tx, Modified>, order: seq<Tx>, rate: nat, w: World, ghost a: Loop,
                  mi: nat, modified: map<Tx, Modified>, failed: set<Tx>, failures: nat)
    returns (tooLow: bool, mi': nat, modified': map<Tx, Modified>, failed': set<Tx>, failures': nat, ghost c: Pick)
    requires b.Valid() && FullOk(b.pool, full) && Elements(order) == b.pool.anc.Keys && Comparable(b.pool)
    requires ModifiedOk(b.pool, modified, b.inBlock, b.inBlock)
    requires a == Loop(a.mi, modified, failed, b.inBlock, b.TheLoad(), failures) && PassedTo(order, a, mi) && !GivesUp(b.limits, a)
    requires if mi == |order| then modified.Keys != {} else !Stale(a, order[mi])
    modifies b
    ensures b.Valid() && ModifiedOk(b.pool, modified', b.inBlock, b.inBlock) && old(b.vtx) <= b.vtx && old(b.inBlock) <= b.inBlock
    ensures b.pool.contracts == {} ==> Within(b.limits, old(b.TheLoad()), b.TheLoad())
    ensures mi' <= |order|
    ensures if tooLow then CutOff(b.pool, rate, full, order, a, c, mi') && b.inBlock == old(b.inBlock) && b.TheLoad() == old(b.TheLoad())
            else Round(b.pool, b.limits, w, rate, full, order, a, c, Loop(mi', modified', failed', b.inBlock, b.TheLoad(), failures'))
    ensures tooLow || if b.inBlock != old(b.inBlock) then Left(b.pool, b.inBlock) < Left(b.pool, old(b.inBlock))
                      else Todo(order, mi', modified') < Todo(order, mi, modified)
  {
    hide FullOk, ValidPool, ModifiedOk, Comparable, AllSized, Picks, Outcome, WellOrdered, Placed, Elements, Covers, Full, GivesUp, MinFee;
    ModifiedSized(b.pool, modified, b.inBlock);
    FullKeys(b.pool, full);
    var iter, usingModified;
    iter, usingModified, mi' := PickCandidate(b.pool, full, order, a, mi, modified);
    c := Pick(iter, usingModified, mi, []);
    CandidateKnown(b.pool, order, a, c);
    FullAt(b.pool, full, iter);
    modified', failed', failures' := modified, failed, failures;
    var figures := if usingModified then modified[iter] else full[iter];
    tooLow := figures.fees < MinFee(rate, figures.size);
    if tooLow { return; }
    var fits := b.TestPackage(figures.size, figures.sigOps);
    ghost var before, sorted := b.inBlock, [];
    modified', failed', sorted := b.Consider(iter, usingModified, modified, failed, full, w);
    PicksPackage(b.pool, full, order, a, iter, usingModified, mi, sorted, mi');
    c := Pick(iter, usingModified, mi, sorted);
    failures' := if !fits then failures + 1 else if w.isFinal then 0 else failures;
    Progress(b.pool, before, b.inBlock, b.vtx);
    if b.inBlock == before {
      NoMore(modified'.Keys, modified.Keys);
      if usingModified { Fewer(modified'.Keys, modified.Keys, iter); }
    }
  }

  /** One round with its bookkeeping; Done means that the loop goes on. */
  method TakeRound(b: BlockAssembler, ghost s: Setting, ghost trace: seq<Loop>, ghost picks: seq<Pick>, ghost a: Loop,
                   full: map<Tx, Modified>, order: seq<Tx>, rate: nat, w: World, mi: nat, modified: map<Tx, Modified>, failed: set<Tx>, failures: nat,
                   ghost outOfTime: nat -> bool)
    returns (stop: Stop, mi': nat, modified': map<Tx, Modified>, failed': set<Tx>, failures': nat,
             ghost trace': seq<Loop>, ghost picks': seq<Pick>, ghost last: Loop)
    requires b.Valid() && FullOk(b.pool, full) && Elements(order) == b.pool.anc.Keys && Comparable(b.pool)
    requires ModifiedOk(b.pool, modified, b.inBlock, b.inBlock)
    requires (s.p, s.lim, s.rate, s.full, s.order) == (b.pool, b.limits, rate, full, order) && s.world(|picks|) == w
    requires a == Loop(a.mi, modified, failed, b.inBlock, b.TheLoad(), failures) && Running(s, trace, picks, a, mi) && mi <= |order|
    requires if mi == |order| then modified.Keys != {} else !Stale(a, order[mi])
    modifies b
    ensures b.Valid() && old(b.vtx) <= b.vtx && last.block == b.inBlock && last.load == b.TheLoad()
    ensures if stop != Done then Ran(s, trace', picks', last, stop, outOfTime)
            else
              && mi' <= |order| && |picks'| == |picks| + 1 && ModifiedOk(b.pool, modified', b.inBlock, b.inBlock)
              && last == Loop(last.mi, modified', failed', b.inBlock, b.TheLoad(), failures') && Running(s, trace', picks', last, mi')
              && if b.inBlock != old(b.inBlock) then Left(b.pool, b.inBlock) < Left(b.pool, old(b.inBlock))
                 else Todo(order, mi', modified') < Todo(order, mi, modified)
  {
    hide FullOk, ValidPool, ModifiedOk, Comparable, Round, CutOff, Elements;
    hide Running, Ran, PassedTo, GivesUp, Within, Left, Todo, BlockAssembler.Valid;
    RunPasses(s, trace, picks, a, mi);
    trace', picks', last := trace, picks, a;
    var tooLow;
    ghost var c;
    tooLow, mi', modified', failed', failures', c := TakeTurn(b, full, order, rate, w, a, mi, modified, failed, failures);
    if tooLow {
      RunIsCutOff(s, trace, picks, a, mi, outOfTime, c, mi');
      stop := FeeTooLow;
      return;
    }
    last := Loop(mi', modified', failed', b.inBlock, b.TheLoad(), failures');
    RunGoesOn(s, trace, picks, a, mi, c, last, outOfTime);
    trace', picks' := trace + [last], picks + [c];
    stop := if failures' > 1000 && b.weight > b.limits.maxWeight - 4000 then GaveUp else Done;
  }

  /**
   * The package loop over the pool order.  Its rounds are exactly those Round
   * describes, and unless it is stopped early nothing is overlooked.
   */
  method AddPackageTxs(b: BlockAssembler, full: map<Tx, Modified>, order: seq<Tx>, rate: nat, world: nat -> World, outOfTime: nat -> bool)
    returns (stop: Stop, ghost trace: seq<Loop>, ghost picks: seq<Pick>, ghost last: Loop)
    requires b.Valid() && FullOk(b.pool, full) && IsOrder(b.pool, full, order) && Comparable(b.pool)
    modifies b
    ensures b.Valid() && old(b.vtx) <= b.vtx && last.block == b.inBlock && last.load == b.TheLoad()
    ensures Ran(Setting(b.pool, b.limits, world, rate, full, order, old(b.inBlock), old(b.TheLoad())), trace, picks, last, stop, outOfTime)
  {
    hide FullOk, ValidPool, ModifiedOk, IsOrder, Comparable, Round, CutOff, Updated, WellOrdered, Placed, Elements;
    hide Running, Ran, PassedTo, GivesUp, Within, Left, Todo, BlockAssembler.Valid;
    ghost var s := Setting(b.pool, b.limits, world, rate, full, order, b.inBlock, b.TheLoad());
    OrderKeys(b.pool, full, order);
    var failed: set<Tx> := {};
    var modified := b.FirstUpdate(full);
    var mi, round, tick, failures := 0, 0, 0, 0;
    last := Loop(0, modified, failed, b.inBlock, b.TheLoad(), 0);
    trace, picks := [last], [];
    RunStarts(s, last);
    while mi < |order| || modified.Keys != {}
      invariant 0 <= mi <= |order| && 0 <= tick && 0 <= failures && round == |picks|
      invariant b.Valid() && ModifiedOk(b.pool, modified, b.inBlock, b.inBlock) && old(b.vtx) <= b.vtx
      invariant last == Loop(last.mi, modified, failed, b.inBlock, b.TheLoad(), failures) && Running(s, trace, picks, last, mi)
      decreases Left(b.pool, b.inBlock), Todo(order, mi, modified)
    {
      if outOfTime(tick) {
        RunTimesOut(s, trace, picks, last, mi, outOfTime, tick);
        return OutOfTime, trace, picks, last;
      }
      tick := tick + 1;
      RunPasses(s, trace, picks, last, mi);
      TodoPasses(order, mi, modified);
      if mi < |order| && b.SkipEntry(order[mi], modified, failed) {
        mi := mi + 1;
        continue;
      }
      stop, mi, modified, failed, failures, trace, picks, last :=
        TakeRound(b, s, trace, picks, last, full, order, rate, world(round), mi, modified, failed, failures, outOfTime);
      if stop != Done { return; }
      round := round + 1;
    }
    stop := Done;
    RunIsDone(s, trace, picks, last, outOfTime);
  }

  // ----- help with concrete pools ---------------------------------------------------------------

  function Total(f: map<Tx, int>, l: seq<Tx>): int
    requires forall i :: 0 <= i < |l| ==> l[i] in f
  {
    if l == [] then 0 else Total(f, l[..|l| - 1]) + f[l[|l| - 1]]
  }

  lemma {:induction false} SumIsTotal(f: map<Tx, int>, l: seq<Tx>)
    requires forall i :: 0 <= i < |l| ==> l[i] in f && l[i] !in l[..i]
    ensures Sum(f, Elements(l)) == Total(f, l)
  {
    hide Sum;
    if l == [] {
      assert Elements(l) == {};
      SumNone(f);
    } else {
      var n := |l| - 1;
      forall i | 0 <= i < n ensures l[..n][i] in f && l[..n][i] !in l[..n][..i] { assert l[..n][..i] == l[..i]; }
      SumIsTotal(f, l[..n]);
      ElementsNext(l, n);
      assert l[..n + 1] == l;
      SumNext(f, Elements(l[..n]), l[n]);
    }
  }

  lemma ListOfOne(s: seq<Tx>, t: Tx)
    requires Elements(s) == {t} && forall i :: 0 <= i < |s| ==> s[i] !in s[..i]
    ensures s == [t]
  {
    assert t in Elements(s);
    forall i | 0 < i < |s| ensures s[i] != s[0] { assert s[..i][0] == s[0]; }
    assert |s| > 1 ==> s[1] != s[0];
    forall i | 0 <= i < |s| ensures s[i] == t { assert s[i] in Elements(s); }
  }

  /** A plain candidate whose ancestors are all in the block. */
  lemma AddedAlone(p: Pool, lim: Limits, w: World, c: Candidate, load: Load, block: set<Tx>,
                   modified: map<Tx, Modified>, failed: set<Tx>, sorted: seq<Tx>, load': Load, block': set<Tx>)
    requires c.iter in p.anc && (c.usingModified ==> c.iter in c.modified) && c.iter in p.weight && c.iter in p.sigOps
    requires Outcome(p, lim, w, c, load, block, modified, failed, sorted, load', block')
    requires w.isFinal && !w.timeUp(0) && c.iter !in p.contracts && Remaining(p, c.iter, block) == {c.iter}
    requires Fits(lim, load, FiguresOf(p, c))
    ensures block' == block + {c.iter} && load' == Load(load.weight + p.weight[c.iter], load.sigOps + p.sigOps[c.iter])
    ensures failed == c.failed && Updated(p, c.modified - {c.iter}, c.full, {c.iter}, {c.iter}, modified)
  {
    hide Updated, Full, Remaining;
    ListOfOne(sorted, c.iter);
    assert sorted[..1] == sorted;
    HaltStep(p, lim, w, sorted, load, 0);
    HaltEnd(p, lim, w, sorted, LoadAfter(p, w, load, c.iter));
  }

  lemma NotTaken(p: Pool, lim: Limits, w: World, c: Candidate, load: Load, block: set<Tx>,
                 modified: map<Tx, Modified>, failed: set<Tx>, sorted: seq<Tx>, load': Load, block': set<Tx>)
    requires c.iter in p.anc && (c.usingModified ==> c.iter in c.modified)
    requires Outcome(p, lim, w, c, load, block, modified, failed, sorted, load', block')
    requires !Fits(lim, load, FiguresOf(p, c))
    ensures block' == block && load' == load
    ensures modified == if c.usingModified then c.modified - {c.iter} else c.modified
    ensures failed == if c.usingModified then c.failed + {c.iter} else c.failed
  {
  }

  lemma NothingUpdated(p: Pool, full: map<Tx, Modified>, r: map<Tx, Modified>)
    requires Updated(p, map[], full, {}, {}, r)
    ensures r == map[]
  {
    var none: set<Tx> := {};
    forall d | d in p.anc ensures none * p.anc[d] == none { }
  }

  const QUICK: World := World(true, _ => false, _ => Run(false, 0, 0, 0))
  const LIMITS: Limits := Limits(5996, 80000, 2000000)
  const RATE: nat := 400000

  // ----- an entry that comes back without its credit -----------------------------------------------

  /** Transaction 2 spends from 0 and 1. */
  const FORK: Pool := Pool(
    map[0 := {}, 1 := {}, 2 := {0, 1}], map[0 := 300, 1 := 100, 2 := 100], map[0 := 1197, 1 := 397, 2 := 397],
    map[0 := 4, 1 := 4, 2 := 4], {}, map[0 := 3000000, 1 := 100000, 2 := 500000],
    map[0 := Tag(false, false, 0, 0), 1 := Tag(false, false, 0, 1), 2 := Tag(false, false, 0, 2)])

  const FORK_ORDER: seq<Tx> := [0, 2, 1]

  lemma ForkValid()
    ensures ValidPool(FORK)
  {
    var keys: set<Tx> := {0, 1, 2};
    assert FORK.anc.Keys == keys && FORK.size.Keys == keys && FORK.weight.Keys == keys && FORK.sigOps.Keys == keys;
    assert FORK.fee.Keys == keys && FORK.tag.Keys == keys;
    forall t | t in FORK.anc ensures FORK.anc[t] <= keys && t !in FORK.anc[t] && FORK.weight[t] <= 4 * FORK.size[t] {
      assert t == 0 || t == 1 || t == 2;
    }
    forall t, u | t in FORK.anc && u in FORK.anc[t] ensures u in FORK.anc && FORK.anc[u] <= FORK.anc[t] {
      assert t == 2 && (u == 0 || u == 1);
    }
  }

  lemma ForkSums(f: map<Tx, int>)
    requires f.Keys == {0, 1, 2}
    ensures Sum(f, {0}) == f[0] && Sum(f, {1}) == f[1] && Sum(f, {2}) == f[2] && Sum(f, {0, 1, 2}) == f[0] + f[1] + f[2]
  {
    hide Sum;
    SumIsTotal(f, [0]);
    SumIsTotal(f, [1]);
    SumIsTotal(f, [2]);
    SumIsTotal(f, [0, 1, 2]);
    assert Elements([0]) == {0} && Elements([1]) == {1} && Elements([2]) == {2} && Elements([0, 1, 2]) == {0, 1, 2};
    assert [0, 1, 2][..2] == [0, 1] && [0, 1][..1] == [0];
  }

  lemma ForkFigures()
    ensures Full(FORK, 0) == Modified(300, 3000000, 4) && Full(FORK, 1) == Modified(100, 100000, 4)
    ensures Full(FORK, 2) == Modified(500, 3600000, 12)
    ensures Remaining(FORK, 0, {}) == {0} && Remaining(FORK, 1, {0}) == {1}
    ensures Needs(FORK, 2, {0, 1}) == Modified(100, 500000, 4)
  {
    hide Sum;
    ForkSums(FORK.size);
    ForkSums(FORK.fee);
    ForkSums(FORK.sigOps);
    var none: set<Tx> := {};
    assert FORK.anc[0] + {0} == {0} && FORK.anc[1] + {1} == {1} && FORK.anc[2] + {2} == {0, 1, 2};
    assert {0} - none == {0} && {1} - {0} == {1};
    assert Remaining(FORK, 2, {0, 1}) == {2};
  }

  lemma ForkFull(full: map<Tx, Modified>)
    requires FullOk(FORK, full)
    ensures full == map[0 := Modified(300, 3000000, 4), 1 := Modified(100, 100000, 4), 2 := Modified(500, 3600000, 12)]
  {
    hide Full;
    ForkFigures();
    assert full.Keys == {0, 1, 2};
  }

  lemma ForkBefore(full: map<Tx, Modified>)
    requires FullOk(FORK, full)
    ensures full.Keys == {0, 1, 2} && Listed(FORK, 0) && Listed(FORK, 1) && Listed(FORK, 2)
    ensures PoolBefore(FORK, full, 0, 2) && PoolBefore(FORK, full, 2, 1) && PoolBefore(FORK, full, 0, 1)
  {
    hide FullOk;
    ForkFull(full);
  }

  lemma ForkOrder(full: map<Tx, Modified>)
    requires FullOk(FORK, full)
    ensures IsOrder(FORK, full, FORK_ORDER)
  {
    hide FullOk, PoolBefore, Listed;
    ForkBefore(full);
    ForkKeys();
  }

  lemma ForkKeys()
    ensures Elements(FORK_ORDER) == FORK.anc.Keys
  {
    assert FORK_ORDER[0] == 0 && FORK_ORDER[1] == 2 && FORK_ORDER[2] == 1;
    forall t ensures t in Elements(FORK_ORDER) <==> t in FORK.anc.Keys { }
  }

  /** Crediting 0 or 1 to 2. */
  lemma ForkCredited(full: map<Tx, Modified>, t: Tx, r: map<Tx, Modified>)
    requires FullOk(FORK, full) && (t == 0 || t == 1) && Updated(FORK, map[], full, {t}, {t}, r)
    ensures r == map[2 := Modified(500 - FORK.size[t], 3600000 - FORK.fee[t], 8)]
  {
    hide Sum, FullOk, Touched, Credit;
    ForkTouched(t);
    ForkCredit(full, t);
    assert r.Keys == {2};
  }

  lemma ForkTouched(t: Tx)
    requires t == 0 || t == 1
    ensures Touched(FORK, {t}, {t}) == {2}
  {
    var added: set<Tx> := {t};
    var none: set<Tx> := {};
    assert t in added * FORK.anc[2];
    assert added * FORK.anc[0] == none && added * FORK.anc[1] == none;
    forall d ensures d in Touched(FORK, added, added) <==> d == 2 { }
  }

  lemma ForkCredit(full: map<Tx, Modified>, t: Tx)
    requires FullOk(FORK, full) && (t == 0 || t == 1)
    ensures 2 in full && Credit(FORK, full[2], 2, {t}) == Modified(500 - FORK.size[t], 3600000 - FORK.fee[t], 8)
  {
    hide Sum, FullOk;
    ForkFull(full);
    ForkSums(FORK.size);
    ForkSums(FORK.fee);
    ForkSums(FORK.sigOps);
    var added: set<Tx> := {t};
    assert added * FORK.anc[2] == {t};
  }

  const FORK0: Loop := Loop(0, map[], {}, {}, Load(4000, 400), 0)
  const FORK1: Loop := Loop(1, map[2 := Modified(200, 600000, 8)], {}, {0}, Load(5197, 404), 0)
  const FORK2: Loop := Loop(2, map[], {2}, {0}, Load(5197, 404), 1)
  const FORK3: Loop := Loop(3, map[2 := Modified(400, 3500000, 8)], {2}, {0, 1}, Load(5594, 408), 0)
  const FORK4: Loop := Loop(3, map[], {2}, {0, 1}, Load(5594, 408), 1)

  ghost predicate ForkRound(full: map<Tx, Modified>, a: Loop, c: Pick, b: Loop) {
    Round(FORK, LIMITS, QUICK, RATE, full, FORK_ORDER, a, c, b)
  }

  /** The pool's best transaction goes in, and 2 is credited with it. */
  lemma ForkRound0(full: map<Tx, Modified>, m: map<Tx, Modified>, f: set<Tx>, sorted: seq<Tx>, load: Load, block: set<Tx>)
    requires FullOk(FORK, full)
    requires Outcome(FORK, LIMITS, QUICK, Candidate(0, false, map[], {}, full), Load(4000, 400), {}, m, f, sorted, load, block)
    ensures Loop(1, m, f, block, load, 0) == FORK1 && ForkRound(full, FORK0, Pick(0, false, 0, sorted), FORK1)
  {
    hide Full, Outcome, Updated, Sum, Remaining;
    ForkFigures();
    AddedAlone(FORK, LIMITS, QUICK, Candidate(0, false, map[], {}, full), Load(4000, 400), {}, m, f, sorted, load, block);
    var none: map<Tx, Modified> := map[];
    assert none - {0} == none;
    ForkCredited(full, 0, m);
    assert block == {0};
    assert !Overtakes(FORK, full, map[], 0);
  }

  /** With its credit 2 is better than 1. */
  lemma ForkBest(full: map<Tx, Modified>)
    requires FullOk(FORK, full)
    ensures Best(FORK, FORK1.modified, 2) && Overtakes(FORK, full, FORK1.modified, 1)
  {
    hide FullOk;
    ForkFull(full);
    assert ModifiedBefore(FORK, 2, FORK1.modified[2], 1, full[1]);
  }

  /** 2 with 1 comes next, does not fit and is dropped. */
  lemma ForkRound1(full: map<Tx, Modified>, m: map<Tx, Modified>, f: set<Tx>, sorted: seq<Tx>, load: Load, block: set<Tx>)
    requires FullOk(FORK, full)
    requires Outcome(FORK, LIMITS, QUICK, Candidate(2, true, FORK1.modified, {}, full), FORK1.load, {0}, m, f, sorted, load, block)
    ensures Loop(2, m, f, block, load, 1) == FORK2 && ForkRound(full, FORK1, Pick(2, true, 2, sorted), FORK2)
  {
    hide Full, Outcome, Sum, Remaining, FullOk, Best, Overtakes;
    NotTaken(FORK, LIMITS, QUICK, Candidate(2, true, FORK1.modified, {}, full), FORK1.load, {0}, m, f, sorted, load, block);
    assert m == map[] && f == {2};
    ForkBest(full);
  }

  /** 1 goes in, and 2 comes back with 0 counted again. */
  lemma ForkRound2(full: map<Tx, Modified>, m: map<Tx, Modified>, f: set<Tx>, sorted: seq<Tx>, load: Load, block: set<Tx>)
    requires FullOk(FORK, full)
    requires Outcome(FORK, LIMITS, QUICK, Candidate(1, false, map[], {2}, full), FORK2.load, {0}, m, f, sorted, load, block)
    ensures Loop(3, m, f, block, load, 0) == FORK3 && ForkRound(full, FORK2, Pick(1, false, 2, sorted), FORK3)
  {
    hide Full, Outcome, Updated, Sum, Remaining;
    ForkFigures();
    AddedAlone(FORK, LIMITS, QUICK, Candidate(1, false, map[], {2}, full), FORK2.load, {0}, m, f, sorted, load, block);
    var none: map<Tx, Modified> := map[];
    assert none - {1} == none;
    ForkCredited(full, 1, m);
    assert block == {0, 1};
    assert !Overtakes(FORK, full, map[], 1);
  }

  /** Judged too large, 2 is dropped for good. */
  lemma ForkRound3(full: map<Tx, Modified>, m: map<Tx, Modified>, f: set<Tx>, sorted: seq<Tx>, load: Load, block: set<Tx>)
    requires FullOk(FORK, full)
    requires Outcome(FORK, LIMITS, QUICK, Candidate(2, true, FORK3.modified, {2}, full), FORK3.load, {0, 1}, m, f, sorted, load, block)
    ensures Loop(3, m, f, block, load, 1) == FORK4 && ForkRound(full, FORK3, Pick(2, true, 3, sorted), FORK4)
  {
    hide Full, Outcome, Sum, Remaining;
    NotTaken(FORK, LIMITS, QUICK, Candidate(2, true, FORK3.modified, {2}, full), FORK3.load, {0, 1}, m, f, sorted, load, block);
    assert m == map[] && f == {2};
    assert Best(FORK, FORK3.modified, 2);
  }

  /**
   * A whole run that leaves out a package that fits.  0 goes in; 2 with 1 does
   * not fit and is dropped; 1 goes in.  Now 2 alone would fit, but it came back
   * with 0 counted again, is judged too large and dropped for good.
   */
  method DroppedThoughItFits(full: map<Tx, Modified>) returns (b: BlockAssembler, ghost trace: seq<Loop>, ghost picks: seq<Pick>)
    requires FullOk(FORK, full)
    ensures b.Valid() && b.pool == FORK && b.limits == LIMITS
    ensures IsRun(FORK, LIMITS, _ => QUICK, RATE, full, FORK_ORDER, trace, picks)
    ensures var last := trace[|picks|]; last.block == b.inBlock == {0, 1} && last.load == b.TheLoad() && 2 in last.failed
    ensures Fits(LIMITS, b.TheLoad(), Needs(FORK, 2, b.inBlock))
  {
    hide FullOk, ValidPool, ModifiedOk, Updated, Full, Outcome, Remaining, Needs, WellOrdered, Placed, ForkRound, IsOrder, Round;
    ForkValid();
    ForkOrder(full);
    ForkFigures();
    b := new BlockAssembler(FORK, LIMITS, 1);
    var failed: set<Tx> := {};
    var modified := b.FirstUpdate(full);
    NothingUpdated(FORK, full, modified);
    ghost var s0, s1, s2, s3;
    modified, failed, s0 := b.Consider(0, false, modified, failed, full, QUICK);
    ForkRound0(full, modified, failed, s0, b.TheLoad(), b.inBlock);
    modified, failed, s1 := b.Consider(2, true, modified, failed, full, QUICK);
    ForkRound1(full, modified, failed, s1, b.TheLoad(), b.inBlock);
    modified, failed, s2 := b.Consider(1, false, modified, failed, full, QUICK);
    ForkRound2(full, modified, failed, s2, b.TheLoad(), b.inBlock);
    modified, failed, s3 := b.Consider(2, true, modified, failed, full, QUICK);
    ForkRound3(full, modified, failed, s3, b.TheLoad(), b.inBlock);
    trace := [FORK0, FORK1, FORK2, FORK3, FORK4];
    picks := [Pick(0, false, 0, s0), Pick(2, true, 2, s1), Pick(1, false, 2, s2), Pick(2, true, 3, s3)];
    ForkIsRun(full, picks[0], picks[1], picks[2], picks[3]);
  }

  lemma ForkIsRun(full: map<Tx, Modified>, c0: Pick, c1: Pick, c2: Pick, c3: Pick)
    requires ValidPool(FORK) && FullOk(FORK, full) && IsOrder(FORK, full, FORK_ORDER)
    requires ForkRound(full, FORK0, c0, FORK1) && ForkRound(full, FORK1, c1, FORK2)
    requires ForkRound(full, FORK2, c2, FORK3) && ForkRound(full, FORK3, c3, FORK4)
    ensures IsRun(FORK, LIMITS, _ => QUICK, RATE, full, FORK_ORDER, [FORK0, FORK1, FORK2, FORK3, FORK4], [c0, c1, c2, c3])
  {
    hide ValidPool, FullOk, IsOrder, Round;
  }

  // ----- a package that stops halfway and is never credited ----------------------------------------

  /** Transaction 1 spends from 0 and calls a contract, 2 spends from both, 3 from 0. */
  const STOP: Pool := Pool(
    map[0 := {}, 1 := {0}, 2 := {0, 1}, 3 := {0}], map[0 := 300, 1 := 100, 2 := 100, 3 := 100],
    map[0 := 1197, 1 := 397, 2 := 397, 3 := 397], map[0 := 4, 1 := 4, 2 := 4, 3 := 4], {1},
    map[0 := 300000, 1 := 100000, 2 := 10000000, 3 := 500000],
    map[0 := Tag(false, false, 0, 0), 1 := Tag(true, false, 40, 1), 2 := Tag(false, false, 0, 2), 3 := Tag(false, false, 0, 3)])

  const STOP_LIMITS: Limits := Limits(6400, 80000, 2000000)
  const STOP_ORDER: seq<Tx> := [2, 3, 0, 1]

  lemma StopValid()
    ensures ValidPool(STOP)
  {
    var keys: set<Tx> := {0, 1, 2, 3};
    assert STOP.anc.Keys == keys && STOP.size.Keys == keys && STOP.weight.Keys == keys && STOP.sigOps.Keys == keys;
    assert STOP.fee.Keys == keys && STOP.tag.Keys == keys;
    StopAncestors();
  }

  lemma StopAncestors()
    ensures forall t :: t in STOP.anc ==> STOP.anc[t] <= STOP.anc.Keys && t !in STOP.anc[t]
    ensures forall t, u :: t in STOP.anc && u in STOP.anc[t] ==> u in STOP.anc && STOP.anc[u] <= STOP.anc[t]
  {
    forall t | t in STOP.anc ensures STOP.anc[t] <= STOP.anc.Keys && t !in STOP.anc[t] {
      assert t == 0 || t == 1 || t == 2 || t == 3;
    }
    forall t, u | t in STOP.anc && u in STOP.anc[t] ensures u in STOP.anc && STOP.anc[u] <= STOP.anc[t] {
      assert u == 0 || (u == 1 && t == 2);
    }
  }

  lemma StopSums(f: map<Tx, int>)
    requires f.Keys == {0, 1, 2, 3}
    ensures Sum(f, {0}) == f[0] && Sum(f, {0, 1}) == f[0] + f[1] && Sum(f, {0, 1, 2}) == f[0] + f[1] + f[2]
    ensures Sum(f, {0, 3}) == f[0] + f[3] && Sum(f, {3}) == f[3]
  {
    hide Sum;
    SumIsTotal(f, [0]);
    SumIsTotal(f, [3]);
    SumIsTotal(f, [0, 1]);
    SumIsTotal(f, [0, 3]);
    SumIsTotal(f, [0, 1, 2]);
    assert Elements([0]) == {0} && Elements([3]) == {3} && Elements([0, 1]) == {0, 1};
    assert Elements([0, 3]) == {0, 3} && Elements([0, 1, 2]) == {0, 1, 2};
    assert [0, 1, 2][..2] == [0, 1] && [0, 1][..1] == [0] && [0, 3][..1] == [0];
  }

  lemma StopFigures()
    ensures Full(STOP, 0) == Modified(300, 300000, 4) && Full(STOP, 1) == Modified(400, 400000, 8)
    ensures Full(STOP, 2) == Modified(500, 10400000, 12) && Full(STOP, 3) == Modified(400, 800000, 8)
    ensures Remaining(STOP, 2, {}) == {0, 1, 2} && Needs(STOP, 3, {0}) == Modified(100, 500000, 4)
  {
    hide Sum;
    StopSums(STOP.size);
    StopSums(STOP.fee);
    StopSums(STOP.sigOps);
    var none: set<Tx> := {};
    assert STOP.anc[0] + {0} == {0} && STOP.anc[1] + {1} == {0, 1};
    assert STOP.anc[2] + {2} == {0, 1, 2} && STOP.anc[3] + {3} == {0, 3};
    assert {0, 1, 2} - none == {0, 1, 2};
    assert Remaining(STOP, 3, {0}) == {3};
  }

  lemma StopFull(full: map<Tx, Modified>)
    requires FullOk(STOP, full)
    ensures full == map[0 := Modified(300, 300000, 4), 1 := Modified(400, 400000, 8),
                        2 := Modified(500, 10400000, 12), 3 := Modified(400, 800000, 8)]
  {
    hide Full;
    StopFigures();
    assert full.Keys == {0, 1, 2, 3};
  }

  lemma StopPlain(full: map<Tx, Modified>)
    requires FullOk(STOP, full)
    ensures full.Keys == {0, 1, 2, 3} && Listed(STOP, 0) && Listed(STOP, 2) && Listed(STOP, 3)
    ensures PoolBefore(STOP, full, 2, 3) && PoolBefore(STOP, full, 2, 0) && PoolBefore(STOP, full, 3, 0)
  {
    hide FullOk;
    StopFull(full);
  }

  /** The contract transaction comes last whatever its fee. */
  lemma StopContract(full: map<Tx, Modified>)
    requires full.Keys == {0, 1, 2, 3}
    ensures Listed(STOP, 0) && Listed(STOP, 1) && Listed(STOP, 2) && Listed(STOP, 3)
    ensures PoolBefore(STOP, full, 2, 1) && PoolBefore(STOP, full, 3, 1) && PoolBefore(STOP, full, 0, 1)
  {
    hide FeeBefore, GasBefore;
  }

  lemma StopOrder(full: map<Tx, Modified>)
    requires FullOk(STOP, full)
    ensures IsOrder(STOP, full, STOP_ORDER)
  {
    hide FullOk, PoolBefore, Listed;
    StopPlain(full);
    StopContract(full);
    StopKeys();
  }

  lemma StopKeys()
    ensures Elements(STOP_ORDER) == STOP.anc.Keys
  {
    assert STOP_ORDER[0] == 2 && STOP_ORDER[1] == 3 && STOP_ORDER[2] == 0 && STOP_ORDER[3] == 1;
    forall t ensures t in Elements(STOP_ORDER) <==> t in STOP.anc.Keys { }
  }

  /** Ancestors come first, so the package of 2 is 0, 1, 2. */
  lemma StopList(s: seq<Tx>)
    requires IsPackage(STOP, s, {}) && Elements(s) == {0, 1, 2}
    ensures |s| >= 2 && s[0] == 0 && s[1] == 1
  {
    forall i | 0 <= i < |s| ensures s[i] == 0 || s[i] == 1 || s[i] == 2 { assert s[i] in Elements(s); }
    assert 0 in Elements(s) && 2 in Elements(s);
    var i :| 0 <= i < |s| && s[i] == 2;
    assert 0 in Elements(s[..i]);
    assert STOP.anc[s[0]] <= {} + Elements(s[..0]) && Elements(s[..0]) == {};
    assert s[1] !in s[..1] && s[..1] == [s[0]];
    assert STOP.anc[s[1]] <= {} + Elements(s[..1]) && Elements([s[0]]) == {s[0]};
  }

  const STOP0: Loop := Loop(0, map[], {}, {}, Load(4000, 400), 0)
  const STOP1: Loop := Loop(1, map[], {}, {0}, Load(5197, 404), 0)
  const STOP2: Loop := Loop(2, map[], {}, {0}, Load(5197, 404), 1)
  const STOP3: Loop := Loop(4, map[], {}, {0}, Load(5197, 404), 2)

  ghost predicate StopRound(full: map<Tx, Modified>, a: Loop, c: Pick, b: Loop) {
    Round(STOP, STOP_LIMITS, QUICK, RATE, full, STOP_ORDER, a, c, b)
  }

  /** The package of 2 is best; it stops at the contract of 1 after 0 went in. */
  lemma StopRound0(full: map<Tx, Modified>, m: map<Tx, Modified>, f: set<Tx>, sorted: seq<Tx>, load: Load, block: set<Tx>)
    requires FullOk(STOP, full)
    requires Outcome(STOP, STOP_LIMITS, QUICK, Candidate(2, false, map[], {}, full), Load(4000, 400), {}, m, f, sorted, load, block)
    ensures Loop(1, m, f, block, load, 0) == STOP1 && StopRound(full, STOP0, Pick(2, false, 0, sorted), STOP1)
  {
    hide FullOk, Updated, Full, Sum, Remaining, IsPackage;
    StopFigures();
    StopList(sorted);
    HaltStep(STOP, STOP_LIMITS, QUICK, sorted, Load(4000, 400), 0);
    HaltStep(STOP, STOP_LIMITS, QUICK, sorted, Load(5197, 404), 1);
    assert sorted[..1] == [0];
    assert Elements([0]) == {0};
    assert m == map[] && block == {0};
    assert !Overtakes(STOP, full, map[], 2);
  }

  /** 3 is judged with 0 counted again and not taken. */
  lemma StopRound1(full: map<Tx, Modified>, m: map<Tx, Modified>, f: set<Tx>, sorted: seq<Tx>, load: Load, block: set<Tx>)
    requires FullOk(STOP, full)
    requires Outcome(STOP, STOP_LIMITS, QUICK, Candidate(3, false, map[], {}, full), Load(5197, 404), {0}, m, f, sorted, load, block)
    ensures Loop(2, m, f, block, load, 1) == STOP2 && StopRound(full, STOP1, Pick(3, false, 1, sorted), STOP2)
  {
    hide Full, Outcome, Sum, Remaining;
    StopFigures();
    NotTaken(STOP, STOP_LIMITS, QUICK, Candidate(3, false, map[], {}, full), Load(5197, 404), {0}, m, f, sorted, load, block);
    assert !Overtakes(STOP, full, map[], 3);
  }

  /** So is 1, and nothing is left. */
  lemma StopRound2(full: map<Tx, Modified>, m: map<Tx, Modified>, f: set<Tx>, sorted: seq<Tx>, load: Load, block: set<Tx>)
    requires FullOk(STOP, full)
    requires Outcome(STOP, STOP_LIMITS, QUICK, Candidate(1, false, map[], {}, full), Load(5197, 404), {0}, m, f, sorted, load, block)
    ensures Loop(4, m, f, block, load, 2) == STOP3 && StopRound(full, STOP2, Pick(1, false, 3, sorted), STOP3)
  {
    hide Full, Outcome, Sum, Remaining;
    StopFigures();
    NotTaken(STOP, STOP_LIMITS, QUICK, Candidate(1, false, map[], {}, full), Load(5197, 404), {0}, m, f, sorted, load, block);
    assert !Overtakes(STOP, full, map[], 1);
  }

  /**
   * A second whole run.  The best package stops at a failing contract after its
   * first transaction went in, and nothing is credited; 3 is then judged with
   * that transaction counted again and never taken, although it fits.
   */
  method UncreditedThoughItFits(full: map<Tx, Modified>) returns (b: BlockAssembler, ghost trace: seq<Loop>, ghost picks: seq<Pick>)
    requires FullOk(STOP, full)
    ensures b.Valid() && b.pool == STOP && b.limits == STOP_LIMITS
    ensures IsRun(STOP, STOP_LIMITS, _ => QUICK, RATE, full, STOP_ORDER, trace, picks)
    ensures var last := trace[|picks|]; last.block == b.inBlock == {0} && last.load == b.TheLoad()
    ensures Fits(STOP_LIMITS, b.TheLoad(), Needs(STOP, 3, b.inBlock))
  {
    hide FullOk, ValidPool, ModifiedOk, Updated, Full, Outcome, Remaining, Needs, WellOrdered, Placed, StopRound, IsOrder, Round;
    StopValid();
    StopOrder(full);
    StopFigures();
    b := new BlockAssembler(STOP, STOP_LIMITS, 1);
    var failed: set<Tx> := {};
    var modified := b.FirstUpdate(full);
    NothingUpdated(STOP, full, modified);
    ghost var s0, s1, s2;
    modified, failed, s0 := b.Consider(2, false, modified, failed, full, QUICK);
    StopRound0(full, modified, failed, s0, b.TheLoad(), b.inBlock);
    modified, failed, s1 := b.Consider(3, false, modified, failed, full, QUICK);
    StopRound1(full, modified, failed, s1, b.TheLoad(), b.inBlock);
    modified, failed, s2 := b.Consider(1, false, modified, failed, full, QUICK);
    StopRound2(full, modified, failed, s2, b.TheLoad(), b.inBlock);
    trace := [STOP0, STOP1, STOP2, STOP3];
    picks := [Pick(2, false, 0, s0), Pick(3, false, 1, s1), Pick(1, false, 3, s2)];
    StopIsRun(full, picks[0], picks[1], picks[2]);
  }

  lemma StopIsRun(full: map<Tx, Modified>, c0: Pick, c1: Pick, c2: Pick)
    requires ValidPool(STOP) && FullOk(STOP, full) && IsOrder(STOP, full, STOP_ORDER)
    requires StopRound(full, STOP0, c0, STOP1) && StopRound(full, STOP1, c1, STOP2) && StopRound(full, STOP2, c2, STOP3)
    ensures IsRun(STOP, STOP_LIMITS, _ => QUICK, RATE, full, STOP_ORDER, [STOP0, STOP1, STOP2, STOP3], [c0, c1, c2])
  {
    hide ValidPool, FullOk, IsOrder, Round;
  }
}
