/**
 * Block assembly: greedy selection of ancestor packages from the memory pool.
 * The pool is any finite dependency graph; fee order, fee cut-off, finality,
 * contract execution and the clock are left completely open.
 */
module Miner {

  type Tx = nat

  /** What else the order of candidates looks at: whether contracts are called or created, gas price and hash. */
  datatype Tag = Tag(calls: bool, creates: bool, gasPrice: int, hash: nat)

  /** anc gives the in-pool ancestors, without the transaction itself; fees are modified ones and may be negative. */
  datatype Pool = Pool(anc: map<Tx, set<Tx>>, size: map<Tx, nat>, weight: map<Tx, nat>, sigOps: map<Tx, nat>, contracts: set<Tx>,
                       fee: map<Tx, int>, tag: map<Tx, Tag>)

  /** What the memory pool guarantees. */
  ghost predicate ValidPool(p: Pool) {
    && p.size.Keys == p.anc.Keys && p.weight.Keys == p.anc.Keys && p.sigOps.Keys == p.anc.Keys
    && p.fee.Keys == p.anc.Keys && p.tag.Keys == p.anc.Keys
    && (forall t :: t in p.tag ==> (t in p.contracts <==> p.tag[t].calls || p.tag[t].creates))
    && (forall t :: t in p.anc ==> p.anc[t] <= p.anc.Keys && t !in p.anc[t])
    && (forall t, u :: t in p.anc && u in p.anc[t] ==> u in p.anc && p.anc[u] <= p.anc[t])
    && (forall t :: t in p.anc ==> p.weight[t] <= 4 * p.size[t])
  }

  function AncestorCount(p: Pool, t: Tx): nat
    requires t in p.anc
  {
    |p.anc[t]| + 1
  }

  /** The claim on which SortForBlock rests. */
  lemma AncestorsCountLess(p: Pool, t: Tx, u: Tx)
    requires ValidPool(p) && t in p.anc && u in p.anc[t]
    ensures u in p.anc && AncestorCount(p, u) < AncestorCount(p, t)
  {
    assert p.anc[u] <= p.anc[t] - {u};
    assert p.anc[t] == p.anc[u] + (p.anc[t] - p.anc[u]);
    assert u in p.anc[t] - p.anc[u];
  }

  // ----- sums over sets -----------------------------------------------------------------

  ghost function Sum(f: map<Tx, int>, s: set<Tx>): int {
    if s == {} then 0
    else
      NonEmpty(s);
      var t :| t in s;
      (if t in f then f[t] else 0) + Sum(f, s - {t})
  }

  lemma NonEmpty(s: set<Tx>)
    ensures s == {} || exists t :: t in s
  {
    if forall t :: t !in s {
      var none: set<Tx> := {};
      forall t ensures t in s <==> t in none { }
    }
  }

  lemma {:induction false} SumSplit(f: map<Tx, int>, s: set<Tx>, t: Tx)
    requires t in s && t in f
    ensures Sum(f, s) == f[t] + Sum(f, s - {t})
    decreases |s|
  {
    NonEmpty(s);
    var u :| u in s && Sum(f, s) == (if u in f then f[u] else 0) + Sum(f, s - {u});
    if u != t {
      SumSplit(f, s - {u}, t);
      if u in f {
        SumSplit(f, s - {t}, u);
      } else {
        SumSkip(f, s - {t}, u);
      }
      assert s - {u} - {t} == s - {t} - {u};
    }
  }

  lemma {:induction false} SumSkip(f: map<Tx, int>, s: set<Tx>, t: Tx)
    requires t in s && t !in f
    ensures Sum(f, s) == Sum(f, s - {t})
    decreases |s|
  {
    NonEmpty(s);
    var u :| u in s && Sum(f, s) == (if u in f then f[u] else 0) + Sum(f, s - {u});
    if u != t {
      SumSkip(f, s - {u}, t);
      if u in f {
        SumSplit(f, s - {t}, u);
      } else {
        SumSkip(f, s - {t}, u);
      }
      assert s - {u} - {t} == s - {t} - {u};
    }
  }

  lemma {:induction false} SumNotNegative(f: map<Tx, nat>, s: set<Tx>)
    ensures Sum(f, s) >= 0
    decreases |s|
  {
    NonEmpty(s);
    if s != {} {
      var t :| t in s && Sum(f, s) == (if t in f then f[t] else 0) + Sum(f, s - {t});
      SumNotNegative(f, s - {t});
    }
  }

  lemma {:induction false} SumMono(f: map<Tx, nat>, a: set<Tx>, b: set<Tx>)
    requires a <= b
    ensures Sum(f, a) <= Sum(f, b)
    decreases |a|
  {
    NonEmpty(a);
    SumNotNegative(f, b);
    if a != {} {
      var t :| t in a;
      SumMono(f, a - {t}, b - {t});
      if t in f {
        SumSplit(f, a, t);
        SumSplit(f, b, t);
      } else {
        SumSkip(f, a, t);
        SumSkip(f, b, t);
      }
    }
  }

  /** Sums of a set and of the part taken out. */
  lemma {:induction false} SumWithout(f: map<Tx, int>, all: set<Tx>, part: set<Tx>)
    requires part <= all
    ensures Sum(f, all - part) == Sum(f, all) - Sum(f, part)
    decreases |part|
  {
    hide Sum;
    NonEmpty(part);
    SumNone(f);
    if part == {} {
      assert all - part == all;
    } else {
      var t :| t in part;
      SumWithout(f, all, part - {t});
      assert all - part == all - (part - {t}) - {t};
      if t in f {
        SumSplit(f, all - (part - {t}), t);
        SumSplit(f, part, t);
      } else {
        SumSkip(f, all - (part - {t}), t);
        SumSkip(f, part, t);
      }
    }
  }

  lemma SumNone(f: map<Tx, int>)
    ensures Sum(f, {}) == 0
  {
  }

  // ----- the block so far -------------------------------------------------------------

  /** A block entry: the reward, a pool transaction, or one generated by a contract. */
  datatype Item = Reward | PoolTx(t: Tx) | Generated(n: nat)

  ghost function Placed(vtx: seq<Item>): set<Tx> {
    set i | 0 <= i < |vtx| && vtx[i].PoolTx? :: vtx[i].t
  }

  /** Every pool transaction comes once, after all its ancestors. */
  ghost predicate WellOrdered(p: Pool, vtx: seq<Item>) {
    forall i :: 0 <= i < |vtx| && vtx[i].PoolTx? ==>
      && vtx[i].t in p.anc
      && p.anc[vtx[i].t] <= Placed(vtx[..i])
      && vtx[i].t !in Placed(vtx[..i])
  }

  lemma PlacedAppend(vtx: seq<Item>, x: Item)
    ensures Placed(vtx + [x]) == Placed(vtx) + if x.PoolTx? then {x.t} else {}
  {
    var w := vtx + [x];
    forall t | t in Placed(vtx) ensures t in Placed(w) {
      var i :| 0 <= i < |vtx| && vtx[i].PoolTx? && vtx[i].t == t;
      assert w[i] == vtx[i];
    }
    if x.PoolTx? { assert w[|vtx|].t == x.t; }
  }

  lemma WellOrderedAppend(p: Pool, vtx: seq<Item>, x: Item)
    requires WellOrdered(p, vtx)
    requires x.PoolTx? ==> x.t in p.anc && p.anc[x.t] <= Placed(vtx) && x.t !in Placed(vtx)
    ensures WellOrdered(p, vtx + [x])
  {
    var w := vtx + [x];
    forall i | 0 <= i < |w| && w[i].PoolTx?
      ensures w[i].t in p.anc && p.anc[w[i].t] <= Placed(w[..i]) && w[i].t !in Placed(w[..i])
    {
      if i < |vtx| { assert w[..i] == vtx[..i]; } else { assert w[..i] == vtx; }
    }
  }

  /** Closed under ancestors, so nothing can be a descendant of what is still outside. */
  ghost predicate AncestorClosed(p: Pool, s: set<Tx>) {
    forall t :: t in s ==> t in p.anc && p.anc[t] <= s
  }

  lemma WellOrderedClosed(p: Pool, vtx: seq<Item>)
    requires WellOrdered(p, vtx)
    ensures AncestorClosed(p, Placed(vtx))
  {
    forall t | t in Placed(vtx) ensures t in p.anc && p.anc[t] <= Placed(vtx) {
      var i :| 0 <= i < |vtx| && vtx[i].PoolTx? && vtx[i].t == t;
      forall u | u in Placed(vtx[..i]) ensures u in Placed(vtx) {
        var j :| 0 <= j < |vtx[..i]| && vtx[..i][j].PoolTx? && vtx[..i][j].t == u;
        assert vtx[j] == vtx[..i][j];
      }
    }
  }

  // ----- packages -----------------------------------------------------------------------

  /** The transactions a candidate still needs, itself included. */
  ghost function Remaining(p: Pool, t: Tx, block: set<Tx>): set<Tx>
    requires t in p.anc
  {
    p.anc[t] + {t} - block
  }

  /** Figures of a candidate whose ancestors are partly in the block. */
  datatype Modified = Modified(size: int, fees: int, sigOps: int)

  ghost function Full(p: Pool, t: Tx): Modified
    requires t in p.anc
  {
    Modified(Sum(p.size, p.anc[t] + {t}), Sum(p.fee, p.anc[t] + {t}), Sum(p.sigOps, p.anc[t] + {t}))
  }

  ghost predicate FullOk(p: Pool, full: map<Tx, Modified>) {
    full.Keys == p.anc.Keys && forall t :: t in full ==> full[t] == Full(p, t)
  }

  /** The figures never understate what the package still adds. */
  ghost predicate Covers(p: Pool, m: Modified, t: Tx, block: set<Tx>)
    requires t in p.anc
  {
    m.size >= Sum(p.size, Remaining(p, t, block)) && m.sigOps >= Sum(p.sigOps, Remaining(p, t, block))
  }

  /** No modified entry is in the block, and each one covers what it needs beyond the credited part. */
  ghost predicate ModifiedOk(p: Pool, modified: map<Tx, Modified>, block: set<Tx>, credited: set<Tx>) {
    forall t :: t in modified ==> t in p.anc && t !in block && Covers(p, modified[t], t, credited)
  }

  lemma CoversMono(p: Pool, m: Modified, t: Tx, block: set<Tx>, more: set<Tx>)
    requires t in p.anc && Covers(p, m, t, block) && block <= more
    ensures Covers(p, m, t, more)
  {
    SumMono(p.size, Remaining(p, t, more), Remaining(p, t, block));
    SumMono(p.sigOps, Remaining(p, t, more), Remaining(p, t, block));
  }

  lemma FullCovers(p: Pool, t: Tx, block: set<Tx>)
    requires t in p.anc
    ensures Covers(p, Full(p, t), t, block)
  {
    SumMono(p.size, Remaining(p, t, block), p.anc[t] + {t});
    SumMono(p.sigOps, Remaining(p, t, block), p.anc[t] + {t});
  }

  // ----- crediting what was added -------------------------------------------------------------

  predicate Known(p: Pool, t: Tx) {
    t in p.size && t in p.fee && t in p.sigOps
  }

  function Minus(p: Pool, m: Modified, t: Tx): Modified
    requires Known(p, t)
  {
    Modified(m.size - p.size[t], m.fees - p.fee[t], m.sigOps - p.sigOps[t])
  }

  /** What a descendant is credited against: its modified figures, or those of the pool. */
  function StartOf(modified: map<Tx, Modified>, full: map<Tx, Modified>, d: Tx): Modified
    requires d in modified || d in full
  {
    if d in modified then modified[d] else full[d]
  }

  /** Not yet added, but with an added ancestor. */
  ghost function Touched(p: Pool, done: set<Tx>, added: set<Tx>): set<Tx> {
    set d | d in p.anc.Keys && d !in added && done * p.anc[d] != {}
  }

  ghost function Credit(p: Pool, m: Modified, d: Tx, done: set<Tx>): Modified
    requires d in p.anc
  {
    Modified(m.size - Sum(p.size, done * p.anc[d]), m.fees - Sum(p.fee, done * p.anc[d]),
             m.sigOps - Sum(p.sigOps, done * p.anc[d]))
  }

  /** Exactly the touched entries are new, and each figure is the start less the added ancestors. */
  ghost predicate Updated(p: Pool, modified: map<Tx, Modified>, full: map<Tx, Modified>, done: set<Tx>, added: set<Tx>, r: map<Tx, Modified>) {
    && modified.Keys <= p.anc.Keys && full.Keys == p.anc.Keys
    && r.Keys == modified.Keys + Touched(p, done, added)
    && forall d :: d in r ==> d in p.anc && r[d] == Credit(p, StartOf(modified, full, d), d, done)
  }

  lemma UpdatedNone(p: Pool, modified: map<Tx, Modified>, full: map<Tx, Modified>, added: set<Tx>)
    requires modified.Keys <= p.anc.Keys && full.Keys == p.anc.Keys
    ensures Updated(p, modified, full, {}, added, modified)
  {
    var none: set<Tx> := {};
    forall d | d in p.anc ensures none * p.anc[d] == none { }
    SumNone(p.size);
    SumNone(p.fee);
    SumNone(p.sigOps);
  }

  lemma UpdatedKeys(p: Pool, modified: map<Tx, Modified>, full: map<Tx, Modified>, done: set<Tx>, added: set<Tx>, r: map<Tx, Modified>)
    requires Updated(p, modified, full, done, added, r) && modified.Keys !! added
    ensures r.Keys <= p.anc.Keys && r.Keys !! added
  {
  }

  /** One added transaction more. */
  ghost predicate Stepped(p: Pool, full: map<Tx, Modified>, it: Tx, added: set<Tx>, was: map<Tx, Modified>, r: map<Tx, Modified>)
    requires Known(p, it) && full.Keys == p.anc.Keys
  {
    && r.Keys == was.Keys + Touched(p, {it}, added)
    && forall d :: d in r ==> d in p.anc && r[d] == if it in p.anc[d] && d !in added then Minus(p, StartOf(was, full, d), it) else StartOf(was, full, d)
  }

  lemma CreditNext(p: Pool, m: Modified, d: Tx, done: set<Tx>, it: Tx)
    requires ValidPool(p) && d in p.anc && it in p.anc && it !in done
    ensures Credit(p, m, d, done + {it}) == if it in p.anc[d] then Minus(p, Credit(p, m, d, done), it) else Credit(p, m, d, done)
  {
    var some, more := done * p.anc[d], (done + {it}) * p.anc[d];
    if it in p.anc[d] {
      assert more - {it} == some;
      SumSplit(p.size, more, it);
      SumSplit(p.fee, more, it);
      SumSplit(p.sigOps, more, it);
    } else {
      assert more == some;
    }
  }

  lemma PoolParts(p: Pool, t: Tx)
    requires ValidPool(p) && t in p.anc
    ensures Known(p, t) && t !in p.anc[t]
  {
  }

  ghost predicate Handled(p: Pool, full: map<Tx, Modified>, it: Tx, modified: map<Tx, Modified>, handled: set<Tx>, r: map<Tx, Modified>) {
    && Known(p, it) && full.Keys == p.anc.Keys && handled <= p.anc.Keys && modified.Keys <= p.anc.Keys
    && r.Keys == modified.Keys + handled
    && forall d :: d in r ==> r[d] == if d in handled then Minus(p, StartOf(modified, full, d), it) else StartOf(modified, full, d)
  }

  lemma HandledNone(p: Pool, full: map<Tx, Modified>, it: Tx, modified: map<Tx, Modified>)
    requires Known(p, it) && full.Keys == p.anc.Keys && modified.Keys <= p.anc.Keys
    ensures Handled(p, full, it, modified, {}, modified)
  {
  }

  lemma HandledNext(p: Pool, full: map<Tx, Modified>, it: Tx, modified: map<Tx, Modified>, handled: set<Tx>, r: map<Tx, Modified>, d: Tx)
    requires Handled(p, full, it, modified, handled, r) && d in p.anc && d !in handled
    ensures d in r || d in full
    ensures Handled(p, full, it, modified, handled + {d}, r[d := Minus(p, if d !in r then full[d] else r[d], it)])
  {
    hide Minus;
  }

  lemma HandledAll(p: Pool, full: map<Tx, Modified>, it: Tx, added: set<Tx>, modified: map<Tx, Modified>, handled: set<Tx>, r: map<Tx, Modified>)
    requires Handled(p, full, it, modified, handled, r) && handled == Touched(p, {it}, added) && modified.Keys !! added
    requires forall d :: d in p.anc ==> (d in handled <==> it in p.anc[d] && d !in added)
    ensures Stepped(p, full, it, added, modified, r)
  {
    hide Minus;
  }

  lemma TouchedByOne(p: Pool, it: Tx, added: set<Tx>, handled: set<Tx>, descendants: set<Tx>)
    requires it in added && handled == descendants - added
    requires descendants == set d | d in p.anc.Keys && (d == it || it in p.anc[d])
    ensures handled == Touched(p, {it}, added)
    ensures forall d :: d in p.anc ==> (d in handled <==> it in p.anc[d] && d !in added)
  {
    forall d | d in p.anc.Keys ensures {it} * p.anc[d] != {} <==> it in p.anc[d] {
      if it in p.anc[d] { assert it in {it} * p.anc[d]; }
    }
  }

  lemma TouchedNext(p: Pool, done: set<Tx>, added: set<Tx>, it: Tx)
    ensures Touched(p, done + {it}, added) == Touched(p, done, added) + Touched(p, {it}, added)
  {
    forall d | d in p.anc.Keys ensures (done + {it}) * p.anc[d] != {} <==> done * p.anc[d] != {} || {it} * p.anc[d] != {} {
      assert (done + {it}) * p.anc[d] == done * p.anc[d] + {it} * p.anc[d];
    }
  }

  lemma UpdatedNext(p: Pool, modified: map<Tx, Modified>, full: map<Tx, Modified>, done: set<Tx>, added: set<Tx>, it: Tx, was: map<Tx, Modified>, r: map<Tx, Modified>)
    requires ValidPool(p) && Updated(p, modified, full, done, added, was) && it in p.anc && it !in done
    requires modified.Keys !! added && Known(p, it) && Stepped(p, full, it, added, was, r)
    ensures Updated(p, modified, full, done + {it}, added, r)
  {
    hide Credit, Sum, ValidPool;
    TouchedNext(p, done, added, it);
    forall d | d in r ensures d in p.anc && r[d] == Credit(p, StartOf(modified, full, d), d, done + {it}) {
      CreditNext(p, StartOf(modified, full, d), d, done, it);
      EntryBefore(p, modified, full, done, added, was, d);
      assert d !in added;
    }
  }

  /** Before the next step an entry, present or not, stands for its credit so far. */
  lemma EntryBefore(p: Pool, modified: map<Tx, Modified>, full: map<Tx, Modified>, done: set<Tx>, added: set<Tx>, was: map<Tx, Modified>, d: Tx)
    requires Updated(p, modified, full, done, added, was) && d in p.anc && d !in added
    ensures StartOf(was, full, d) == Credit(p, StartOf(modified, full, d), d, done)
  {
    hide Credit;
    if d !in was { NothingCredited(p, full[d], d, done); }
  }

  lemma NothingCredited(p: Pool, m: Modified, d: Tx, done: set<Tx>)
    requires d in p.anc && done * p.anc[d] == {}
    ensures Credit(p, m, d, done) == m
  {
    SumNone(p.size);
    SumNone(p.fee);
    SumNone(p.sigOps);
  }

  lemma CreditCovers(p: Pool, m: Modified, d: Tx, before: set<Tx>, added: set<Tx>)
    requires ValidPool(p) && d in p.anc && d !in added && added !! before && Covers(p, m, d, before)
    ensures Covers(p, Credit(p, m, d, added), d, before + added)
  {
    hide Sum;
    var some := Remaining(p, d, before);
    assert Remaining(p, d, before + added) == some - added * p.anc[d];
    assert added * p.anc[d] <= some;
    SumWithout(p.size, some, added * p.anc[d]);
    SumWithout(p.sigOps, some, added * p.anc[d]);
  }

  /** Crediting keeps every figure large enough. */
  lemma UpdatedOk(p: Pool, modified: map<Tx, Modified>, full: map<Tx, Modified>, added: set<Tx>, block: set<Tx>, r: map<Tx, Modified>)
    requires ValidPool(p) && Updated(p, modified, full, added, added, r) && FullOk(p, full)
    requires added <= block && AncestorClosed(p, block - added) && ModifiedOk(p, modified, block, block - added)
    ensures ModifiedOk(p, r, block, block)
  {
    hide Credit, Covers, Sum, Full;
    assert block == (block - added) + added;
    forall d | d in r ensures d in p.anc && d !in block && Covers(p, r[d], d, block) {
      if d !in modified {
        NonEmpty(added * p.anc[d]);
        var a :| a in added * p.anc[d];
        NotYetInBlock(p, block - added, a, d);
        FullCovers(p, d, block - added);
      }
      CreditCovers(p, StartOf(modified, full, d), d, block - added, added);
    }
  }

  /** What the package still adds to the block. */
  ghost function Needs(p: Pool, d: Tx, block: set<Tx>): Modified
    requires d in p.anc
  {
    Modified(Sum(p.size, Remaining(p, d, block)), Sum(p.fee, Remaining(p, d, block)), Sum(p.sigOps, Remaining(p, d, block)))
  }

  /** In what a package is tested by. */
  ghost predicate Exact(p: Pool, m: Modified, d: Tx, block: set<Tx>)
    requires d in p.anc
  {
    m.size == Needs(p, d, block).size && m.sigOps == Needs(p, d, block).sigOps
  }

  lemma CreditExact(p: Pool, m: Modified, d: Tx, before: set<Tx>, added: set<Tx>)
    requires ValidPool(p) && d in p.anc && d !in added && added !! before
    ensures Exact(p, Credit(p, m, d, added), d, before + added) <==> Exact(p, m, d, before)
  {
    hide Sum;
    var some := Remaining(p, d, before);
    assert Remaining(p, d, before + added) == some - added * p.anc[d];
    assert added * p.anc[d] <= some;
    SumWithout(p.size, some, added * p.anc[d]);
    SumWithout(p.sigOps, some, added * p.anc[d]);
  }

  lemma FullExactIff(p: Pool, d: Tx, block: set<Tx>)
    requires d in p.anc && d !in block
    ensures Exact(p, Full(p, d), d, block) <==> Sum(p.size, block * p.anc[d]) == 0 && Sum(p.sigOps, block * p.anc[d]) == 0
  {
    hide Sum;
    var all := p.anc[d] + {d};
    assert Remaining(p, d, block) == all - block * p.anc[d];
    SumWithout(p.size, all, block * p.anc[d]);
    SumWithout(p.sigOps, all, block * p.anc[d]);
  }

  /**
   * An entry that is put into the modified set starts from the pool's figures.
   * They come out exact precisely when nothing was to be credited earlier: an
   * entry that was dropped and comes back has lost its earlier credits.
   */
  lemma ReenteredExactIff(p: Pool, modified: map<Tx, Modified>, full: map<Tx, Modified>, added: set<Tx>, block: set<Tx>, r: map<Tx, Modified>, d: Tx)
    requires ValidPool(p) && FullOk(p, full) && Updated(p, modified, full, added, added, r)
    requires added <= block && d in r && d !in block
    ensures var before := block - added;
      Exact(p, r[d], d, block) <==>
        if d in modified then Exact(p, modified[d], d, before)
        else Sum(p.size, before * p.anc[d]) == 0 && Sum(p.sigOps, before * p.anc[d]) == 0
  {
    hide Credit, Sum, Full, Exact;
    assert block == (block - added) + added;
    CreditExact(p, StartOf(modified, full, d), d, block - added, added);
    FullExactIff(p, d, block - added);
  }

  /**
   * Exact figures that are not credited, as after a package that stopped
   * halfway, stay exact precisely when none of the new transactions counts in
   * them.
   */
  lemma UncreditedExactIff(p: Pool, m: Modified, d: Tx, before: set<Tx>, after: set<Tx>)
    requires ValidPool(p) && d in p.anc && d !in after && before <= after && Exact(p, m, d, before)
    ensures Exact(p, m, d, after) <==> Sum(p.size, (after - before) * p.anc[d]) == 0 && Sum(p.sigOps, (after - before) * p.anc[d]) == 0
  {
    hide Sum;
    var some, gone := Remaining(p, d, before), (after - before) * p.anc[d];
    assert Remaining(p, d, after) == some - gone && gone <= some;
    SumWithout(p.size, some, gone);
    SumWithout(p.sigOps, some, gone);
  }

  // ----- the assembler --------------------------------------------------------------------

  /** The assembler's own weight limit, the sigop limit, and the consensus weight limit. */
  datatype Limits = Limits(maxWeight: nat, maxSigOps: nat, hardWeight: nat)

  /** Outcome of executing a contract: its transfers, and what they and the refunds add. */
  datatype Run = Run(executes: bool, transfers: nat, extraWeight: nat, extraSigOps: int)

  function Transfers(n: nat): seq<Item> {
    seq(n, i requires 0 <= i < n => Generated(i))
  }

  /** What the assembler cannot know: finality, the clock at each step, contract outcomes. */
  datatype World = World(isFinal: bool, timeUp: nat -> bool, run: Tx -> Run)

  datatype Load = Load(weight: int, sigOps: int)

  function LoadAfter(p: Pool, w: World, load: Load, t: Tx): Load
    requires t in p.weight && t in p.sigOps
  {
    if t in p.contracts then
      Load(load.weight + p.weight[t] + w.run(t).extraWeight, load.sigOps + p.sigOps[t] + w.run(t).extraSigOps)
    else Load(load.weight + p.weight[t], load.sigOps + p.sigOps[t])
  }

  /** A contract transaction goes in if it executes and stays within the consensus limits. */
  predicate ContractFits(p: Pool, lim: Limits, w: World, load: Load, t: Tx)
    requires t in p.weight && t in p.sigOps && t in p.contracts
  {
    var after := LoadAfter(p, w, load, t);
    w.run(t).executes && after.sigOps * 4 <= lim.maxSigOps && after.weight <= lim.hardWeight
  }

  ghost predicate Stops(p: Pool, lim: Limits, w: World, load: Load, t: Tx, i: nat)
    requires t in p.weight && t in p.sigOps
  {
    w.timeUp(i) || (t in p.contracts && !ContractFits(p, lim, w, load, t))
  }

  /** Where adding a package stops, and the load of the block then. */
  ghost function Halt(p: Pool, lim: Limits, w: World, sorted: seq<Tx>, load: Load, i: nat): (r: (nat, Load))
    requires i <= |sorted| && forall t :: t in sorted ==> t in p.weight && t in p.sigOps
    ensures i <= r.0 <= |sorted|
    decreases |sorted| - i
  {
    if i == |sorted| || Stops(p, lim, w, load, sorted[i], i) then (i, load)
    else Halt(p, lim, w, sorted, LoadAfter(p, w, load, sorted[i]), i + 1)
  }

  datatype Candidate = Candidate(iter: Tx, usingModified: bool, modified: map<Tx, Modified>, failed: set<Tx>, full: map<Tx, Modified>)

  predicate Fits(lim: Limits, load: Load, m: Modified) {
    load.weight + 4 * m.size < lim.maxWeight && load.sigOps + m.sigOps < lim.maxSigOps
  }

  /** A candidate from the modified set is marked when a contract fails, not when time runs out. */
  ghost function Failed(w: World, usingModified: bool, failed: set<Tx>, iter: Tx, reached: nat, n: nat): set<Tx> {
    if reached < n && !w.timeUp(reached) && usingModified then failed + {iter} else failed
  }

  /** What considering a candidate does to the block and to the modified set. */
  ghost predicate Outcome(p: Pool, lim: Limits, w: World, c: Candidate, load: Load, block: set<Tx>,
                          modified: map<Tx, Modified>, failed: set<Tx>, sorted: seq<Tx>, load': Load, block': set<Tx>)
    requires c.iter in p.anc && (c.usingModified ==> c.iter in c.modified)
  {
    var m := if c.usingModified then c.modified[c.iter] else Full(p, c.iter);
    if !Fits(lim, load, m) || !w.isFinal then
      && block' == block && load' == load
      && modified == (if c.usingModified then c.modified - {c.iter} else c.modified)
      && failed == (if c.usingModified then c.failed + {c.iter} else c.failed)
    else
      && IsPackage(p, sorted, block) && Elements(sorted) == Remaining(p, c.iter, block)
      && (forall t :: t in sorted ==> t in p.weight && t in p.sigOps)
      && var h := Halt(p, lim, w, sorted, load, 0);
         && load' == h.1 && block' == block + Elements(sorted[..h.0])
         && failed == Failed(w, c.usingModified, c.failed, c.iter, h.0, |sorted|)
         && if h.0 == |sorted| then Updated(p, c.modified - Elements(sorted), c.full, Elements(sorted), Elements(sorted), modified)
            else modified == c.modified - Elements(sorted)
  }

  class BlockAssembler {
    const pool: Pool
    const limits: Limits
    var vtx: seq<Item>
    var inBlock: set<Tx>
    var weight: int
    var sigOps: int

    ghost predicate Valid()
      reads this
    {
      ValidPool(pool) && WellOrdered(pool, vtx) && inBlock == Placed(vtx)
    }

    constructor (pool: Pool, limits: Limits, rewards: nat)
      requires ValidPool(pool)
      ensures Valid() && this.pool == pool && this.limits == limits && |vtx| == rewards
      ensures inBlock == {} && weight == 4000 && sigOps == 400
    {
      this.pool, this.limits := pool, limits;
      vtx, inBlock, weight, sigOps := seq(rewards, _ => Reward), {}, 4000, 400;
    }

    method AddToBlock(t: Tx)
      requires Valid() && t in pool.anc && t !in inBlock && pool.anc[t] <= inBlock
      modifies this
      ensures Valid() && vtx == old(vtx) + [PoolTx(t)] && inBlock == old(inBlock) + {t}
      ensures weight == old(weight) + pool.weight[t] && sigOps == old(sigOps) + pool.sigOps[t]
    {
      PlacedAppend(vtx, PoolTx(t));
      WellOrderedAppend(pool, vtx, PoolTx(t));
      vtx := vtx + [PoolTx(t)];
      weight := weight + pool.weight[t];
      sigOps := sigOps + pool.sigOps[t];
      inBlock := inBlock + {t};
    }

    function TheLoad(): Load
      reads this
    {
      Load(weight, sigOps)
    }

    /**
     * Costs are tried on local values first; when the contract does not fit the
     * block is untouched.  Otherwise it is followed by the transfers it generated.
     */
    method AttemptToAddContractToBlock(t: Tx, w: World) returns (added: bool)
      requires Valid() && t in pool.anc && t !in inBlock && pool.anc[t] <= inBlock && t in pool.contracts
      requires t in pool.weight && t in pool.sigOps
      modifies this
      ensures Valid() && added == ContractFits(pool, limits, w, old(TheLoad()), t)
      ensures var run := w.run(t);
        added <==> && run.executes && 4 * (old(sigOps) + pool.sigOps[t] + run.extraSigOps) <= limits.maxSigOps
                   && old(weight) + pool.weight[t] + run.extraWeight <= limits.hardWeight
      ensures added ==> weight == old(weight) + pool.weight[t] + w.run(t).extraWeight
                        && sigOps == old(sigOps) + pool.sigOps[t] + w.run(t).extraSigOps
      ensures added ==> inBlock == old(inBlock) + {t} && TheLoad() == LoadAfter(pool, w, old(TheLoad()), t)
      ensures added ==> vtx == old(vtx) + [PoolTx(t)] + Transfers(w.run(t).transfers)
      ensures !added ==> inBlock == old(inBlock) && vtx == old(vtx) && TheLoad() == old(TheLoad())
    {
      hide WellOrdered, Placed, ValidPool;
      var run := w.run(t);
      if !run.executes { return false; }
      var newWeight := weight + pool.weight[t] + run.extraWeight;
      var newSigOps := sigOps + pool.sigOps[t] + run.extraSigOps;
      if newSigOps * 4 > limits.maxSigOps || newWeight > limits.hardWeight { return false; }
      AddToBlock(t);
      ghost var placed := vtx;
      assert vtx == placed + Transfers(0);
      for i := 0 to run.transfers
        invariant Valid() && inBlock == old(inBlock) + {t} && vtx == placed + Transfers(i)
        invariant weight == old(weight) + pool.weight[t] && sigOps == old(sigOps) + pool.sigOps[t]
      {
        PlacedAppend(vtx, Generated(i));
        WellOrderedAppend(pool, vtx, Generated(i));
        assert Transfers(i + 1) == Transfers(i) + [Generated(i)];
        vtx := vtx + [Generated(i)];
      }
      weight := weight + run.extraWeight;
      sigOps := sigOps + run.extraSigOps;
      return true;
    }

    /** onlyUnconfirmed: drop what is already in the block. */
    method OnlyUnconfirmed(testSet: set<Tx>) returns (r: set<Tx>)
      ensures r == testSet - inBlock
    {
      r := testSet;
      var todo := testSet;
      while todo != {}
        invariant todo <= testSet && r <= testSet
        invariant forall t :: t in testSet ==> (t in r <==> t in todo || t !in inBlock)
        decreases |todo|
      {
        NonEmpty(todo);
        var t :| t in todo;
        if t in inBlock { r := r - {t}; }
        todo := todo - {t};
      }
    }

    /** Add descendants of the given transactions to the modified set, or correct their figures. */
    method UpdatePackagesForAdded(added: set<Tx>, modified: map<Tx, Modified>, full: map<Tx, Modified>) returns (r: map<Tx, Modified>)
      requires ValidPool(pool) && added <= pool.anc.Keys && modified.Keys <= pool.anc.Keys && modified.Keys !! added
      requires full.Keys == pool.anc.Keys
      ensures Updated(pool, modified, full, added, added, r)
    {
      hide ValidPool, Updated, Stepped;
      r := modified;
      var todo := added;
      UpdatedNone(pool, modified, full, added);
      assert added - todo == {};
      while todo != {}
        invariant todo <= added && Updated(pool, modified, full, added - todo, added, r)
        decreases |todo|
      {
        NonEmpty(todo);
        var it :| it in todo;
        ghost var was := r;
        UpdatedKeys(pool, modified, full, added - todo, added, r);
        r := CreditDescendants(it, added, r, full);
        UpdatedNext(pool, modified, full, added - todo, added, it, was, r);
        assert added - todo + {it} == added - (todo - {it});
        todo := todo - {it};
      }
      assert added - {} == added;
    }

    method CreditDescendants(it: Tx, added: set<Tx>, modified: map<Tx, Modified>, full: map<Tx, Modified>) returns (r: map<Tx, Modified>)
      requires ValidPool(pool) && it in pool.anc && it in added && modified.Keys <= pool.anc.Keys && modified.Keys !! added
      requires full.Keys == pool.anc.Keys
      ensures Known(pool, it) && Stepped(pool, full, it, added, modified, r)
    {
      hide ValidPool, Handled, Stepped, Minus;
      PoolParts(pool, it);
      HandledNone(pool, full, it, modified);
      r := modified;
      var descendants := set d | d in pool.anc.Keys && (d == it || it in pool.anc[d]);
      var todo := descendants;
      ghost var handled: set<Tx> := {};
      while todo != {}
        invariant todo <= descendants && handled == descendants - todo - added && Handled(pool, full, it, modified, handled, r)
        decreases |todo|
      {
        NonEmpty(todo);
        var d :| d in todo;
        todo := todo - {d};
        if d in added { continue; }
        HandledNext(pool, full, it, modified, handled, r, d);
        r := r[d := Minus(pool, if d !in r then full[d] else r[d], it)];
        handled := handled + {d};
      }
      TouchedByOne(pool, it, added, handled, descendants);
      HandledAll(pool, full, it, added, modified, handled, r);
    }

    /** Least ancestor count first. */
    method SortForBlock(package: set<Tx>) returns (sorted: seq<Tx>)
      requires package <= pool.anc.Keys
      ensures SortedByCount(pool, sorted) && Elements(sorted) == package
    {
      hide SortedByCount, Elements;
      sorted := [];
      var todo := package;
      NothingSorted(pool, todo);
      while todo != {}
        invariant todo <= package && Elements(sorted) == package - todo
        invariant SortedByCount(pool, sorted) && Behind(pool, sorted, todo)
        decreases |todo|
      {
        LeastCount(pool, todo);
        var t :| t in todo && IsLeast(pool, todo, t);
        SortedAppend(pool, sorted, todo, t);
        sorted := sorted + [t];
        todo := todo - {t};
      }
      assert package - todo == package;
    }

    /**
     * A package is added front to back until a contract does not fit or time
     * runs out; every member leaves the modified set either way.
     */
    method AddPackage(sorted: seq<Tx>, iter: Tx, usingModified: bool, modified: map<Tx, Modified>, failed: set<Tx>, w: World)
      returns (wasAdded: bool, modified': map<Tx, Modified>, failed': set<Tx>)
      requires Valid() && IsPackage(pool, sorted, inBlock) && sorted != [] && iter == sorted[|sorted| - 1]
      requires usingModified ==> iter in modified
      requires forall t :: t in sorted ==> t in pool.weight && t in pool.sigOps
      modifies this
      ensures Valid() && old(vtx) <= vtx
      ensures var h := Halt(pool, limits, w, sorted, old(TheLoad()), 0);
        && TheLoad() == h.1 && inBlock == old(inBlock) + Elements(sorted[..h.0]) && wasAdded == (h.0 == |sorted|)
        && failed' == Failed(w, usingModified, failed, iter, h.0, |sorted|)
      ensures modified' == modified - Elements(sorted)
    {
      hide WellOrdered, Placed, Elements, ValidPool, Halt, LoadAfter, ContractFits;
      ghost var base, all, goal := inBlock, Elements(sorted), Halt(pool, limits, w, sorted, TheLoad(), 0);
      ghost var gone: set<Tx>, reached: nat := {}, 0;
      wasAdded, modified', failed' := true, modified, failed;
      NothingPlaced(sorted);
      for i := 0 to |sorted|
        invariant Valid() && old(vtx) <= vtx
        invariant if wasAdded then reached == i && Halt(pool, limits, w, sorted, TheLoad(), i) == goal else goal == (reached, TheLoad()) && reached < i
        invariant inBlock == base + Elements(sorted[..reached])
        invariant modified' == modified - gone && Elements(sorted[..i]) <= gone <= all
        invariant wasAdded ==> gone == Elements(sorted[..i]) && failed' == failed
        invariant failed' == Failed(w, usingModified, failed, iter, reached, if wasAdded then reached else |sorted|)
      {
        var t := sorted[i];
        PackageStep(pool, sorted, base, i);
        HaltStep(pool, limits, w, sorted, TheLoad(), i);
        if wasAdded && !w.timeUp(i) {
          if t in pool.contracts {
            wasAdded := AttemptToAddContractToBlock(t, w);
            if !wasAdded && usingModified {
              // The iterator to the modified entry is still live here.
              assert iter in modified';
              Without(modified, gone, iter);
              gone := gone + {iter};
              modified' := modified' - {iter};
              failed' := failed' + {iter};
            }
          } else {
            PlainLoad(pool, w, TheLoad(), t);
            AddToBlock(t);
          }
        } else {
          wasAdded := false;
        }
        if wasAdded { reached := i + 1; }
        Without(modified, gone, t);
        gone := gone + {t};
        modified' := modified' - {t};
      }
      assert sorted[..|sorted|] == sorted;
      HaltEnd(pool, limits, w, sorted, TheLoad());
    }

    /** Room for the package, judged by its figures. */
    predicate TestPackage(size: int, sigOps: int)
      reads this
    {
      Fits(limits, Load(weight, this.sigOps), Modified(size, 0, sigOps))
    }

    /** Within the limits, unless nothing was added at all. */
    ghost predicate WithinLimits(weight0: int, sigOps0: int)
      reads this
    {
      (weight == weight0 || weight < limits.maxWeight) && (sigOps == sigOps0 || sigOps < limits.maxSigOps)
    }

    /**
     * One candidate.  A package that does not fit by its figures, or is not
     * final, is dropped; otherwise it is added as far as it goes, and only a
     * whole package is credited to its descendants.
     */
    method Consider(iter: Tx, usingModified: bool, modified: map<Tx, Modified>, failed: set<Tx>, full: map<Tx, Modified>, w: World)
      returns (modified': map<Tx, Modified>, failed': set<Tx>, ghost sorted: seq<Tx>)
      requires Valid() && FullOk(pool, full) && ModifiedOk(pool, modified, inBlock, inBlock)
      requires iter in pool.anc && iter !in inBlock && (usingModified ==> iter in modified)
      modifies this
      ensures Valid() && ModifiedOk(pool, modified', inBlock, inBlock) && old(vtx) <= vtx && old(inBlock) <= inBlock
      ensures inBlock == old(inBlock) ==> modified'.Keys <= modified.Keys && (usingModified ==> iter !in modified')
      ensures pool.contracts == {} ==> WithinLimits(old(weight), old(sigOps))
      ensures Outcome(pool, limits, w, Candidate(iter, usingModified, modified, failed, full), old(TheLoad()), old(inBlock), modified', failed', sorted, TheLoad(), inBlock)
    {
      hide ModifiedOk, FullOk, ValidPool, WellOrdered, Placed, IsPackage, SortedByCount, Covers, Sum, Elements, AncestorClosed, Halt, Updated, Full;
      modified', failed', sorted := modified, failed, [];
      FiguresCover(pool, modified, full, iter, inBlock);
      FullAt(pool, full, iter);
      var figures := if usingModified then modified[iter] else full[iter];
      var fits := TestPackage(figures.size, figures.sigOps);
      if !fits || !w.isFinal {
        if usingModified {
          modified', failed' := modified - {iter}, failed + {iter};
          ModifiedShrinks(pool, modified, {iter}, inBlock, inBlock);
        }
        return;
      }
      var package := OnlyUnconfirmed(pool.anc[iter]);
      package := package + {iter};
      PackageInPool(pool, iter, package);
      var list := SortForBlock(package);
      sorted := list;
      SortedIsPackage(pool, sorted, iter, inBlock);
      SortedInPool(pool, sorted);
      var wasAdded;
      ghost var before, load := inBlock, TheLoad();
      wasAdded, modified', failed' := AddPackage(list, iter, usingModified, modified, failed, w);
      Grew(pool, limits, w, sorted, load, before);
      HaltBound(pool, limits, w, sorted, load, 0);
      PrefixSums(pool, sorted, 0);
      ModifiedShrinks(pool, modified, package, before, inBlock);
      if wasAdded {
        assert sorted[..|sorted|] == sorted;
        WellOrderedClosed(pool, old(vtx));
        assert inBlock - package == before;
        ModifiedKeys(pool, modified', inBlock);
        ghost var shrunk := modified';
        FullKeys(pool, full);
        modified' := UpdatePackagesForAdded(package, modified', full);
        UpdatedOk(pool, shrunk, full, package, inBlock, modified');
      }
    }

    /** SkipMapTxEntry: stale entries of the pool order. */
    predicate SkipEntry(t: Tx, modified: map<Tx, Modified>, failed: set<Tx>)
      reads this
    {
      t in modified || t in inBlock || t in failed
    }

    /** Descendants of what is in the block from the start. */
    method FirstUpdate(full: map<Tx, Modified>) returns (modified: map<Tx, Modified>)
      requires Valid() && FullOk(pool, full)
      ensures ModifiedOk(pool, modified, inBlock, inBlock) && Updated(pool, map[], full, inBlock, inBlock, modified)
    {
      hide ValidPool, WellOrdered, Placed, Covers, Updated, Full;
      NothingIn(pool, inBlock);
      WellOrderedClosed(pool, vtx);
      modified := UpdatePackagesForAdded(inBlock, map[], full);
      UpdatedOk(pool, map[], full, inBlock, inBlock, modified);
    }
  }

  lemma HaltStep(p: Pool, lim: Limits, w: World, sorted: seq<Tx>, load: Load, i: nat)
    requires i < |sorted| && forall t :: t in sorted ==> t in p.weight && t in p.sigOps
    ensures Halt(p, lim, w, sorted, load, i) ==
      if Stops(p, lim, w, load, sorted[i], i) then (i, load) else Halt(p, lim, w, sorted, LoadAfter(p, w, load, sorted[i]), i + 1)
  {
  }

  lemma HaltEnd(p: Pool, lim: Limits, w: World, sorted: seq<Tx>, load: Load)
    requires forall t :: t in sorted ==> t in p.weight && t in p.sigOps
    ensures Halt(p, lim, w, sorted, load, |sorted|) == (|sorted|, load)
  {
  }

  lemma PlainLoad(p: Pool, w: World, load: Load, t: Tx)
    requires t in p.weight && t in p.sigOps && t !in p.contracts
    ensures LoadAfter(p, w, load, t) == Load(load.weight + p.weight[t], load.sigOps + p.sigOps[t])
  {
  }

  /** Plain transactions load the block by no more than their figures. */
  lemma {:induction false} HaltBound(p: Pool, lim: Limits, w: World, sorted: seq<Tx>, load: Load, i: nat)
    requires ValidPool(p) && i <= |sorted| && (forall t :: t in sorted ==> t in p.weight && t in p.sigOps)
    requires forall j :: 0 <= j < |sorted| ==> sorted[j] in p.anc && sorted[j] !in sorted[..j]
    ensures p.contracts == {} ==>
      && Halt(p, lim, w, sorted, load, i).1.weight <= load.weight + 4 * (Sum(p.size, Elements(sorted)) - Sum(p.size, Elements(sorted[..i])))
      && Halt(p, lim, w, sorted, load, i).1.sigOps <= load.sigOps + Sum(p.sigOps, Elements(sorted)) - Sum(p.sigOps, Elements(sorted[..i]))
    decreases |sorted| - i
  {
    hide Halt, Sum, Elements, LoadAfter;
    PrefixSums(p, sorted, i);
    if i == |sorted| {
      HaltEnd(p, lim, w, sorted, load);
    } else {
      HaltStep(p, lim, w, sorted, load, i);
      StepSums(p, sorted, i);
      HaltBound(p, lim, w, sorted, LoadAfter(p, w, load, sorted[i]), i + 1);
      if p.contracts == {} { PlainLoad(p, w, load, sorted[i]); }
    }
  }

  lemma PrefixSums(p: Pool, sorted: seq<Tx>, i: nat)
    requires i <= |sorted|
    ensures Sum(p.size, Elements(sorted[..i])) <= Sum(p.size, Elements(sorted))
    ensures Sum(p.sigOps, Elements(sorted[..i])) <= Sum(p.sigOps, Elements(sorted))
    ensures Elements(sorted[..0]) == {} && Sum(p.size, {}) == 0 && Sum(p.sigOps, {}) == 0
  {
    assert Elements(sorted[..i]) <= Elements(sorted);
    SumMono(p.size, Elements(sorted[..i]), Elements(sorted));
    SumMono(p.sigOps, Elements(sorted[..i]), Elements(sorted));
  }

  lemma Grew(p: Pool, lim: Limits, w: World, sorted: seq<Tx>, load: Load, before: set<Tx>)
    requires IsPackage(p, sorted, before) && sorted != [] && (forall t :: t in sorted ==> t in p.weight && t in p.sigOps)
    ensures var k := Halt(p, lim, w, sorted, load, 0).0;
      Elements(sorted[..k]) <= Elements(sorted) && (before + Elements(sorted[..k]) == before ==> k == 0)
    ensures sorted[|sorted| - 1] in Elements(sorted)
    ensures (forall j :: 0 <= j < |sorted| ==> sorted[j] in p.anc && sorted[j] !in sorted[..j])
  {
    var k := Halt(p, lim, w, sorted, load, 0).0;
    if k > 0 {
      assert sorted[..k][0] == sorted[0];
      assert sorted[0] in Elements(sorted[..k]) && sorted[0] !in before;
    }
  }

  lemma FullAt(p: Pool, full: map<Tx, Modified>, t: Tx)
    requires FullOk(p, full) && t in p.anc
    ensures t in full && full[t] == Full(p, t)
  {
  }

  lemma FullKeys(p: Pool, full: map<Tx, Modified>)
    requires FullOk(p, full)
    ensures full.Keys == p.anc.Keys
  {
  }

  lemma ModifiedKeys(p: Pool, modified: map<Tx, Modified>, block: set<Tx>)
    requires ModifiedOk(p, modified, block, block)
    ensures modified.Keys <= p.anc.Keys && modified.Keys !! block
  {
  }

  lemma ModifiedAt(p: Pool, modified: map<Tx, Modified>, block: set<Tx>, t: Tx)
    requires ModifiedOk(p, modified, block, block) && t in modified
    ensures t in p.anc && t !in block
  {
  }

  lemma SortedInPool(p: Pool, sorted: seq<Tx>)
    requires ValidPool(p) && SortedByCount(p, sorted)
    ensures forall t :: t in sorted ==> t in p.weight && t in p.sigOps
  {
  }

  lemma NothingIn(p: Pool, block: set<Tx>)
    ensures ModifiedOk(p, map[], block, block - block) && AncestorClosed(p, block - block)
  {
  }

  lemma NoMore(a: set<Tx>, b: set<Tx>)
    requires a <= b
    ensures |a| <= |b|
  {
    assert b == a + (b - a);
  }

  lemma Fewer(a: set<Tx>, b: set<Tx>, t: Tx)
    requires a <= b && t in b && t !in a
    ensures |a| < |b|
  {
    NoMore(a, b - {t});
  }

  lemma Progress(p: Pool, before: set<Tx>, after: set<Tx>, vtx: seq<Item>)
    requires before <= after == Placed(vtx) && WellOrdered(p, vtx)
    ensures after == before || |p.anc.Keys - after| < |p.anc.Keys - before|
  {
    if after != before {
      NonEmpty(after - before);
      assert after == before + (after - before);
      var t :| t in after - before;
      WellOrderedClosed(p, vtx);
      Fewer(p.anc.Keys - after, p.anc.Keys - before, t);
    }
  }

  // ----- acceptance -------------------------------------------------------------------------------

  lemma {:induction false} HaltPlain(p: Pool, lim: Limits, w: World, sorted: seq<Tx>, load: Load, i: nat)
    requires i <= |sorted| && (forall t :: t in sorted ==> t in p.weight && t in p.sigOps && t !in p.contracts)
    requires forall k :: !w.timeUp(k)
    ensures Halt(p, lim, w, sorted, load, i).0 == |sorted|
    decreases |sorted| - i
  {
    if i < |sorted| { HaltPlain(p, lim, w, sorted, LoadAfter(p, w, load, sorted[i]), i + 1); }
  }

  ghost function FiguresOf(p: Pool, c: Candidate): Modified
    requires c.iter in p.anc && (c.usingModified ==> c.iter in c.modified)
  {
    if c.usingModified then c.modified[c.iter] else Full(p, c.iter)
  }

  /**
   * A final package of plain transactions goes in if and only if by its figures
   * both the weight and the sigops stay below the limits.  With exact figures that is if and only if it fits; with figures
   * that are only large enough, what goes in fits, but not conversely.
   */
  lemma AcceptedIff(p: Pool, lim: Limits, w: World, c: Candidate, load: Load, block: set<Tx>,
                    modified: map<Tx, Modified>, failed: set<Tx>, sorted: seq<Tx>, load': Load, block': set<Tx>)
    requires ValidPool(p) && c.iter in p.anc && c.iter !in block && (c.usingModified ==> c.iter in c.modified)
    requires Outcome(p, lim, w, c, load, block, modified, failed, sorted, load', block')
    requires w.isFinal && (forall k :: !w.timeUp(k)) && Remaining(p, c.iter, block) !! p.contracts
    ensures c.iter in block' <==> Fits(lim, load, FiguresOf(p, c))
    ensures c.iter in block' <==>
      load.weight + 4 * FiguresOf(p, c).size < lim.maxWeight && load.sigOps + FiguresOf(p, c).sigOps < lim.maxSigOps
    ensures Exact(p, FiguresOf(p, c), c.iter, block) ==> (c.iter in block' <==> Fits(lim, load, Needs(p, c.iter, block)))
    ensures Covers(p, FiguresOf(p, c), c.iter, block) && c.iter in block' ==> Fits(lim, load, Needs(p, c.iter, block))
  {
    hide Sum, Full, ValidPool, Updated, Halt, IsPackage;
    if Fits(lim, load, FiguresOf(p, c)) {
      forall t | t in sorted ensures t !in p.contracts { assert t in Elements(sorted); }
      HaltPlain(p, lim, w, sorted, load, 0);
      assert sorted[..|sorted|] == sorted;
      assert c.iter in Elements(sorted);
    }
  }

  /** The figures a candidate is judged by are never too small, so they are never negative. */
  lemma FiguresCover(p: Pool, modified: map<Tx, Modified>, full: map<Tx, Modified>, iter: Tx, block: set<Tx>)
    requires ValidPool(p) && FullOk(p, full) && ModifiedOk(p, modified, block, block) && iter in p.anc
    ensures iter in full && full[iter].size >= Sum(p.size, Remaining(p, iter, block)) && full[iter].sigOps >= Sum(p.sigOps, Remaining(p, iter, block))
    ensures iter in modified ==>
      modified[iter].size >= Sum(p.size, Remaining(p, iter, block)) && modified[iter].sigOps >= Sum(p.sigOps, Remaining(p, iter, block))
  {
    FullCovers(p, iter, block);
  }

  lemma ModifiedShrinks(p: Pool, modified: map<Tx, Modified>, gone: set<Tx>, before: set<Tx>, after: set<Tx>)
    requires ModifiedOk(p, modified, before, before) && before <= after <= before + gone
    ensures ModifiedOk(p, modified - gone, after, before) && ModifiedOk(p, modified - gone, after, after)
  {
    forall t | t in modified - gone ensures Covers(p, modified[t], t, after) {
      CoversMono(p, modified[t], t, before, after);
    }
  }

  lemma PackageInPool(p: Pool, iter: Tx, package: set<Tx>)
    requires ValidPool(p) && iter in p.anc && package <= p.anc[iter] + {iter}
    ensures package <= p.anc.Keys
  {
  }

  predicate IsLeast(p: Pool, s: set<Tx>, t: Tx)
    requires s <= p.anc.Keys
  {
    t in s && forall u :: u in s ==> AncestorCount(p, t) <= AncestorCount(p, u)
  }

  lemma {:induction false} LeastCount(p: Pool, s: set<Tx>)
    requires s <= p.anc.Keys && s != {}
    ensures exists t :: IsLeast(p, s, t)
    decreases |s|
  {
    hide AncestorCount;
    NonEmpty(s);
    var n :| n in s;
    if s == {n} {
      assert IsLeast(p, s, n);
    } else {
      var rest := s - {n};
      assert s == rest + {n};
      LeastCount(p, rest);
      var m :| IsLeast(p, rest, m);
      assert IsLeast(p, s, if AncestorCount(p, m) < AncestorCount(p, n) then m else n);
    }
  }

  /** Everything sorted so far has no more ancestors than anything still to come. */
  ghost predicate Behind(p: Pool, sorted: seq<Tx>, todo: set<Tx>)
    requires SortedByCount(p, sorted) && todo <= p.anc.Keys
  {
    forall i, t :: 0 <= i < |sorted| && t in todo ==> AncestorCount(p, sorted[i]) <= AncestorCount(p, t) && t != sorted[i]
  }

  lemma NothingSorted(p: Pool, todo: set<Tx>)
    requires todo <= p.anc.Keys
    ensures SortedByCount(p, []) && Behind(p, [], todo) && Elements([]) == {}
  {
  }

  lemma SortedAppend(p: Pool, sorted: seq<Tx>, todo: set<Tx>, t: Tx)
    requires SortedByCount(p, sorted) && todo <= p.anc.Keys && Behind(p, sorted, todo)
    requires IsLeast(p, todo, t)
    ensures SortedByCount(p, sorted + [t]) && Behind(p, sorted + [t], todo - {t})
    ensures Elements(sorted + [t]) == Elements(sorted) + {t}
  {
  }

  lemma NothingPlaced(sorted: seq<Tx>)
    ensures Elements(sorted[..0]) == {}
  {
  }

  lemma Without(m: map<Tx, Modified>, gone: set<Tx>, t: Tx)
    ensures m - gone - {t} == m - (gone + {t})
  {
  }

  lemma PackageStep(p: Pool, sorted: seq<Tx>, base: set<Tx>, i: nat)
    requires ValidPool(p) && IsPackage(p, sorted, base) && i < |sorted|
    ensures sorted[i] in p.anc && sorted[i] !in base + Elements(sorted[..i]) && p.anc[sorted[i]] <= base + Elements(sorted[..i])
    ensures Elements(sorted[..i + 1]) == Elements(sorted[..i]) + {sorted[i]} <= Elements(sorted)
    ensures sorted[|sorted| - 1] in Elements(sorted) && sorted[|sorted| - 1] !in Elements(sorted[..i])
  {
    ElementsNext(sorted, i);
    assert forall k :: 0 <= k < i ==> sorted[..|sorted| - 1][k] == sorted[..i][k];
  }

  lemma StepSums(p: Pool, sorted: seq<Tx>, i: nat)
    requires ValidPool(p) && i < |sorted| && sorted[i] in p.anc && sorted[i] !in sorted[..i]
    ensures sorted[i] in p.weight && sorted[i] in p.size && sorted[i] in p.sigOps && p.weight[sorted[i]] <= 4 * p.size[sorted[i]]
    ensures Sum(p.size, Elements(sorted[..i + 1])) == Sum(p.size, Elements(sorted[..i])) + p.size[sorted[i]]
    ensures Sum(p.sigOps, Elements(sorted[..i + 1])) == Sum(p.sigOps, Elements(sorted[..i])) + p.sigOps[sorted[i]]
  {
    ElementsNext(sorted, i);
    SumNext(p.size, Elements(sorted[..i]), sorted[i]);
    SumNext(p.sigOps, Elements(sorted[..i]), sorted[i]);
  }

  ghost function Elements(s: seq<Tx>): set<Tx> {
    set t | t in s
  }

  /** A package in block order: ancestors in the block or earlier in the list. */
  ghost predicate IsPackage(p: Pool, sorted: seq<Tx>, block: set<Tx>) {
    forall i :: 0 <= i < |sorted| ==>
      && sorted[i] in p.anc && sorted[i] !in block && sorted[i] !in sorted[..i]
      && p.anc[sorted[i]] <= block + Elements(sorted[..i])
  }

  ghost predicate SortedByCount(p: Pool, sorted: seq<Tx>) {
    && (forall i :: 0 <= i < |sorted| ==> sorted[i] in p.anc)
    && (forall i, j :: 0 <= i < j < |sorted| ==> sorted[i] != sorted[j] && AncestorCount(p, sorted[i]) <= AncestorCount(p, sorted[j]))
  }

  /** Sorting by ancestor count is enough: it puts every ancestor before its descendants. */
  lemma SortedIsPackage(p: Pool, sorted: seq<Tx>, iter: Tx, block: set<Tx>)
    requires ValidPool(p) && SortedByCount(p, sorted) && iter in p.anc && iter !in block
    requires Elements(sorted) == Remaining(p, iter, block)
    ensures IsPackage(p, sorted, block) && sorted != [] && sorted[|sorted| - 1] == iter
  {
    LastIsCandidate(p, sorted, iter, block);
    forall i | 0 <= i < |sorted|
      ensures sorted[i] !in block && sorted[i] !in sorted[..i] && p.anc[sorted[i]] <= block + Elements(sorted[..i])
    {
      var t := sorted[i];
      assert t in Elements(sorted);
      forall u | u in p.anc[t] && u !in block ensures u in Elements(sorted[..i]) {
        assert u in p.anc[iter];
        assert u in Elements(sorted);
        var j :| 0 <= j < |sorted| && sorted[j] == u;
        AncestorsCountLess(p, t, u);
        assert j < i;
        assert sorted[..i][j] == u;
      }
    }
  }

  lemma LastIsCandidate(p: Pool, sorted: seq<Tx>, iter: Tx, block: set<Tx>)
    requires ValidPool(p) && SortedByCount(p, sorted) && iter in p.anc && iter !in block
    requires Elements(sorted) == Remaining(p, iter, block)
    ensures sorted != [] && sorted[|sorted| - 1] == iter
  {
    assert iter in Elements(sorted);
    var k :| 0 <= k < |sorted| && sorted[k] == iter;
    var last := sorted[|sorted| - 1];
    assert last in Elements(sorted);
    if last != iter { AncestorsCountLess(p, iter, last); }
  }

  lemma ElementsNext(sorted: seq<Tx>, i: nat)
    requires i < |sorted|
    ensures Elements(sorted[..i + 1]) == Elements(sorted[..i]) + {sorted[i]}
  {
    assert sorted[..i + 1] == sorted[..i] + [sorted[i]];
  }

  lemma SumNext(f: map<Tx, int>, s: set<Tx>, t: Tx)
    requires t !in s && t in f
    ensures Sum(f, s + {t}) == Sum(f, s) + f[t]
  {
    SumSplit(f, s + {t}, t);
    assert s + {t} - {t} == s;
  }

  /** A descendant of something outside an ancestor-closed block is outside too. */
  lemma NotYetInBlock(p: Pool, block: set<Tx>, it: Tx, d: Tx)
    requires AncestorClosed(p, block) && it !in block && d in p.anc && it in p.anc[d]
    ensures d !in block
  {
  }
}
