/**
 * Compact block reconstruction: short ids are matched against the memory pool
 * and recent extra transactions, the rest is requested and filled in.  Short
 * id hashing is an arbitrary function, and so are the hash map's bucket sizes.
 */
module CompactBlock {

  type Tx = nat
  type Hash = nat

  datatype Option<T> = None | Some(value: T)
  datatype Prefilled = Prefilled(index: nat, tx: Tx, isNull: bool)
  datatype Compact = Compact(headerNull: bool, shortIds: seq<nat>, prefilled: seq<Prefilled>)
  datatype Entry = Entry(hash: Hash, tx: Tx)
  datatype Status = Ok | Invalid | Failed | CheckBlockFailed

  function Count(c: Compact): nat {
    |c.shortIds| + |c.prefilled|
  }

  /** What reading a message from the wire enforces: everything fits 16 bits. */
  predicate Received(c: Compact) {
    Count(c) <= 0xFFFF && forall i :: 0 <= i < |c.prefilled| ==> c.prefilled[i].index <= 0xFFFF
  }

  // ----- free slots ---------------------------------------------------------------------------

  ghost function Free(s: seq<Option<Tx>>): nat {
    if s == [] then 0 else Free(s[..|s| - 1]) + if s[|s| - 1].None? then 1 else 0
  }

  lemma FreeNext(s: seq<Option<Tx>>, k: nat)
    requires k < |s|
    ensures Free(s[..0]) == 0 && Free(s[..k + 1]) == Free(s[..k]) + if s[k].None? then 1 else 0
  {
    assert s[..k + 1][..k] == s[..k];
  }

  lemma {:induction false} FreeUpdate(s: seq<Option<Tx>>, k: nat, v: Option<Tx>)
    requires k < |s|
    ensures Free(s[k := v]) == Free(s) - (if s[k].None? then 1 else 0) + (if v.None? then 1 else 0)
  {
    var n := |s| - 1;
    if k == n {
      assert s[k := v][..n] == s[..n];
    } else {
      assert s[k := v][..n] == s[..n][k := v];
      FreeUpdate(s[..n], k, v);
    }
  }

  lemma {:induction false} FreeMono(s: seq<Option<Tx>>, j: nat, k: nat)
    requires j <= k <= |s|
    ensures Free(s[..j]) <= Free(s[..k]) <= Free(s[..j]) + (k - j)
    ensures (forall i :: j <= i < k ==> s[i].Some?) ==> Free(s[..j]) == Free(s[..k])
    decreases k
  {
    if j < k {
      FreeMono(s, j, k - 1);
      FreeNext(s, k - 1);
    }
  }

  function Empty(n: nat): seq<Option<Tx>> {
    seq(n, _ => None)
  }

  lemma {:induction false} FreeAll(n: nat)
    ensures Free(Empty(n)) == n
  {
    if n > 0 {
      assert Empty(n)[..n - 1] == Empty(n - 1);
      FreeAll(n - 1);
    }
  }

  /** Slot j is the i-th free one. */
  ghost predicate IsSlot(s: seq<Option<Tx>>, j: nat, i: nat) {
    j < |s| && s[j].None? && Free(s[..j]) == i
  }

  lemma SlotUnique(s: seq<Option<Tx>>, j: nat, k: nat, i: nat)
    requires IsSlot(s, j, i) && IsSlot(s, k, i)
    ensures j == k
  {
    if j < k { FreeNext(s, j); FreeMono(s, j + 1, k); }
    if k < j { FreeNext(s, k); FreeMono(s, k + 1, j); }
  }

  /** Every free slot has its number. */
  lemma SlotNumber(s: seq<Option<Tx>>, j: nat)
    requires j < |s| && s[j].None?
    ensures IsSlot(s, j, Free(s[..j])) && Free(s[..j]) < Free(s)
  {
    FreeNext(s, j);
    FreeMono(s, j + 1, |s|);
    assert s[..|s|] == s;
  }

  // ----- prefilled transactions ------------------------------------------------------------------

  /** Absolute index of the k-th prefilled transaction. */
  ghost function Position(p: seq<Prefilled>, k: int): int
    requires -1 <= k < |p|
  {
    if k < 0 then -1 else Position(p, k - 1) + p[k].index + 1
  }

  /** Not null, within 16 bits, and no gap that the short ids cannot fill. */
  ghost predicate AcceptableAt(c: Compact, k: nat)
    requires k < |c.prefilled|
  {
    !c.prefilled[k].isNull && Position(c.prefilled, k) <= 0xFFFF && Position(c.prefilled, k) <= |c.shortIds| + k
  }

  ghost predicate Acceptable(c: Compact) {
    forall k :: 0 <= k < |c.prefilled| ==> AcceptableAt(c, k)
  }

  lemma {:induction false} PositionsIncrease(p: seq<Prefilled>, j: int, k: int)
    requires -1 <= j < k < |p|
    ensures Position(p, j) < Position(p, k)
    decreases k
  {
    if j < k - 1 { PositionsIncrease(p, j, k - 1); }
  }

  /** The first m prefilled transactions are in place and nothing else is. */
  ghost predicate Placed(c: Compact, s: seq<Option<Tx>>, m: nat) {
    && m <= |c.prefilled| && |s| == Count(c)
    && (forall k :: 0 <= k < m ==> 0 <= Position(c.prefilled, k) < |s| && s[Position(c.prefilled, k)] == Some(c.prefilled[k].tx))
    && (forall j :: 0 <= j < |s| && s[j].Some? ==> exists k :: 0 <= k < m && Position(c.prefilled, k) == j)
    && Free(s) == Count(c) - m
  }

  lemma PlaceNext(c: Compact, s: seq<Option<Tx>>, m: nat)
    requires Placed(c, s, m) && m < |c.prefilled| && 0 <= Position(c.prefilled, m) < |s|
    ensures Placed(c, s[Position(c.prefilled, m) := Some(c.prefilled[m].tx)], m + 1)
  {
    hide Free, Position;
    var p := Position(c.prefilled, m);
    forall k | 0 <= k < m ensures Position(c.prefilled, k) < p { PositionsIncrease(c.prefilled, k, m); }
    FreeUpdate(s, p, Some(c.prefilled[m].tx));
  }

  lemma PlaceNone(c: Compact)
    ensures Placed(c, Empty(Count(c)), 0)
  {
    FreeAll(Count(c));
  }

  /** The short ids belong to the free slots, in order. */
  ghost predicate Slotted(c: Compact, s: seq<Option<Tx>>, slots: map<nat, nat>) {
    && (forall i :: 0 <= i < |c.shortIds| ==> c.shortIds[i] in slots && IsSlot(s, slots[c.shortIds[i]], i))
    && (forall id :: id in slots ==> id in c.shortIds)
  }

  ghost function IdSet(s: seq<nat>): set<nat> {
    set x | x in s
  }

  lemma IdSetNext(s: seq<nat>, i: nat)
    requires i < |s|
    ensures IdSet(s[..0]) == {} && IdSet(s[..i + 1]) == IdSet(s[..i]) + {s[i]}
  {
    assert s[..i + 1] == s[..i] + [s[i]];
  }

  lemma DistinctNext(s: seq<nat>, m: nat)
    requires m < |s|
    ensures Distinct(s[..m + 1]) <==> Distinct(s[..m]) && s[m] !in IdSet(s[..m])
  {
    var t := s[..m + 1];
    assert forall i :: 0 <= i < m ==> s[..m][i] == t[i];
    if s[m] in IdSet(s[..m]) {
      var i :| 0 <= i < m && s[..m][i] == s[m];
      assert t[i] == t[m];
    }
  }

  lemma {:induction false} DistinctCount(s: seq<nat>, n: nat)
    requires n <= |s|
    ensures |IdSet(s[..n])| <= n && (|IdSet(s[..n])| == n <==> Distinct(s[..n]))
  {
    if n > 0 {
      hide Distinct, IdSet;
      var m := n - 1;
      DistinctCount(s, m);
      IdSetNext(s, m);
      DistinctNext(s, m);
      if s[m] in IdSet(s[..m]) { assert IdSet(s[..m]) + {s[m]} == IdSet(s[..m]); }
    }
  }

  ghost predicate Distinct(s: seq<nat>) {
    forall i, j :: 0 <= i < j < |s| ==> s[i] != s[j]
  }

  // ----- matching --------------------------------------------------------------------------------------

  type ShortId = Hash -> nat

  /** A transaction in a free slot came from an entry with that slot's short id. */
  ghost predicate Sourced(sid: ShortId, slots: map<nat, nat>, entries: seq<Entry>, placed: seq<Option<Tx>>, s: seq<Option<Tx>>) {
    && |s| == |placed|
    && forall j :: 0 <= j < |s| ==>
      if placed[j].Some? then s[j] == placed[j]
      else s[j].Some? ==> exists e :: e in entries && e.tx == s[j].value && sid(e.hash) in slots && slots[sid(e.hash)] == j
  }

  /** Slots, which of them were ever matched, and the two counters. */
  datatype Match = Match(s: seq<Option<Tx>>, have: seq<bool>, mempool: int, extra: int)

  /** The environment of a scan. */
  datatype Env = Env(sid: ShortId, wtxid: Tx -> Hash, slots: map<nat, nat>, fromExtra: bool)

  /** A second match empties the slot again, except for the same transaction seen once more among the extra ones. */
  function Step(v: Env, m: Match, e: Entry): Match {
    var id := v.sid(e.hash);
    if id !in v.slots || v.slots[id] >= |m.s| || v.slots[id] >= |m.have| then m
    else
      var j, x := v.slots[id], if v.fromExtra then 1 else 0;
      if !m.have[j] then Match(m.s[j := Some(e.tx)], m.have[j := true], m.mempool + 1, m.extra + x)
      else if m.s[j].Some? && (v.fromExtra ==> v.wtxid(m.s[j].value) != v.wtxid(e.tx)) then
        Match(m.s[j := None], m.have, m.mempool - 1, m.extra - x)
      else m
  }

  /** Entry by entry, until every slot is filled. */
  function Scan(v: Env, m: Match, entries: seq<Entry>): Match
    decreases |entries|
  {
    if entries == [] then m
    else
      var n := Step(v, m, entries[0]);
      if n.mempool == |v.slots| then n else Scan(v, n, entries[1..])
  }

  /** All slots of the table are free ones. */
  ghost predicate FreeSlots(slots: map<nat, nat>, placed: seq<Option<Tx>>) {
    forall id :: id in slots ==> slots[id] < |placed| && placed[slots[id]].None?
  }

  ghost predicate MatchOk(v: Env, all: seq<Entry>, placed: seq<Option<Tx>>, m: Match) {
    && Sourced(v.sid, v.slots, all, placed, m.s) && |m.have| == |m.s|
    && m.mempool == Free(placed) - Free(m.s)
    && forall j :: 0 <= j < |m.s| && placed[j].None? && m.s[j].Some? ==> m.have[j]
  }

  lemma StepKeeps(v: Env, all: seq<Entry>, placed: seq<Option<Tx>>, m: Match, e: Entry)
    requires FreeSlots(v.slots, placed) && MatchOk(v, all, placed, m) && e in all
    ensures MatchOk(v, all, placed, Step(v, m, e))
  {
    hide Free;
    var id := v.sid(e.hash);
    if id in v.slots {
      var j := v.slots[id];
      FreeUpdate(m.s, j, Some(e.tx));
      FreeUpdate(m.s, j, None);
    }
  }

  /** Entry by entry, to the end. */
  ghost function Fold(v: Env, m: Match, entries: seq<Entry>): Match
    decreases |entries|
  {
    if entries == [] then m else Fold(v, Step(v, m, entries[0]), entries[1..])
  }

  /** A scan goes through a beginning of the list: all of it, or up to the first entry that fills every slot. */
  lemma {:induction false} ScanStops(v: Env, m: Match, entries: seq<Entry>) returns (k: nat)
    ensures k <= |entries| && Scan(v, m, entries) == Fold(v, m, entries[..k])
    ensures forall i :: 0 < i < k ==> Fold(v, m, entries[..i]).mempool != |v.slots|
    ensures k < |entries| ==> 0 < k && Fold(v, m, entries[..k]).mempool == |v.slots|
    decreases |entries|
  {
    hide Step;
    if entries == [] {
      k := 0;
    } else {
      var n := Step(v, m, entries[0]);
      assert entries[..1][1..] == [];
      assert Fold(v, m, entries[..1]) == Fold(v, n, []) == n;
      if n.mempool == |v.slots| {
        k := 1;
      } else {
        var l := ScanStops(v, n, entries[1..]);
        k := l + 1;
        forall i | 0 < i <= k ensures Fold(v, m, entries[..i]) == Fold(v, n, entries[1..][..i - 1]) {
          assert entries[..i][1..] == entries[1..][..i - 1];
        }
      }
    }
  }

  lemma {:induction false} FoldKeeps(v: Env, all: seq<Entry>, placed: seq<Option<Tx>>, m: Match, entries: seq<Entry>)
    requires FreeSlots(v.slots, placed) && MatchOk(v, all, placed, m) && forall e :: e in entries ==> e in all
    ensures MatchOk(v, all, placed, Fold(v, m, entries))
    decreases |entries|
  {
    hide Step, MatchOk;
    if entries != [] {
      StepKeeps(v, all, placed, m, entries[0]);
      FoldKeeps(v, all, placed, Step(v, m, entries[0]), entries[1..]);
    }
  }

  /** The counter of filled slots is exact, and prefilled transactions stay. */
  lemma ScanKeeps(v: Env, all: seq<Entry>, placed: seq<Option<Tx>>, m: Match, entries: seq<Entry>)
    requires FreeSlots(v.slots, placed) && MatchOk(v, all, placed, m) && forall e :: e in entries ==> e in all
    ensures MatchOk(v, all, placed, Scan(v, m, entries))
  {
    hide MatchOk;
    var k := ScanStops(v, m, entries);
    FoldKeeps(v, all, placed, m, entries[..k]);
  }

  /** No slot was matched yet. */
  function Start(placed: seq<Option<Tx>>): Match {
    Match(placed, seq(|placed|, _ => false), 0, 0)
  }

  lemma MatchStart(v: Env, all: seq<Entry>, placed: seq<Option<Tx>>)
    ensures MatchOk(v, all, placed, Start(placed))
  {
  }

  lemma SlottedFree(c: Compact, placed: seq<Option<Tx>>, slots: map<nat, nat>)
    requires Slotted(c, placed, slots)
    ensures FreeSlots(slots, placed)
  {
    forall id | id in slots ensures slots[id] < |placed| && placed[slots[id]].None? {
      var i :| 0 <= i < |c.shortIds| && c.shortIds[i] == id;
      assert IsSlot(placed, slots[c.shortIds[i]], i);
    }
  }

  // ----- the counter of extra transactions -----------------------------------------------------------

  ghost predicate Hits(v: Env, e: Entry, j: nat) {
    v.sid(e.hash) in v.slots && v.slots[v.sid(e.hash)] == j
  }

  /** All entries for slot j are one transaction, the one with this witness hash. */
  ghost predicate Agree(v: Env, entries: seq<Entry>, j: nat, w: Hash) {
    forall e :: e in entries && Hits(v, e, j) ==> v.wtxid(e.tx) == w
  }

  /** Before the scan: the extra entries leave a transaction in slot j. */
  ghost predicate Settles(v: Env, m: Match, entries: seq<Entry>, j: nat)
    requires j < |m.s| == |m.have|
  {
    if m.have[j] then m.s[j].Some? && Agree(v, entries, j, v.wtxid(m.s[j].value))
    else exists e :: e in entries && Hits(v, e, j) && Agree(v, entries, j, v.wtxid(e.tx))
  }

  /** A free slot holds a transaction only after a match. */
  ghost predicate Marked(m: Match, j: nat) {
    j < |m.s| == |m.have| && (m.s[j].Some? ==> m.have[j])
  }

  lemma AgreeFirst(v: Env, entries: seq<Entry>, j: nat, w: Hash)
    requires entries != []
    ensures Agree(v, entries, j, w) <==> (Hits(v, entries[0], j) ==> v.wtxid(entries[0].tx) == w) && Agree(v, entries[1..], j, w)
  {
    forall e ensures e in entries <==> e == entries[0] || e in entries[1..] { InTail(entries, e); }
  }

  lemma InTail(entries: seq<Entry>, e: Entry)
    requires entries != []
    ensures e in entries <==> e == entries[0] || e in entries[1..]
  {
    assert entries == [entries[0]] + entries[1..];
  }

  lemma SettlesFirst(v: Env, m: Match, entries: seq<Entry>, j: nat)
    requires v.fromExtra && entries != [] && Marked(m, j)
    ensures Marked(Step(v, m, entries[0]), j)
    ensures Settles(v, m, entries, j) <==> Settles(v, Step(v, m, entries[0]), entries[1..], j)
  {
    hide Agree, Hits;
    var e := entries[0];
    StepAt(v, m, e, j);
    if m.s[j].Some? { AgreeFirst(v, entries, j, v.wtxid(m.s[j].value)); }
    AgreeFirst(v, entries, j, v.wtxid(e.tx));
    if !m.have[j] {
      forall x | x in entries && Hits(v, x, j)
        ensures Agree(v, entries, j, v.wtxid(x.tx)) ==> (Hits(v, e, j) ==> v.wtxid(e.tx) == v.wtxid(x.tx))
        ensures Agree(v, entries, j, v.wtxid(x.tx)) ==> Agree(v, entries[1..], j, v.wtxid(x.tx))
        ensures !Hits(v, e, j) && Agree(v, entries[1..], j, v.wtxid(x.tx)) ==> Agree(v, entries, j, v.wtxid(x.tx))
        ensures x == e || x in entries[1..]
      {
        AgreeFirst(v, entries, j, v.wtxid(x.tx));
        InTail(entries, x);
      }
    }
  }

  /** What one extra entry does to slot j. */
  lemma StepAt(v: Env, m: Match, e: Entry, j: nat)
    requires v.fromExtra && Marked(m, j)
    ensures var n := Step(v, m, e);
      && j < |n.s| == |n.have|
      && (!Hits(v, e, j) ==> n.s[j] == m.s[j] && n.have[j] == m.have[j])
      && (Hits(v, e, j) && !m.have[j] ==> n.s[j] == Some(e.tx) && n.have[j])
      && (Hits(v, e, j) && m.have[j] ==> n.have[j])
      && (Hits(v, e, j) && m.have[j] ==>
            n.s[j] == if m.s[j].Some? && v.wtxid(m.s[j].value) == v.wtxid(e.tx) then m.s[j] else None)
  {
  }

  /** The outcome in each slot depends only on the entries with its short id. */
  lemma {:induction false} FoldSettles(v: Env, m: Match, entries: seq<Entry>, j: nat)
    requires v.fromExtra && Marked(m, j)
    ensures Marked(Fold(v, m, entries), j) && (Fold(v, m, entries).s[j].Some? <==> Settles(v, m, entries, j))
    decreases |entries|
  {
    hide Step;
    if entries == [] {
    } else {
      hide Settles, Marked;
      SettlesFirst(v, m, entries, j);
      FoldSettles(v, Step(v, m, entries[0]), entries[1..], j);
    }
  }

  // ----- what the scans leave in a slot ----------------------------------------------------------------

  lemma {:induction false} FoldSnoc(v: Env, m: Match, entries: seq<Entry>, e: Entry)
    ensures Fold(v, m, entries + [e]) == Step(v, Fold(v, m, entries), e)
    decreases |entries|
  {
    hide Step;
    var all := entries + [e];
    if entries == [] {
      assert all[1..] == [];
      assert Fold(v, m, all) == Fold(v, Step(v, m, e), []);
    } else {
      assert all[1..] == entries[1..] + [e];
      FoldSnoc(v, Step(v, m, entries[0]), entries[1..], e);
    }
  }

  ghost predicate SomeHit(v: Env, entries: seq<Entry>, j: nat) {
    exists i :: 0 <= i < |entries| && Hits(v, entries[i], j)
  }

  /** Entry i and no other has the short id of slot j. */
  ghost predicate OnlyHit(v: Env, entries: seq<Entry>, j: nat, i: int) {
    0 <= i < |entries| && Hits(v, entries[i], j) && forall k :: 0 <= k < |entries| && k != i ==> !Hits(v, entries[k], j)
  }

  ghost predicate FirstHit(v: Env, entries: seq<Entry>, j: nat, i: int) {
    0 <= i < |entries| && Hits(v, entries[i], j) && forall k :: 0 <= k < i ==> !Hits(v, entries[k], j)
  }

  /** What one pool entry does to slot j. */
  lemma PoolStepAt(v: Env, m: Match, e: Entry, j: nat)
    requires !v.fromExtra && j < |m.s| == |m.have|
    ensures var n := Step(v, m, e);
      && j < |n.s| == |n.have|
      && (!Hits(v, e, j) ==> n.s[j] == m.s[j] && n.have[j] == m.have[j])
      && (Hits(v, e, j) ==> n.have[j] && n.s[j] == if m.have[j] then None else Some(e.tx))
  {
  }

  lemma HitSnoc(v: Env, entries: seq<Entry>, e: Entry, j: nat)
    ensures SomeHit(v, entries + [e], j) <==> SomeHit(v, entries, j) || Hits(v, e, j)
    ensures forall i :: OnlyHit(v, entries + [e], j, i) <==>
      if Hits(v, e, j) then i == |entries| && !SomeHit(v, entries, j) else OnlyHit(v, entries, j, i)
    ensures forall i :: FirstHit(v, entries + [e], j, i) <==>
      FirstHit(v, entries, j, i) || (i == |entries| && Hits(v, e, j) && !SomeHit(v, entries, j))
  {
    hide Hits;
    var all := entries + [e];
    assert forall i :: 0 <= i < |entries| ==> all[i] == entries[i];
    assert all[|entries|] == e;
  }

  /**
   * Entries of the pool leave a transaction in a free slot if and only if
   * exactly one has its short id, and then it is that one's.
   */
  lemma {:induction false} PoolSettles(v: Env, placed: seq<Option<Tx>>, entries: seq<Entry>, j: nat)
    requires !v.fromExtra && j < |placed| && placed[j].None?
    ensures var m := Fold(v, Start(placed), entries);
      && j < |m.s| == |m.have| && (m.have[j] <==> SomeHit(v, entries, j))
      && (m.s[j].Some? <==> exists i :: OnlyHit(v, entries, j, i))
      && (forall i :: OnlyHit(v, entries, j, i) ==> m.s[j] == Some(entries[i].tx))
    decreases |entries|
  {
    if entries == [] {
    } else {
      hide Step, Fold, Hits, SomeHit, OnlyHit, FirstHit;
      var n := |entries| - 1;
      var e, before := entries[n], entries[..n];
      assert entries == before + [e];
      PoolSettles(v, placed, before, j);
      FoldSnoc(v, Start(placed), before, e);
      HitSnoc(v, before, e, j);
      PoolStepAt(v, Fold(v, Start(placed), before), e, j);
      OnlyIsSome(v, before, j);
      if Hits(v, e, j) && !SomeHit(v, before, j) { assert OnlyHit(v, entries, j, n); }
    }
  }

  lemma OnlyIsSome(v: Env, entries: seq<Entry>, j: nat)
    ensures forall i :: OnlyHit(v, entries, j, i) ==> SomeHit(v, entries, j) && 0 <= i < |entries|
  {
  }

  /**
   * Extra entries either empty a slot or leave what it holds: the pool's
   * transaction, or where the pool had none that of the first extra entry.
   */
  lemma {:induction false} ExtraSettles(v: Env, m: Match, entries: seq<Entry>, j: nat)
    requires v.fromExtra && Marked(m, j)
    ensures var n := Fold(v, m, entries);
      && Marked(n, j) && (n.have[j] <==> m.have[j] || SomeHit(v, entries, j))
      && (n.s[j].Some? ==> if m.have[j] then n.s[j] == m.s[j] else exists i :: FirstHit(v, entries, j, i) && n.s[j] == Some(entries[i].tx))
    decreases |entries|
  {
    if entries == [] {
    } else {
      hide Step, Fold, Hits, SomeHit, FirstHit, OnlyHit;
      var k := |entries| - 1;
      var e, before := entries[k], entries[..k];
      assert entries == before + [e];
      ExtraSettles(v, m, before, j);
      FoldSnoc(v, m, before, e);
      HitSnoc(v, before, e, j);
      var p := Fold(v, m, before);
      StepAt(v, p, e, j);
      var n := Step(v, p, e);
      if n.s[j].Some? && !m.have[j] {
        if p.s[j].Some? {
          var i :| FirstHit(v, before, j, i) && p.s[j] == Some(before[i].tx);
          FirstIn(v, before, j, i);
          assert FirstHit(v, entries, j, i) && entries[i] == before[i];
        } else {
          assert FirstHit(v, entries, j, k);
        }
      }
    }
  }

  lemma FirstIn(v: Env, entries: seq<Entry>, j: nat, i: int)
    requires FirstHit(v, entries, j, i)
    ensures 0 <= i < |entries|
  {
  }

  /** In a scan of extra transactions both counters move together. */
  lemma {:induction false} FoldExtra(v: Env, m: Match, entries: seq<Entry>)
    requires v.fromExtra
    ensures Fold(v, m, entries).extra - m.extra == Fold(v, m, entries).mempool - m.mempool
    decreases |entries|
  {
    if entries != [] { FoldExtra(v, Step(v, m, entries[0]), entries[1..]); }
  }

  /** Slots that have a transaction which the entries take away, and empty ones they fill. */
  ghost function Lost(v: Env, m: Match, placed: seq<Option<Tx>>, entries: seq<Entry>): set<nat>
    requires |m.s| == |m.have| == |placed|
  {
    set j: nat | j < |placed| && placed[j].None? && m.s[j].Some? && !Settles(v, m, entries, j)
  }

  ghost function Won(v: Env, m: Match, placed: seq<Option<Tx>>, entries: seq<Entry>): set<nat>
    requires |m.s| == |m.have| == |placed|
  {
    set j: nat | j < |placed| && placed[j].None? && m.s[j].None? && Settles(v, m, entries, j)
  }

  ghost function Differ(s: seq<Option<Tx>>, t: seq<Option<Tx>>): set<nat> {
    set j: nat | j < |s| && j < |t| && s[j].Some? && t[j].None?
  }

  lemma {:induction false} FreeDiffers(s: seq<Option<Tx>>, t: seq<Option<Tx>>)
    requires |s| == |t|
    ensures Free(t) - Free(s) == |Differ(s, t)| - |Differ(t, s)|
  {
    if s == [] {
      assert Differ(s, t) == {} && Differ(t, s) == {};
    } else {
      var n := |s| - 1;
      FreeDiffers(s[..n], t[..n]);
      DifferNext(s, t);
      DifferNext(t, s);
    }
  }

  lemma DifferNext(s: seq<Option<Tx>>, t: seq<Option<Tx>>)
    requires |s| == |t| > 0
    ensures var n := |s| - 1;
      |Differ(s, t)| == |Differ(s[..n], t[..n])| + if s[n].Some? && t[n].None? then 1 else 0
  {
    var n := |s| - 1;
    var d := Differ(s[..n], t[..n]);
    assert n !in d;
    assert Differ(s, t) == if s[n].Some? && t[n].None? then d + {n} else d;
  }

  /** Every free slot ends up with a transaction. */
  ghost predicate Complete(v: Env, m: Match, placed: seq<Option<Tx>>, entries: seq<Entry>)
    requires |m.s| == |m.have| == |placed|
  {
    forall j: nat :: j < |placed| && placed[j].None? ==> Settles(v, m, entries, j)
  }

  lemma FreeZero(s: seq<Option<Tx>>)
    ensures Free(s) == 0 <==> forall j :: 0 <= j < |s| ==> s[j].Some?
  {
    assert s[..|s|] == s;
    FreeMono(s, 0, |s|);
    if j :| 0 <= j < |s| && s[j].None? { SlotNumber(s, j); }
  }

  lemma FoldCounts(v: Env, all: seq<Entry>, placed: seq<Option<Tx>>, m: Match, entries: seq<Entry>)
    requires FreeSlots(v.slots, placed) && MatchOk(v, all, placed, m) && v.fromExtra && forall e :: e in entries ==> e in all
    ensures Fold(v, m, entries).extra - m.extra == |Won(v, m, placed, entries)| - |Lost(v, m, placed, entries)|
    ensures Fold(v, m, entries).mempool == Free(placed) <==> Complete(v, m, placed, entries)
  {
    hide Free, Settles, Fold, FreeSlots;
    var n := Fold(v, m, entries);
    FoldKeeps(v, all, placed, m, entries);
    FoldExtra(v, m, entries);
    forall j: nat | j < |placed| && placed[j].None? ensures n.s[j].Some? <==> Settles(v, m, entries, j) {
      FoldSettles(v, m, entries, j);
    }
    assert Differ(m.s, n.s) == Lost(v, m, placed, entries);
    assert Differ(n.s, m.s) == Won(v, m, placed, entries);
    FreeDiffers(m.s, n.s);
    FreeZero(n.s);
  }

  /**
   * No beginning of the extra list completes the block, and the whole list
   * takes more transactions away than it brings.
   */
  ghost predicate TakesMore(v: Env, m: Match, placed: seq<Option<Tx>>, entries: seq<Entry>)
    requires |m.s| == |m.have| == |placed|
  {
    && (forall k :: 0 < k <= |entries| ==> !Complete(v, m, placed, entries[..k]))
    && |Lost(v, m, placed, entries)| > |Won(v, m, placed, entries)|
  }

  /**
   * extra_count ends below zero if and only if the list takes more than it
   * brings, which can be read off the pool's matches and the list before the
   * scan.  In particular it stays non-negative when no extra transaction
   * contradicts a match of the pool.
   */
  lemma ExtraNegativeIff(v: Env, all: seq<Entry>, placed: seq<Option<Tx>>, m: Match, entries: seq<Entry>)
    requires FreeSlots(v.slots, placed) && |v.slots| == Free(placed) && MatchOk(v, all, placed, m)
    requires v.fromExtra && m.extra == 0 && forall e :: e in entries ==> e in all
    ensures Scan(v, m, entries).extra < 0 <==> TakesMore(v, m, placed, entries)
    ensures Lost(v, m, placed, entries) == {} ==> Scan(v, m, entries).extra >= 0
    ensures Scan(v, m, entries).extra < 0 <==> Free(Scan(v, m, entries).s) > Free(m.s)
  {
    hide Complete, Lost, Won, Scan, Free, FreeSlots, Fold;
    var k := ScanStops(v, m, entries);
    assert entries[..|entries|] == entries;
    forall i | 0 <= i <= |entries|
      ensures Fold(v, m, entries[..i]).extra == |Won(v, m, placed, entries[..i])| - |Lost(v, m, placed, entries[..i])|
      ensures Fold(v, m, entries[..i]).mempool == Free(placed) <==> Complete(v, m, placed, entries[..i])
      ensures Fold(v, m, entries[..i]).extra == Fold(v, m, entries[..i]).mempool - m.mempool
    {
      FoldCounts(v, all, placed, m, entries[..i]);
      FoldExtra(v, m, entries[..i]);
    }
    FoldKeeps(v, all, placed, m, entries[..k]);
  }

  /** The same in a scan after the pool's, on a slot the pool had matched. */
  lemma ExtraCountDropsBelowZero()
    ensures var slots: map<nat, nat> := map[7 := 1];
      var m := Match([Some(100), None], [false, false], 0, 0);
      var pool := Scan(Env(_ => 7, t => t, slots, false), m, [Entry(1, 5)]);
      Scan(Env(_ => 7, t => t, slots, true), pool, [Entry(2, 6)]).extra == -1
  {
  }

  class PartiallyDownloadedBlock {
    var headerNull: bool
    var available: seq<Option<Tx>>
    var prefilledCount: nat
    var mempoolCount: int
    var extraCount: int

    constructor ()
      ensures headerNull && available == [] && mempoolCount == 0 && extraCount == 0
    {
      headerNull, available, prefilledCount, mempoolCount, extraCount := true, [], 0, 0, 0;
    }

    method PlacePrefilled(c: Compact) returns (ok: bool)
      requires available == Empty(Count(c))
      modifies this`available
      ensures ok <==> Acceptable(c)
      ensures ok ==> Placed(c, available, |c.prefilled|)
    {
      hide Position, Free, Placed;
      var last := -1;
      PlaceNone(c);
      PositionAt(c.prefilled, -1);
      for i := 0 to |c.prefilled|
        invariant last == Position(c.prefilled, i - 1) && Placed(c, available, i) && |available| == Count(c)
        invariant forall k :: 0 <= k < i ==> AcceptableAt(c, k)
      {
        PositionAt(c.prefilled, i);
        PositionsIncrease(c.prefilled, -1, i);
        ghost var fine := AcceptableAt(c, i);
        if c.prefilled[i].isNull { return false; }
        last := last + c.prefilled[i].index + 1;
        if last > 0xFFFF { return false; }
        if last > |c.shortIds| + i { return false; }
        PlaceNext(c, available, i);
        available := available[last := Some(c.prefilled[i].tx)];
      }
      return true;
    }

    /** Give each short id the next free slot; the search never runs off the end. */
    method AssignSlots(c: Compact, bucketTooFull: nat -> bool) returns (ok: bool, slots: map<nat, nat>)
      requires Placed(c, available, |c.prefilled|) && Received(c)
      ensures ok ==> Slotted(c, available, slots) && |slots| == Free(available)
      ensures ok <==> (forall i :: 0 <= i < |c.shortIds| ==> !bucketTooFull(i)) && Distinct(c.shortIds)
    {
      hide Position, Free, Placed, Distinct, Assigned, Slotted;
      slots := map[];
      var offset := 0;
      PlacedFree(c, available);
      AssignedNone(c.shortIds, available);
      for i := 0 to |c.shortIds|
        invariant i + offset <= |available| == Count(c) && Free(available[..i + offset]) == i
        invariant Assigned(c.shortIds, available, slots, i)
        invariant forall k :: 0 <= k < i ==> !bucketTooFull(k)
      {
        SlotAhead(available, i + offset, i);
        while available[i + offset].Some?
          invariant i + offset < |available| && Free(available[..i + offset]) == i
          decreases |available| - offset
        {
          FreeNext(available, i + offset);
          offset := offset + 1;
          SlotAhead(available, i + offset, i);
        }
        assert i + offset <= 0xFFFF;
        AssignedNext(c.shortIds, available, slots, i, i + offset);
        slots := slots[c.shortIds[i] := i + offset];
        FreeNext(available, i + offset);
        if bucketTooFull(i) { return false, slots; }
      }
      AssignedAll(c, available, slots);
      if |slots| != |c.shortIds| { return false, slots; }
      return true, slots;
    }

    /** One scan over the pool or over the extra transactions. */
    method ScanEntries(v: Env, have: seq<bool>, entries: seq<Entry>) returns (have': seq<bool>)
      modifies this`available, this`mempoolCount, this`extraCount
      ensures Match(available, have', mempoolCount, extraCount) == Scan(v, Match(old(available), have, old(mempoolCount), old(extraCount)), entries)
    {
      have' := have;
      ghost var goal := Scan(v, Match(available, have, mempoolCount, extraCount), entries);
      for i := 0 to |entries|
        invariant Scan(v, Match(available, have', mempoolCount, extraCount), entries[i..]) == goal
      {
        ghost var m := Match(available, have', mempoolCount, extraCount);
        assert entries[i..][0] == entries[i] && entries[i..][1..] == entries[i + 1..];
        var id := v.sid(entries[i].hash);
        if id in v.slots && v.slots[id] < |available| && v.slots[id] < |have'| {
          var j := v.slots[id];
          if !have'[j] {
            available := available[j := Some(entries[i].tx)];
            have' := have'[j := true];
            mempoolCount := mempoolCount + 1;
            if v.fromExtra { extraCount := extraCount + 1; }
          } else if available[j].Some? && (!v.fromExtra || v.wtxid(available[j].value) != v.wtxid(entries[i].tx)) {
            available := available[j := None];
            mempoolCount := mempoolCount - 1;
            if v.fromExtra { extraCount := extraCount - 1; }
          }
        }
        assert Match(available, have', mempoolCount, extraCount) == Step(v, m, entries[i]);
        if mempoolCount == |v.slots| { return; }
      }
    }

    /**
     * On success every available transaction is prefilled or came from an
     * entry with its slot's short id, and the counter of filled slots is exact.
     */
    method InitData(c: Compact, maxTx: nat, sid: ShortId, wtxid: Tx -> Hash, pool: seq<Entry>, extra: seq<Entry>, bucketTooFull: nat -> bool)
      returns (st: Status, ghost placed: seq<Option<Tx>>, ghost slots: map<nat, nat>)
      requires Received(c) && headerNull && available == [] && mempoolCount == 0 && extraCount == 0
      modifies this
      ensures st == Invalid <==> c.headerNull || Count(c) == 0 || Count(c) > maxTx || !Acceptable(c)
      ensures st == Failed <==> st != Invalid && (!Distinct(c.shortIds) || exists i :: 0 <= i < |c.shortIds| && bucketTooFull(i))
      ensures st in {Ok, Invalid, Failed}
      ensures st == Ok ==> !headerNull && Distinct(c.shortIds) && Placed(c, placed, |c.prefilled|) && Slotted(c, placed, slots)
      ensures st == Ok ==> Sourced(sid, slots, pool + extra, placed, available) && mempoolCount == Free(placed) - Free(available)
      ensures st == Ok ==> var m := Scan(Env(sid, wtxid, slots, false), Start(placed), pool);
        && available == Scan(Env(sid, wtxid, slots, true), m, extra).s && |m.s| == |m.have| == |placed|
        && (extraCount < 0 <==> TakesMore(Env(sid, wtxid, slots, true), m, placed, extra))
    {
      hide Placed, Slotted, MatchOk, Acceptable, Distinct, Free, TakesMore;
      placed, slots := [], map[];
      if c.headerNull || (|c.shortIds| == 0 && |c.prefilled| == 0) { return Invalid, placed, slots; }
      if Count(c) > maxTx { return Invalid, placed, slots; }
      headerNull := false;
      available := Empty(Count(c));
      var ok := PlacePrefilled(c);
      if !ok { return Invalid, placed, slots; }
      prefilledCount := |c.prefilled|;
      placed := available;
      var table;
      ok, table := AssignSlots(c, bucketTooFull);
      slots := table;
      if !ok { return Failed, placed, slots; }
      ghost var v, w := Env(sid, wtxid, table, false), Env(sid, wtxid, table, true);
      ghost var all := pool + extra;
      SlottedFree(c, placed, slots);
      MatchStart(v, all, placed);
      var have := seq(|available|, _ => false);
      ghost var start := Start(placed);
      ScanKeeps(v, all, placed, start, pool);
      SameEnv(v, w, all, placed, Scan(v, start, pool));
      ScanKeeps(w, all, placed, Scan(v, start, pool), extra);
      ScanNoExtra(v, start, pool);
      MatchParts(v, all, placed, Scan(v, start, pool));
      ExtraNegativeIff(w, all, placed, Scan(v, start, pool), extra);
      have := ScanEntries(Env(sid, wtxid, table, false), have, pool);
      have := ScanEntries(Env(sid, wtxid, table, true), have, extra);
      MatchParts(w, all, placed, Match(available, have, mempoolCount, extraCount));
      return Ok, placed, slots;
    }

    /** Fill the gaps in order; too few leave the object half emptied, too many end it. */
    method FillBlock(missing: seq<Tx>, verdict: Status) returns (st: Status, vtx: seq<Tx>)
      requires !headerNull
      modifies this
      ensures |missing| == Free(old(available)) ==> st == verdict && vtx == Filled(old(available), missing)
      ensures |missing| != Free(old(available)) ==> st == Invalid
      ensures |missing| >= Free(old(available)) ==> headerNull && available == []
      ensures |missing| < Free(old(available)) ==> !headerNull && exists k: nat :: IsSlot(old(available), k, |missing|) && MovedOut(old(available), available, k)
    {
      hide Free, FilledAt, IsSlot;
      vtx := [];
      var offset := 0;
      ghost var s := available;
      FillStart(s);
      for i := 0 to |available|
        invariant |vtx| == i <= |s| && MovedOut(s, available, i) && offset == Free(s[..i]) <= |missing| && !headerNull
        invariant forall j :: 0 <= j < i ==> vtx[j] == FilledAt(s, missing, j)
      {
        FreeNext(s, i);
        FillNext(s, missing, i);
        if available[i].None? {
          if |missing| <= offset {
            return Invalid, vtx;
          }
          vtx := vtx + [missing[offset]];
          offset := offset + 1;
        } else {
          vtx := vtx + [available[i].value];
          available := available[i := None];
        }
      }
      assert s[..|s|] == s;
      headerNull := true;
      available := [];
      if |missing| != offset { return Invalid, vtx; }
      assert vtx == Filled(s, missing);
      return verdict, vtx;
    }
  }

  /** The first k entries were moved out, the others are as before. */
  ghost predicate MovedOut(s: seq<Option<Tx>>, t: seq<Option<Tx>>, k: nat) {
    |t| == |s| && forall j :: 0 <= j < |s| ==> t[j] == if j < k then None else s[j]
  }

  lemma FillNext(s: seq<Option<Tx>>, missing: seq<Tx>, i: nat)
    requires i < |s|
    ensures s[i].Some? ==> FilledAt(s, missing, i) == s[i].value
    ensures s[i].None? && Free(s[..i]) < |missing| ==> FilledAt(s, missing, i) == missing[Free(s[..i])]
    ensures s[i].None? ==> IsSlot(s, i, Free(s[..i])) && Free(s[..i]) < Free(s)
  {
    if s[i].None? { SlotNumber(s, i); }
  }

  lemma FillStart(s: seq<Option<Tx>>)
    ensures Free(s[..0]) == 0
  {
  }

  /** The transaction at j: the available one, or the next missing one. */
  ghost function FilledAt(s: seq<Option<Tx>>, missing: seq<Tx>, j: nat): Tx
    requires j < |s|
  {
    if s[j].Some? then s[j].value else if Free(s[..j]) < |missing| then missing[Free(s[..j])] else 0
  }

  ghost function Filled(s: seq<Option<Tx>>, missing: seq<Tx>): (r: seq<Tx>)
    ensures |r| == |s|
  {
    seq(|s|, j requires 0 <= j < |s| => FilledAt(s, missing, j))
  }

  lemma SameEnv(v: Env, w: Env, all: seq<Entry>, placed: seq<Option<Tx>>, m: Match)
    requires MatchOk(v, all, placed, m) && w.sid == v.sid && w.slots == v.slots
    ensures MatchOk(w, all, placed, m)
  {
  }

  lemma MatchParts(v: Env, all: seq<Entry>, placed: seq<Option<Tx>>, m: Match)
    requires MatchOk(v, all, placed, m)
    ensures Sourced(v.sid, v.slots, all, placed, m.s) && m.mempool == Free(placed) - Free(m.s)
    ensures |m.have| == |m.s| == |placed|
  {
  }

  lemma {:induction false} ScanNoExtra(v: Env, m: Match, entries: seq<Entry>)
    requires !v.fromExtra
    ensures Scan(v, m, entries).extra == m.extra
    decreases |entries|
  {
    if entries != [] { ScanNoExtra(v, Step(v, m, entries[0]), entries[1..]); }
  }

  // ----- rebuilding a block --------------------------------------------------------------------------------

  /** The constructor of a compact block: the first transaction in full, the others by short id. */
  function CompactOf(vtx: seq<Tx>, sid: ShortId, hash: Tx -> Hash): Compact
    requires |vtx| > 0
  {
    Compact(false, seq(|vtx| - 1, i requires 0 <= i < |vtx| - 1 => sid(hash(vtx[i + 1]))), [Prefilled(0, vtx[0], false)])
  }

  /** Every entry whose short id is that of a block transaction after the first is that transaction. */
  ghost predicate Own(vtx: seq<Tx>, sid: ShortId, hash: Tx -> Hash, entries: seq<Entry>) {
    forall e, j :: e in entries && 0 < j < |vtx| && sid(e.hash) == sid(hash(vtx[j])) ==> e.tx == vtx[j]
  }

  ghost function MissingOf(s: seq<Option<Tx>>, vtx: seq<Tx>): (r: seq<Tx>)
    requires |s| == |vtx|
    ensures |r| == Free(s)
  {
    if s == [] then []
    else
      var n := |s| - 1;
      MissingOf(s[..n], vtx[..n]) + if s[n].None? then [vtx[n]] else []
  }

  lemma {:induction false} MissingAt(s: seq<Option<Tx>>, vtx: seq<Tx>, j: nat)
    requires |s| == |vtx| && j < |s| && s[j].None?
    ensures Free(s[..j]) < |MissingOf(s, vtx)| && MissingOf(s, vtx)[Free(s[..j])] == vtx[j]
    decreases |s|
  {
    var n := |s| - 1;
    if j < n {
      MissingAt(s[..n], vtx[..n], j);
      assert s[..n][..j] == s[..j];
    }
  }

  /** In the compact form of a block the free slots are all but the first. */
  lemma FreeAfterFirst(s: seq<Option<Tx>>, j: nat)
    requires 0 < j <= |s| && s[0].Some? && forall k :: 0 < k < |s| ==> s[k].None?
    ensures Free(s[..j]) == j - 1
    decreases j
  {
    FreeNext(s, j - 1);
    if j > 1 { FreeAfterFirst(s, j - 1); }
  }

  lemma CompactPlaced(vtx: seq<Tx>, sid: ShortId, hash: Tx -> Hash, placed: seq<Option<Tx>>)
    requires |vtx| > 0 && Placed(CompactOf(vtx, sid, hash), placed, 1)
    ensures |placed| == |vtx| && placed[0] == Some(vtx[0]) && forall k :: 0 < k < |placed| ==> placed[k].None?
  {
    var c := CompactOf(vtx, sid, hash);
    assert Position(c.prefilled, 0) == 0;
  }

  /** Whatever is available is the block's own. */
  lemma AvailableIsOwn(vtx: seq<Tx>, sid: ShortId, hash: Tx -> Hash, entries: seq<Entry>, placed: seq<Option<Tx>>, slots: map<nat, nat>, s: seq<Option<Tx>>)
    requires |vtx| > 0 && Own(vtx, sid, hash, entries)
    requires var c := CompactOf(vtx, sid, hash); Placed(c, placed, 1) && Slotted(c, placed, slots)
    requires Sourced(sid, slots, entries, placed, s)
    ensures |s| == |vtx| && forall j :: 0 <= j < |s| && s[j].Some? ==> s[j].value == vtx[j]
  {
    hide Placed, Free;
    var c := CompactOf(vtx, sid, hash);
    CompactPlaced(vtx, sid, hash, placed);
    forall j | 0 <= j < |s| && s[j].Some? ensures s[j].value == vtx[j] {
      if j > 0 {
        var e :| e in entries && e.tx == s[j].value && sid(e.hash) in slots && slots[sid(e.hash)] == j;
        var i :| 0 <= i < |c.shortIds| && c.shortIds[i] == sid(e.hash);
        assert IsSlot(placed, slots[c.shortIds[i]], i);
        FreeAfterFirst(placed, j);
      }
    }
  }

  lemma FilledIsBlock(s: seq<Option<Tx>>, vtx: seq<Tx>)
    requires |s| == |vtx| && forall j :: 0 <= j < |s| && s[j].Some? ==> s[j].value == vtx[j]
    ensures Filled(s, MissingOf(s, vtx)) == vtx
  {
    hide Free, MissingOf;
    forall j | 0 <= j < |s| ensures FilledAt(s, MissingOf(s, vtx), j) == vtx[j] {
      if s[j].None? { MissingAt(s, vtx, j); }
    }
  }

  /** Compact form, pool matching and the requested rest give the block back. */
  method Reconstruct(vtx: seq<Tx>, maxTx: nat, sid: ShortId, hash: Tx -> Hash, wtxid: Tx -> Hash,
                     pool: seq<Entry>, extra: seq<Entry>, bucketTooFull: nat -> bool) returns (st: Status, rebuilt: seq<Tx>)
    requires 0 < |vtx| <= 0xFFFF && |vtx| <= maxTx && Own(vtx, sid, hash, pool + extra)
    ensures st == Ok ==> rebuilt == vtx
    ensures st == Ok || st == Failed
    ensures st == Ok <==>
      (forall i, j :: 0 < i < j < |vtx| ==> sid(hash(vtx[i])) != sid(hash(vtx[j]))) && (forall i :: 0 <= i < |vtx| - 1 ==> !bucketTooFull(i))
  {
    hide Placed, Slotted, Sourced, Free, Own, Filled, MissingOf;
    var c := CompactOf(vtx, sid, hash);
    CompactAccepted(vtx, sid, hash);
    var p := new PartiallyDownloadedBlock();
    ghost var placed, slots;
    st, placed, slots := p.InitData(c, maxTx, sid, wtxid, pool, extra, bucketTooFull);
    rebuilt := [];
    if st == Ok {
      AvailableIsOwn(vtx, sid, hash, pool + extra, placed, slots, p.available);
      var missing := Missing(p.available, vtx);
      FilledIsBlock(p.available, vtx);
      st, rebuilt := p.FillBlock(missing, Ok);
    }
  }

  method Missing(s: seq<Option<Tx>>, vtx: seq<Tx>) returns (r: seq<Tx>)
    requires |s| == |vtx|
    ensures r == MissingOf(s, vtx)
  {
    r := [];
    for i := 0 to |s|
      invariant r == MissingOf(s[..i], vtx[..i])
    {
      assert s[..i + 1][..i] == s[..i] && vtx[..i + 1][..i] == vtx[..i];
      if s[i].None? { r := r + [vtx[i]]; }
    }
    assert s[..|s|] == s && vtx[..|vtx|] == vtx;
  }

  lemma CompactAccepted(vtx: seq<Tx>, sid: ShortId, hash: Tx -> Hash)
    requires 0 < |vtx| <= 0xFFFF
    ensures var c := CompactOf(vtx, sid, hash);
      && Received(c) && Acceptable(c) && Count(c) == |vtx|
      && (Distinct(c.shortIds) <==> forall i, j :: 0 < i < j < |vtx| ==> sid(hash(vtx[i])) != sid(hash(vtx[j])))
  {
    var c := CompactOf(vtx, sid, hash);
    assert Position(c.prefilled, 0) == 0;
    if Distinct(c.shortIds) {
      forall i, j | 0 < i < j < |vtx| ensures sid(hash(vtx[i])) != sid(hash(vtx[j])) {
        assert c.shortIds[i - 1] != c.shortIds[j - 1];
      }
    }
  }

  /** The last of equal short ids has its slot. */
  ghost predicate Assigned(ids: seq<nat>, s: seq<Option<Tx>>, slots: map<nat, nat>, i: nat)
    requires i <= |ids|
  {
    && slots.Keys == IdSet(ids[..i])
    && forall k :: 0 <= k < i ==> ids[k] in slots && (IsSlot(s, slots[ids[k]], k) || exists m :: k < m < i && ids[m] == ids[k])
  }

  lemma AssignedNone(ids: seq<nat>, s: seq<Option<Tx>>)
    ensures Assigned(ids, s, map[], 0) && Free(s[..0]) == 0
  {
  }

  lemma AssignedNext(ids: seq<nat>, s: seq<Option<Tx>>, slots: map<nat, nat>, i: nat, j: nat)
    requires i < |ids| && Assigned(ids, s, slots, i) && j < |s| && s[j].None? && Free(s[..j]) == i
    ensures Assigned(ids, s, slots[ids[i] := j], i + 1)
  {
    hide Free;
    IdSetNext(ids, i);
    var t := slots[ids[i] := j];
    forall k | 0 <= k < i + 1 ensures ids[k] in t && (IsSlot(s, t[ids[k]], k) || exists m :: k < m < i + 1 && ids[m] == ids[k]) {
      if k < i && ids[k] == ids[i] { assert k < i < i + 1; }
    }
  }

  lemma AssignedAll(c: Compact, s: seq<Option<Tx>>, slots: map<nat, nat>)
    requires Assigned(c.shortIds, s, slots, |c.shortIds|)
    ensures |slots| == |c.shortIds| <==> Distinct(c.shortIds)
    ensures Distinct(c.shortIds) ==> Slotted(c, s, slots)
  {
    hide IsSlot;
    assert c.shortIds[..|c.shortIds|] == c.shortIds;
    DistinctCount(c.shortIds, |c.shortIds|);
    assert |slots| == |slots.Keys|;
  }

  lemma PositionAt(p: seq<Prefilled>, i: int)
    requires -1 <= i < |p|
    ensures Position(p, i) == if i < 0 then -1 else Position(p, i - 1) + p[i].index + 1
  {
  }

  lemma PlacedFree(c: Compact, s: seq<Option<Tx>>)
    requires Placed(c, s, |c.prefilled|)
    ensures |s| == Count(c) && Free(s) == |c.shortIds|
  {
  }

  /** With free slots left over there is one at or after k. */
  lemma SlotAhead(s: seq<Option<Tx>>, k: nat, i: nat)
    requires k <= |s| && Free(s[..k]) == i && i < Free(s)
    ensures k < |s|
  {
    assert s[..|s|] == s;
  }

  // ----- indexes on the wire --------------------------------------------------------------------------------

  ghost predicate Increasing(s: seq<nat>) {
    (forall i, j :: 0 <= i < j < |s| ==> s[i] < s[j]) && forall i :: 0 <= i < |s| ==> s[i] <= 0xFFFF
  }

  /** The lowest value index i can have. */
  function Base(indexes: seq<nat>, i: nat): nat
    requires i <= |indexes|
  {
    if i == 0 then 0 else indexes[i - 1] + 1
  }

  /** The gap before each index. */
  ghost predicate Gaps(indexes: seq<nat>, wire: seq<nat>) {
    |wire| == |indexes| && forall i {:trigger wire[i]} :: 0 <= i < |wire| ==> indexes[i] == wire[i] + Base(indexes, i)
  }

  const TWO_TO_64: int := 0x1_0000_0000_0000_0000

  /**
   * The gaps as unsigned 64-bit numbers.  Indexes that do not increase give a
   * gap that wraps around, so they are exactly the lists no reader restores.
   */
  method WriteIndexes(indexes: seq<nat>) returns (wire: seq<nat>)
    requires forall i :: 0 <= i < |indexes| ==> indexes[i] <= 0xFFFF
    ensures |wire| == |indexes| && forall i {:trigger wire[i]} :: 0 <= i < |wire| ==> wire[i] == (indexes[i] - Base(indexes, i)) % TWO_TO_64
    ensures Increasing(indexes) <==> Gaps(indexes, wire)
    ensures Increasing(indexes) <==> forall i :: 0 <= i < |wire| ==> wire[i] <= 0xFFFF
  {
    wire := [];
    for i := 0 to |indexes|
      invariant |wire| == i && forall j {:trigger wire[j]} :: 0 <= j < i ==> wire[j] == (indexes[j] - Base(indexes, j)) % TWO_TO_64
    {
      wire := wire + [(indexes[i] - Base(indexes, i)) % TWO_TO_64];
    }
    forall i {:trigger wire[i]} | 0 <= i < |wire|
      ensures wire[i] == if indexes[i] >= Base(indexes, i) then indexes[i] - Base(indexes, i) else TWO_TO_64 + indexes[i] - Base(indexes, i)
    {
      Wraps(indexes[i] - Base(indexes, i));
    }
    IncreasingSteps(indexes);
    if forall i {:trigger wire[i]} :: 0 <= i < |wire| ==> wire[i] <= 0xFFFF {
      forall i | 0 <= i < |indexes| ensures Base(indexes, i) <= indexes[i] { assert wire[i] <= 0xFFFF; }
    }
  }

  lemma Wraps(x: int)
    requires -TWO_TO_64 <= x < TWO_TO_64
    ensures x % TWO_TO_64 == if x >= 0 then x else TWO_TO_64 + x
  {
  }

  lemma IncreasingSteps(s: seq<nat>)
    requires forall i :: 0 <= i < |s| ==> s[i] <= 0xFFFF
    ensures Increasing(s) <==> forall i {:trigger Base(s, i)} :: 0 <= i < |s| ==> Base(s, i) <= s[i]
  {
    if forall i {:trigger Base(s, i)} :: 0 <= i < |s| ==> Base(s, i) <= s[i] {
      forall i, j | 0 <= i < j < |s| ensures s[i] < s[j] { IncreasingFrom(s, i, j); }
    }
  }

  lemma {:induction false} IncreasingFrom(s: seq<nat>, i: nat, j: nat)
    requires i < j < |s| && forall k {:trigger Base(s, k)} :: 0 <= k < |s| ==> Base(s, k) <= s[k]
    ensures s[i] < s[j]
    decreases j
  {
    assert Base(s, j) <= s[j];
    if i < j - 1 { IncreasingFrom(s, i, j - 1); }
  }

  /** Rewrites the gaps in place; fails exactly when some gap or index does not fit 16 bits. */
  method ReadIndexes(wire: seq<nat>) returns (ok: bool, indexes: seq<nat>)
    ensures ok ==> Increasing(indexes) && Gaps(indexes, wire)
    ensures forall x :: Increasing(x) && Gaps(x, wire) ==> ok && indexes == x
  {
    forall x | Increasing(x) && Gaps(x, wire) ensures forall i :: 0 <= i < |wire| ==> wire[i] <= 0xFFFF {
      assert forall i {:trigger wire[i]} :: 0 <= i < |wire| ==> x[i] == wire[i] + Base(x, i);
    }
    indexes := [];
    for i := 0 to |wire|
      invariant indexes == wire[..i] && forall j :: 0 <= j < i ==> wire[j] <= 0xFFFF
    {
      if wire[i] > 0xFFFF { return false, indexes; }
      indexes := indexes + [wire[i]];
    }
    var offset := 0;
    for j := 0 to |indexes|
      invariant |indexes| == |wire| && offset == Base(indexes, j)
      invariant indexes[j..] == wire[j..]
      invariant Gaps(indexes[..j], wire[..j]) && Increasing(indexes[..j])
    {
      assert indexes[j] == indexes[j..][0] == wire[j];
      GapsUnique(wire, indexes[..j], j);
      if indexes[j] + offset > 0xFFFF { return false, indexes; }
      ghost var done := indexes[..j];
      indexes := indexes[j := indexes[j] + offset];
      offset := indexes[j] + 1;
      assert indexes[..j + 1] == done + [indexes[j]] && wire[..j + 1] == wire[..j] + [wire[j]];
      GapsNext(done, wire[..j], indexes[j], wire[j]);
    }
    assert indexes[..|wire|] == indexes && wire[..|wire|] == wire;
    GapsUnique(wire, indexes, |wire|);
    return true, indexes;
  }

  lemma GapsNext(done: seq<nat>, wire: seq<nat>, x: nat, w: nat)
    requires Gaps(done, wire) && Increasing(done) && x <= 0xFFFF && x == w + Base(done, |done|)
    ensures Gaps(done + [x], wire + [w]) && Increasing(done + [x])
  {
    var all := done + [x];
    forall i | 0 <= i < |all| ensures Base(all, i) == Base(done, i) { }
    forall i | 0 <= i < |done| ensures done[i] < x { }
  }

  /** What was read so far is the beginning of any list with these gaps. */
  lemma GapsUnique(wire: seq<nat>, done: seq<nat>, n: nat)
    requires n <= |wire| && Gaps(done, wire[..n])
    ensures forall x :: Gaps(x, wire) ==> x[..n] == done
  {
    forall x | Gaps(x, wire) ensures x[..n] == done { GapsSame(wire, done, x, n); }
  }

  lemma {:induction false} GapsSame(wire: seq<nat>, done: seq<nat>, x: seq<nat>, n: nat)
    requires n <= |wire| && Gaps(done, wire[..n]) && Gaps(x, wire)
    ensures x[..n] == done
    decreases n
  {
    if n > 0 {
      var m := n - 1;
      assert wire[..m] == wire[..n][..m];
      assert forall i :: 0 <= i <= m ==> Base(done[..m], i) == Base(done, i);
      GapsSame(wire, done[..m], x, m);
      assert wire[..n][m] == wire[m];
      assert Base(x, m) == Base(x[..m], m) == Base(done, m);
      assert x[..n] == x[..m] + [x[m]] && done == done[..m] + [done[m]];
    }
  }
}
