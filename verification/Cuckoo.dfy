/**
 * The cuckoo cache of src/cuckoocache.h.  An entry is live while its collection
 * flag is unset.  Elements are numbers and the eight hashes an arbitrary function.
 */
module Cuckoo {
  import opened Bits

  type Element = nat
  type Word = x: nat | x < 0x1_0000_0000
  type Hash = (nat, Element) -> Word

  const INVALID: nat := 0xFFFF_FFFF

  /** The largest size whose flags are allocated. */
  const LARGEST: nat := 0xFFFF_FFF8

  // ----- the table as a value ---------------------------------------------------------------

  datatype Table = Table(elems: seq<Element>, dead: seq<bool>, recent: seq<bool>)

  ghost predicate Shape(t: Table) {
    |t.elems| == |t.dead| == |t.recent| > 0
  }

  /** A 32-bit hash as a fixed-point fraction of the table size. */
  function Loc(h: Word, size: nat): (r: nat)
    requires size > 0
    ensures r < size
  {
    LocBelow(h, size);
    h * size / 0x1_0000_0000
  }

  lemma LocBelow(h: Word, size: nat)
    requires size > 0
    ensures 0 <= h * size / 0x1_0000_0000 < size
  {
    assert h * size <= 0xFFFF_FFFF * size;
  }

  /** The location is the integer part of the hash's share of the size. */
  lemma LocIs(h: Word, size: nat, r: nat)
    requires size > 0
    ensures r == Loc(h, size) <==> r * 0x1_0000_0000 <= h * size < (r + 1) * 0x1_0000_0000
  {
  }

  function Locs(hash: Hash, size: nat, e: Element): (r: seq<nat>)
    requires size > 0
    ensures |r| == 8 && forall k :: 0 <= k < 8 ==> r[k] < size
  {
    [Loc(hash(0, e), size), Loc(hash(1, e), size), Loc(hash(2, e), size), Loc(hash(3, e), size),
     Loc(hash(4, e), size), Loc(hash(5, e), size), Loc(hash(6, e), size), Loc(hash(7, e), size)]
  }

  ghost function Live(t: Table): set<Element>
    requires Shape(t)
  {
    set i | 0 <= i < |t.elems| && !t.dead[i] :: t.elems[i]
  }

  /** Slot i is the k-th of its element's locations and no earlier one shows the same element. */
  ghost predicate FoundAt(hash: Hash, t: Table, i: nat, k: nat)
    requires Shape(t) && i < |t.elems| && k < 8
  {
    var locs := Locs(hash, |t.elems|, t.elems[i]);
    locs[k] == i && forall j :: 0 <= j < k ==> t.elems[locs[j]] != t.elems[i]
  }

  /** Every live entry is the one a lookup of its element stops at. */
  ghost predicate Findable(hash: Hash, t: Table)
    requires Shape(t)
  {
    forall i :: 0 <= i < |t.elems| && !t.dead[i] ==> exists k :: 0 <= k < 8 && FoundAt(hash, t, i, k)
  }

  /** A live element shows in one of its own eight slots, and in one live slot only. */
  lemma LiveOnce(hash: Hash, t: Table, i: nat, j: nat)
    requires Shape(t) && Findable(hash, t) && i < |t.elems| && j < |t.elems|
    requires !t.dead[i] && !t.dead[j] && t.elems[i] == t.elems[j]
    ensures i == j && i in Locs(hash, |t.elems|, t.elems[i])
  {
    var k :| 0 <= k < 8 && FoundAt(hash, t, i, k);
    var m :| 0 <= m < 8 && FoundAt(hash, t, j, m);
  }

  /** Overwriting slot i with an element that is not live and not shown at an earlier location. */
  ghost predicate Fits(hash: Hash, t: Table, e: Element, k: nat)
    requires Shape(t) && k < 8
  {
    && e !in Live(t)
    && forall j :: 0 <= j < k ==> t.elems[Locs(hash, |t.elems|, e)[j]] != e
  }

  function Put(t: Table, i: nat, e: Element, recent: bool): (r: Table)
    requires |t.elems| == |t.dead| == |t.recent| && i < |t.elems|
  {
    Table(t.elems[i := e], t.dead[i := false], t.recent[i := recent])
  }

  lemma PutFindable(hash: Hash, t: Table, k: nat, e: Element, recent: bool)
    requires Shape(t) && Findable(hash, t) && k < 8 && Fits(hash, t, e, k)
    ensures Findable(hash, Put(t, Locs(hash, |t.elems|, e)[k], e, recent))
  {
    var locs := Locs(hash, |t.elems|, e);
    var least := First(locs, locs[k]);
    var i := locs[k];
    var r := Put(t, i, e, recent);
    forall s | 0 <= s < |r.elems| && !r.dead[s] ensures exists m :: 0 <= m < 8 && FoundAt(hash, r, s, m) {
      if s == i {
        assert least <= k;
        assert FoundAt(hash, r, i, least);
      } else {
        assert !t.dead[s] && t.elems[s] in Live(t);
        var m :| 0 <= m < 8 && FoundAt(hash, t, s, m);
        assert FoundAt(hash, r, s, m);
      }
    }
  }

  /** Position of the first location equal to the given slot, or the end. */
  function First(locs: seq<nat>, i: nat): (k: nat)
    ensures k <= |locs| && (k < |locs| ==> locs[k] == i) && forall j :: 0 <= j < k ==> locs[j] != i
  {
    if locs == [] || locs[0] == i then 0 else 1 + First(locs[1..], i)
  }

  /** The location to evict next: the one after the last, cyclically. */
  function Victim(locs: seq<nat>, last: nat): (k: nat)
    requires |locs| == 8
    ensures k < 8
  {
    (1 + First(locs, last)) % 8
  }

  /** With no last location the search ends at 8, so the first victim is the second location, not the first. */
  lemma FirstVictim(hash: Hash, size: nat, e: Element)
    requires 0 < size <= INVALID
    ensures Victim(Locs(hash, size, e), INVALID) == 1
  {
    var locs := Locs(hash, size, e);
    assert First(locs, INVALID) == 8;
  }

  // ----- counting ------------------------------------------------------------------------------

  ghost function Num(s: seq<bool>): (r: nat) {
    if s == [] then 0 else Num(s[..|s| - 1]) + if s[|s| - 1] then 1 else 0
  }

  lemma {:induction false} NumUpdate(s: seq<bool>, i: nat, b: bool)
    requires i < |s|
    ensures Num(s[i := b]) == Num(s) - (if s[i] then 1 else 0) + (if b then 1 else 0)
  {
    var last := |s| - 1;
    if i == last {
      assert s[i := b][..last] == s[..last];
    } else {
      assert s[i := b][..last] == s[..last][i := b];
      NumUpdate(s[..last], i, b);
    }
  }

  lemma NumPrefix(s: seq<bool>, i: nat)
    requires i < |s|
    ensures Num(s[..0]) == 0 && Num(s[..i + 1]) == Num(s[..i]) + if s[i] then 1 else 0
  {
    assert s[..i + 1][..i] == s[..i];
  }

  lemma {:induction false} NumMono(a: seq<bool>, b: seq<bool>)
    requires |a| == |b| && forall i :: 0 <= i < |a| ==> a[i] ==> b[i]
    ensures Num(a) <= Num(b)
  {
    if a != [] { NumMono(a[..|a| - 1], b[..|a| - 1]); }
  }

  lemma {:induction false} NumNone(a: seq<bool>)
    requires forall i :: 0 <= i < |a| ==> !a[i]
    ensures Num(a) == 0
  {
    if a != [] { NumNone(a[..|a| - 1]); }
  }

  /** Live entries of the current epoch, and of the old one. */
  ghost function Current(t: Table): (r: seq<bool>)
    requires Shape(t)
  {
    seq(|t.elems|, i requires 0 <= i < |t.elems| => !t.dead[i] && t.recent[i])
  }

  ghost function Aging(t: Table): (r: seq<bool>)
    requires Shape(t)
  {
    seq(|t.elems|, i requires 0 <= i < |t.elems| => !t.dead[i] && !t.recent[i])
  }

  lemma PutCounts(t: Table, i: nat, e: Element, recent: bool)
    requires Shape(t) && i < |t.elems|
    ensures Num(Current(Put(t, i, e, recent))) == Num(Current(t)) - (if Current(t)[i] then 1 else 0) + (if recent then 1 else 0)
    ensures Num(Aging(Put(t, i, e, recent))) == Num(Aging(t)) - (if Aging(t)[i] then 1 else 0) + (if recent then 0 else 1)
  {
    assert Current(Put(t, i, e, recent)) == Current(t)[i := recent];
    assert Aging(Put(t, i, e, recent)) == Aging(t)[i := !recent];
    NumUpdate(Current(t), i, recent);
    NumUpdate(Aging(t), i, !recent);
  }

  /** The most live entries an epoch can ever reach. */
  function Bound(epochSize: nat): nat {
    epochSize + if epochSize / 16 > 1 then epochSize / 16 else 1
  }

  /** slack is what the caller may still add before the next epoch check. */
  ghost predicate Bounded(t: Table, counter: nat, epochSize: nat, slack: nat)
    requires Shape(t)
  {
    Num(Current(t)) + counter + slack <= Bound(epochSize) && Num(Aging(t)) <= Bound(epochSize)
  }

  /** A new epoch: the old one becomes discardable, the current one becomes old. */
  function Aged(t: Table): (r: Table)
    requires |t.elems| == |t.dead| == |t.recent|
  {
    Table(t.elems,
          seq(|t.elems|, i requires 0 <= i < |t.elems| => t.dead[i] || !t.recent[i]),
          seq(|t.elems|, _ => false))
  }

  lemma AgedCounts(t: Table)
    requires Shape(t)
    ensures Num(Current(Aged(t))) == 0 && Num(Aging(Aged(t))) == Num(Current(t))
  {
    NumNone(Current(Aged(t)));
    assert Aging(Aged(t)) == Current(t);
  }

  ghost function Checked(t: Table, counter: nat, epochSize: nat): (r: Table)
    requires Shape(t)
  {
    if counter == 0 && Num(Current(t)) >= epochSize then Aged(t) else t
  }

  lemma CheckedFindable(hash: Hash, t: Table, counter: nat, epochSize: nat)
    requires Shape(t) && Findable(hash, t)
    ensures Findable(hash, Checked(t, counter, epochSize)) && Live(Checked(t, counter, epochSize)) <= Live(t)
  {
    var r := Checked(t, counter, epochSize);
    forall i | 0 <= i < |r.elems| && !r.dead[i] ensures exists k :: 0 <= k < 8 && FoundAt(hash, r, i, k) {
      var k :| 0 <= k < 8 && FoundAt(hash, t, i, k);
      assert FoundAt(hash, r, i, k);
    }
  }

  /** Only a full current epoch, counted when the counter has run out, makes entries discardable: those of the old one. */
  lemma CheckedLive(t: Table, counter: nat, epochSize: nat)
    requires Shape(t)
    ensures var r := Checked(t, counter, epochSize);
      && Shape(r) && r.elems == t.elems
      && Live(r) == if counter == 0 && Num(Current(t)) >= epochSize
                    then set i | 0 <= i < |t.elems| && !t.dead[i] && t.recent[i] :: t.elems[i]
                    else Live(t)
  {
  }

  // ----- an insertion as a function of the table ------------------------------------------------

  /** Position of the first free location, or the end. */
  ghost function FirstDead(t: Table, locs: seq<nat>): (k: nat)
    requires Shape(t) && forall j :: 0 <= j < |locs| ==> locs[j] < |t.elems|
    ensures k <= |locs| && (k < |locs| ==> t.dead[locs[k]]) && forall j :: 0 <= j < k ==> !t.dead[locs[j]]
  {
    if locs == [] || t.dead[locs[0]] then 0 else 1 + FirstDead(t, locs[1..])
  }

  /** Position of the first location that shows the element, or the end. */
  ghost function FirstShown(t: Table, locs: seq<nat>, e: Element): (k: nat)
    requires Shape(t) && forall j :: 0 <= j < |locs| ==> locs[j] < |t.elems|
    ensures k <= |locs| && (k < |locs| ==> t.elems[locs[k]] == e) && forall j :: 0 <= j < k ==> t.elems[locs[j]] != e
  {
    if locs == [] || t.elems[locs[0]] == e then 0 else 1 + FirstShown(t, locs[1..], e)
  }

  /** At most depth displacements; what is in hand after the last is lost. */
  ghost function Kick(hash: Hash, t: Table, e: Element, recent: bool, last: nat, depth: nat): (Table, set<Element>)
    requires Shape(t)
    decreases depth
  {
    var locs := Locs(hash, |t.elems|, e);
    var k := FirstDead(t, locs);
    if depth == 0 then (t, {e})
    else if k < 8 then (Put(t, locs[k], e, recent), {})
    else
      var i := locs[Victim(locs, last)];
      Kick(hash, Put(t, i, e, recent), t.elems[i], t.recent[i], i, depth - 1)
  }

  ghost function Inserted(hash: Hash, t: Table, e: Element, depth: nat): (Table, set<Element>)
    requires Shape(t)
  {
    var locs := Locs(hash, |t.elems|, e);
    var k := FirstShown(t, locs, e);
    if k < 8 then (Put(t, locs[k], e, true), {}) else Kick(hash, t, e, true, INVALID, depth)
  }

  lemma KickStep(hash: Hash, t: Table, e: Element, recent: bool, last: nat, depth: nat, k: nat)
    requires Shape(t) && depth > 0 && k <= 8
    requires var locs := Locs(hash, |t.elems|, e);
      (k < 8 ==> t.dead[locs[k]]) && forall j :: 0 <= j < k ==> !t.dead[locs[j]]
    ensures var locs := Locs(hash, |t.elems|, e);
      var i := locs[Victim(locs, last)];
      Kick(hash, t, e, recent, last, depth) ==
        if k < 8 then (Put(t, locs[k], e, recent), {})
        else Kick(hash, Put(t, i, e, recent), t.elems[i], t.recent[i], i, depth - 1)
  {
    assert FirstDead(t, Locs(hash, |t.elems|, e)) == k;
  }

  lemma InsertedStep(hash: Hash, t: Table, e: Element, depth: nat, k: nat)
    requires Shape(t) && k <= 8
    requires var locs := Locs(hash, |t.elems|, e);
      (k < 8 ==> t.elems[locs[k]] == e) && forall j :: 0 <= j < k ==> t.elems[locs[j]] != e
    ensures Inserted(hash, t, e, depth) ==
      if k < 8 then (Put(t, Locs(hash, |t.elems|, e)[k], e, true), {}) else Kick(hash, t, e, true, INVALID, depth)
  {
    assert FirstShown(t, Locs(hash, |t.elems|, e), e) == k;
  }

  /** Garbage is collected only when the space is needed: at most one discardable entry is overwritten. */
  ghost predicate OneReused(t: Table, r: Table)
    requires Shape(t) && Shape(r) && |t.elems| == |r.elems|
  {
    forall i, j :: 0 <= i < |t.elems| && 0 <= j < |t.elems| && Reused(t, r, i) && Reused(t, r, j) ==> i == j
  }

  ghost predicate Reused(t: Table, r: Table, i: nat)
    requires Shape(t) && Shape(r) && |t.elems| == |r.elems| && i < |t.elems|
  {
    t.dead[i] && r.elems[i] != t.elems[i]
  }

  lemma {:induction false} KickReuses(hash: Hash, t: Table, e: Element, recent: bool, last: nat, depth: nat)
    requires Shape(t)
    ensures var r := Kick(hash, t, e, recent, last, depth).0;
      Shape(r) && |r.elems| == |t.elems| && OneReused(t, r)
    decreases depth
  {
    hide Locs, First, Victim;
    var locs := Locs(hash, |t.elems|, e);
    if depth > 0 && FirstDead(t, locs) == 8 {
      var i := locs[Victim(locs, last)];
      var u := Put(t, i, e, recent);
      KickReuses(hash, u, t.elems[i], t.recent[i], i, depth - 1);
      assert u.dead == t.dead;
      var r := Kick(hash, t, e, recent, last, depth).0;
      forall j | 0 <= j < |t.elems| && Reused(t, r, j) ensures Reused(u, r, j) { }
    }
  }

  /** An erased element is found until its own slot is overwritten, which an insertion does to one at most. */
  lemma InsertedReuses(hash: Hash, t: Table, e: Element, depth: nat)
    requires Shape(t)
    ensures var r := Inserted(hash, t, e, depth).0;
      && Shape(r) && |r.elems| == |t.elems| && OneReused(t, r)
      && forall i, k :: 0 <= i < |t.elems| && t.dead[i] && !Reused(t, r, i) && 0 <= k < 8 && Locs(hash, |t.elems|, t.elems[i])[k] == i ==>
           r.elems[Locs(hash, |r.elems|, t.elems[i])[k]] == t.elems[i]
  {
    hide Locs, Kick;
    KickReuses(hash, t, e, true, INVALID, depth);
  }

  // ----- when an insertion loses nothing -----------------------------------------------------------

  /** The element to be placed, and where it comes from. */
  datatype Hand = Hand(t: Table, e: Element, recent: bool, last: nat)

  ghost predicate Room(hash: Hash, dead: seq<bool>, e: Element)
    requires |dead| > 0
  {
    exists k :: 0 <= k < 8 && dead[Locs(hash, |dead|, e)[k]]
  }

  ghost function Swapped(hash: Hash, h: Hand): (r: Hand)
    requires Shape(h.t)
    ensures Shape(r.t) && |r.t.dead| == |h.t.dead|
  {
    var locs := Locs(hash, |h.t.elems|, h.e);
    var i := locs[Victim(locs, h.last)];
    Hand(Put(h.t, i, h.e, h.recent), h.t.elems[i], h.t.recent[i], i)
  }

  /** After n displacements. */
  ghost function After(hash: Hash, h: Hand, n: nat): (r: Hand)
    requires Shape(h.t)
    ensures Shape(r.t) && |r.t.dead| == |h.t.dead|
    decreases n
  {
    if n == 0 then h else After(hash, Swapped(hash, h), n - 1)
  }

  lemma RoomIff(hash: Hash, t: Table, e: Element)
    requires Shape(t)
    ensures Room(hash, t.dead, e) <==> FirstDead(t, Locs(hash, |t.elems|, e)) < 8
  {
  }

  /** Displacing leaves the flags alone while there is no room. */
  lemma SwappedFlags(hash: Hash, h: Hand)
    requires Shape(h.t) && !Room(hash, h.t.dead, h.e)
    ensures Swapped(hash, h).t.dead == h.t.dead
  {
    var locs := Locs(hash, |h.t.elems|, h.e);
    assert !h.t.dead[locs[Victim(locs, h.last)]];
  }

  /** One of the first depth elements in hand has a location that was discardable from the start. */
  ghost predicate RoomWithin(hash: Hash, h: Hand, depth: nat)
    requires Shape(h.t)
  {
    exists n: nat :: n < depth && Room(hash, h.t.dead, After(hash, h, n).e)
  }

  lemma RoomBelow(hash: Hash, h: Hand, depth: nat)
    requires Shape(h.t) && depth > 0 && !Room(hash, h.t.dead, h.e)
    ensures RoomWithin(hash, h, depth) <==> RoomWithin(hash, Swapped(hash, h), depth - 1)
  {
    hide Locs, First, Victim, Room, Swapped;
    var g := Swapped(hash, h);
    SwappedFlags(hash, h);
    if RoomWithin(hash, h, depth) {
      var n: nat :| n < depth && Room(hash, h.t.dead, After(hash, h, n).e);
      assert After(hash, h, 0) == h;
      var m: nat := n - 1;
      assert Room(hash, g.t.dead, After(hash, g, m).e);
    }
    if RoomWithin(hash, g, depth - 1) {
      var m: nat :| m < depth - 1 && Room(hash, g.t.dead, After(hash, g, m).e);
      var n: nat := m + 1;
      assert Room(hash, h.t.dead, After(hash, h, n).e);
    }
  }

  /**
   * Nothing is lost if and only if one of the first depth elements in hand has
   * a location that was discardable from the start; otherwise the next is lost.
   */
  lemma {:induction false} KickLosesNothingIff(hash: Hash, h: Hand, depth: nat)
    requires Shape(h.t)
    ensures var lost := Kick(hash, h.t, h.e, h.recent, h.last, depth).1;
      && (lost == {} <==> RoomWithin(hash, h, depth))
      && (lost == {} || lost == {After(hash, h, depth).e})
    decreases depth
  {
    hide Locs, First, Victim, Room;
    RoomIff(hash, h.t, h.e);
    assert After(hash, h, 0) == h;
    if depth == 0 {
    } else if Room(hash, h.t.dead, h.e) {
      assert Room(hash, h.t.dead, After(hash, h, 0).e);
    } else {
      var g := Swapped(hash, h);
      SwappedFlags(hash, h);
      KickLosesNothingIff(hash, g, depth - 1);
      RoomBelow(hash, h, depth);
    }
  }

  /** An insertion loses nothing if and only if the element is still shown, or there is room within the depth limit. */
  lemma InsertLosesNothingIff(hash: Hash, t: Table, e: Element, depth: nat)
    requires Shape(t)
    ensures Inserted(hash, t, e, depth).1 == {} <==>
      || (exists k :: 0 <= k < 8 && t.elems[Locs(hash, |t.elems|, e)[k]] == e)
      || RoomWithin(hash, Hand(t, e, true, INVALID), depth)
  {
    hide Locs, Kick, Room;
    KickLosesNothingIff(hash, Hand(t, e, true, INVALID), depth);
  }

  // ----- the element in hand during an insertion ------------------------------------------------

  /** Element e with its epoch is in hand; together with the table nothing was lost or gained. */
  ghost predicate Carrying(hash: Hash, t: Table, e: Element, recent: bool, t0: Table, e0: Element) {
    && Shape(t) && Shape(t0) && |t.elems| == |t0.elems| && Findable(hash, t) && e !in Live(t)
    && Live(t) + {e} == Live(t0) + {e0}
    && Num(Current(t)) + (if recent then 1 else 0) == Num(Current(t0)) + 1
    && Num(Aging(t)) + (if recent then 0 else 1) == Num(Aging(t0))
  }

  lemma LiveAtHome(hash: Hash, t: Table, e: Element) returns (k: nat)
    requires Shape(t) && Findable(hash, t) && e in Live(t)
    ensures k < 8 && t.elems[Locs(hash, |t.elems|, e)[k]] == e && !t.dead[Locs(hash, |t.elems|, e)[k]]
    ensures forall j :: 0 <= j < k ==> t.elems[Locs(hash, |t.elems|, e)[j]] != e
  {
    var i :| 0 <= i < |t.elems| && !t.dead[i] && t.elems[i] == e;
    k :| 0 <= k < 8 && FoundAt(hash, t, i, k);
  }

  lemma CarryStart(hash: Hash, t: Table, e: Element)
    requires Shape(t) && Findable(hash, t) && forall k :: 0 <= k < 8 ==> t.elems[Locs(hash, |t.elems|, e)[k]] != e
    ensures Carrying(hash, t, e, true, t, e)
  {
    if e in Live(t) { var _ := LiveAtHome(hash, t, e); }
  }

  lemma PutLive(t: Table, i: nat, e: Element, recent: bool)
    requires Shape(t) && i < |t.elems| && (t.dead[i] || t.elems[i] == e)
    ensures Live(Put(t, i, e, recent)) == Live(t) + {e}
  {
    var r := Put(t, i, e, recent);
    forall x | x in Live(t) + {e} ensures x in Live(r) {
      if x == e { assert !r.dead[i]; } else {
        var j :| 0 <= j < |t.elems| && !t.dead[j] && t.elems[j] == x;
        assert !r.dead[j] && r.elems[j] == x;
      }
    }
  }

  lemma PutOverLive(hash: Hash, t: Table, i: nat, e: Element, recent: bool)
    requires Shape(t) && Findable(hash, t) && i < |t.elems| && !t.dead[i] && e !in Live(t)
    ensures Live(Put(t, i, e, recent)) == Live(t) + {e} - {t.elems[i]}
  {
    var r, x := Put(t, i, e, recent), t.elems[i];
    assert x in Live(t);
    forall y | y in Live(r) ensures y in Live(t) + {e} - {x} {
      var j :| 0 <= j < |r.elems| && !r.dead[j] && r.elems[j] == y;
      if j != i && y == x { LiveOnce(hash, t, i, j); }
    }
    forall y | y in Live(t) + {e} - {x} ensures y in Live(r) {
      if y == e { assert !r.dead[i] && r.elems[i] == e; } else {
        var j :| 0 <= j < |t.elems| && !t.dead[j] && t.elems[j] == y;
        assert !r.dead[j] && r.elems[j] == y;
      }
    }
  }

  /** The first free location takes the element in hand. */
  lemma CarryPlace(hash: Hash, t: Table, e: Element, recent: bool, t0: Table, e0: Element, k: nat)
    requires Carrying(hash, t, e, recent, t0, e0) && k < 8
    requires var locs := Locs(hash, |t.elems|, e); t.dead[locs[k]] && forall j :: 0 <= j < k ==> !t.dead[locs[j]]
    ensures var r := Put(t, Locs(hash, |t.elems|, e)[k], e, recent);
      && Findable(hash, r) && Live(r) == Live(t0) + {e0}
      && Num(Current(r)) == Num(Current(t0)) + 1 && Num(Aging(r)) == Num(Aging(t0))
  {
    var locs := Locs(hash, |t.elems|, e);
    forall j | 0 <= j < k ensures t.elems[locs[j]] != e { assert t.elems[locs[j]] in Live(t); }
    PutFindable(hash, t, k, e, recent);
    PutLive(t, locs[k], e, recent);
    PutCounts(t, locs[k], e, recent);
  }

  /** With no free location the element in hand changes places with one of the occupants. */
  lemma CarrySwap(hash: Hash, t: Table, e: Element, recent: bool, t0: Table, e0: Element, k: nat)
    requires Carrying(hash, t, e, recent, t0, e0) && k < 8
    requires forall j :: 0 <= j < 8 ==> !t.dead[Locs(hash, |t.elems|, e)[j]]
    ensures var i := Locs(hash, |t.elems|, e)[k];
      Carrying(hash, Put(t, i, e, recent), t.elems[i], t.recent[i], t0, e0)
  {
    var locs := Locs(hash, |t.elems|, e);
    var i := locs[k];
    forall j | 0 <= j < k ensures t.elems[locs[j]] != e { assert t.elems[locs[j]] in Live(t); }
    PutFindable(hash, t, k, e, recent);
    assert t.elems[i] in Live(t);
    PutOverLive(hash, t, i, e, recent);
    PutCounts(t, i, e, recent);
  }

  /** Out of depth: what is in hand is lost. */
  lemma CarryDone(hash: Hash, t: Table, e: Element, recent: bool, t0: Table, e0: Element)
    requires Carrying(hash, t, e, recent, t0, e0)
    ensures Live(t) == Live(t0) + {e0} - {e} && e in Live(t0) + {e0}
    ensures forall last :: Kick(hash, t, e, recent, last, 0) == (t, {e})
    ensures Num(Current(t)) <= Num(Current(t0)) + 1 && Num(Aging(t)) <= Num(Aging(t0))
  {
    assert Live(t) == Live(t) + {e} - {e};
  }

  /** An element that is still shown at one of its locations is kept there. */
  lemma KeepInPlace(hash: Hash, t: Table, e: Element, k: nat)
    requires Shape(t) && Findable(hash, t) && k < 8
    requires var locs := Locs(hash, |t.elems|, e); t.elems[locs[k]] == e && forall j :: 0 <= j < k ==> t.elems[locs[j]] != e
    ensures var r := Put(t, Locs(hash, |t.elems|, e)[k], e, true);
      && Findable(hash, r) && Live(r) == Live(t) + {e}
      && Num(Current(r)) <= Num(Current(t)) + 1 && Num(Aging(r)) <= Num(Aging(t))
  {
    var i := Locs(hash, |t.elems|, e)[k];
    var r := Put(t, i, e, true);
    PutLive(t, i, e, true);
    PutCounts(t, i, e, true);
    forall s | 0 <= s < |r.elems| && !r.dead[s] ensures exists m :: 0 <= m < 8 && FoundAt(hash, r, s, m) {
      if s == i {
        assert FoundAt(hash, r, i, k);
      } else {
        var m :| 0 <= m < 8 && FoundAt(hash, t, s, m);
        assert FoundAt(hash, r, s, m);
      }
    }
  }

  // ----- the flags, eight to a byte ---------------------------------------------------------------

  class BitFlags {
    const size: nat
    const mem: array<bv8>

    predicate Valid() {
      mem.Length == (size + 7) / 8
    }

    ghost function View(): (r: seq<bool>)
      requires Valid()
      reads mem
      ensures |r| == size
    {
      seq(size, i requires 0 <= i < size reads mem => Packed(mem[..], i))
    }

    /** The number of bytes is a 32-bit sum: it wraps for the last seven sizes, and nothing is allocated. */
    constructor (size: Word)
      ensures this.size == size && fresh(mem) && (Valid() <==> size <= LARGEST)
      ensures Valid() ==> View() == seq(size, _ => true)
      ensures !Valid() ==> mem.Length == 0
    {
      this.size := size;
      mem := new bv8[(size + 7) % 0x1_0000_0000 / 8](_ => 0xFF);
      new;
      if size <= LARGEST {
        forall i | 0 <= i < size ensures Packed(mem[..], i) { ZeroBits(i % 8); }
      }
    }

    method BitSet(s: nat)
      requires Valid() && s < size
      modifies mem
      ensures View() == old(View())[s := true]
    {
      mem[s / 8] := mem[s / 8] | Mask(s % 8);
      forall i | 0 <= i < size ensures Packed(mem[..], i) <==> i == s || old(Packed(mem[..], i)) {
        SetBit(old(mem[s / 8]), s % 8, i % 8);
      }
    }

    method BitUnset(s: nat)
      requires Valid() && s < size
      modifies mem
      ensures View() == old(View())[s := false]
    {
      mem[s / 8] := mem[s / 8] & !Mask(s % 8);
      forall i | 0 <= i < size ensures Packed(mem[..], i) <==> i != s && old(Packed(mem[..], i)) {
        ClearBit(old(mem[s / 8]), s % 8, i % 8);
      }
    }

    method BitIsSet(s: nat) returns (b: bool)
      requires Valid() && s < size
      ensures b == View()[s]
    {
      b := Mask(s % 8) & mem[s / 8] != 0;
    }
  }

  // ----- the cache ---------------------------------------------------------------------------------

  function Max(a: nat, b: nat): nat { if a < b then b else a }

  class Cache {
    const hash: Hash
    const size: nat
    const depthLimit: nat
    const epochSize: nat
    const flags: BitFlags
    var table: seq<Element>
    var epochFlags: seq<bool>
    var counter: nat

    ghost function Repr(): set<object> {
      {this, flags.mem}
    }

    ghost predicate Consistent()
      reads this, flags.mem
    {
      && flags.Valid() && flags.size == size == |table| == |epochFlags| && 2 <= size <= INVALID && 0 < depthLimit < 256 && 0 < epochSize
      && Findable(hash, View())
    }

    ghost function View(): (t: Table)
      requires flags.Valid() && flags.size == |table| == |epochFlags| > 0
      reads this, flags.mem
      ensures Shape(t)
    {
      Table(table, flags.View(), epochFlags)
    }

    ghost predicate Valid()
      reads this, flags.mem
    {
      Consistent() && Bounded(View(), counter, epochSize, 0)
    }

    /** The product 45 * size and the number of flag bytes are 32-bit ones. */
    constructor (newSize: Word, depthLimit: nat, hash: Hash)
      requires 0 < depthLimit < 256
      ensures fresh(Repr()) && size == Max(2, newSize) && this.hash == hash
      ensures Valid() <==> newSize <= LARGEST
      ensures Valid() ==> Live(View()) == {}
      ensures !Valid() ==> flags.mem.Length == 0
      ensures 45 * size < 0x1_0000_0000 ==> epochSize == Max(1, 45 * size / 100)
    {
      hide Findable, Live, Num, Current, Aging;
      var n := Max(2, newSize);
      this.hash, this.depthLimit, size := hash, depthLimit, n;
      flags := new BitFlags(n);
      table := seq(n, _ => 0);
      epochFlags := seq(n, _ => false);
      epochSize := Max(1, 45 * n % 0x1_0000_0000 / 100);
      counter := epochSize;
      new;
      if newSize <= LARGEST { NothingLive(hash, View()); }
    }

    method AllowErase(n: nat)
      requires Consistent() && n < size
      modifies flags.mem
      ensures View() == old(View()).(dead := old(View()).dead[n := true])
      ensures Findable(hash, View())
    {
      flags.BitSet(n);
      StillFindable(hash, old(View()), View());
    }

    /** One epoch check per insertion: room for one more entry of the current epoch is left. */
    method EpochCheck()
      requires Valid()
      modifies this, flags.mem
      ensures Consistent() && View() == Checked(old(View()), old(counter), epochSize)
      ensures Bounded(View(), counter, epochSize, 1)
      ensures old(counter) != 0 ==> counter == old(counter) - 1
      ensures var unused := Num(Current(old(View())));
        old(counter) == 0 ==> counter == if unused >= epochSize then epochSize else Max(1, Max(epochSize / 16, epochSize - unused))
    {
      hide Findable, Live, Num, Current, Aging, Aged;
      CheckedFindable(hash, View(), counter, epochSize);
      if counter != 0 {
        counter := counter - 1;
        return;
      }
      var unused := CountUnused();
      if unused >= epochSize {
        AgedCounts(View());
        StartEpoch();
        counter := epochSize;
      } else {
        counter := Max(1, Max(epochSize / 16, epochSize - unused));
      }
    }

    method CountUnused() returns (n: nat)
      requires Consistent()
      ensures n == Num(Current(View()))
    {
      hide Findable, Num;
      n := 0;
      ghost var current := Current(View());
      NumPrefix(current, 0);
      for i := 0 to size
        invariant n == Num(current[..i])
      {
        NumPrefix(current, i);
        var dead := flags.BitIsSet(i);
        n := n + if epochFlags[i] && !dead then 1 else 0;
      }
      assert current[..size] == current;
    }

    method StartEpoch()
      requires Consistent()
      modifies this`epochFlags, flags.mem
      ensures Consistent() && View() == Aged(old(View()))
    {
      ghost var t := View();
      for i := 0 to size
        invariant Consistent() && table == t.elems
        invariant forall j :: 0 <= j < i ==> !epochFlags[j] && flags.View()[j] == (t.dead[j] || !t.recent[j])
        invariant forall j :: i <= j < size ==> epochFlags[j] == t.recent[j] && flags.View()[j] == t.dead[j]
      {
        if epochFlags[i] {
          ghost var before := View();
          epochFlags := epochFlags[i := false];
          StillFindable(hash, before, View());
        } else {
          AllowErase(i);
        }
      }
      assert View() == Aged(t);
    }

    /** What a lookup stops at: the first location that shows the element. */
    method Find(e: Element) returns (k: nat)
      requires Consistent()
      ensures k <= 8 && forall j :: 0 <= j < k ==> table[Locs(hash, size, e)[j]] != e
      ensures k < 8 ==> table[Locs(hash, size, e)[k]] == e
    {
      var locs := Locs(hash, size, e);
      k := 0;
      while k < 8 && table[locs[k]] != e
        invariant k <= 8 && forall j :: 0 <= j < k ==> table[locs[j]] != e
      {
        k := k + 1;
      }
    }

    method FirstFree(locs: seq<nat>) returns (k: nat)
      requires Consistent() && |locs| == 8 && forall j :: 0 <= j < 8 ==> locs[j] < size
      ensures k <= 8 && forall j :: 0 <= j < k ==> !View().dead[locs[j]]
      ensures k < 8 ==> View().dead[locs[k]]
    {
      k := 0;
      while k < 8
        invariant k <= 8 && forall j :: 0 <= j < k ==> !View().dead[locs[j]]
      {
        var free := flags.BitIsSet(locs[k]);
        if free { return; }
        k := k + 1;
      }
    }

    /** Write an element into a slot and keep it. */
    method Store(i: nat, e: Element, recent: bool)
      requires Consistent() && i < size
      requires Findable(hash, Put(View(), i, e, recent))
      modifies this`table, this`epochFlags, flags.mem
      ensures Consistent() && View() == Put(old(View()), i, e, recent)
    {
      table := table[i := e];
      flags.BitUnset(i);
      epochFlags := epochFlags[i := recent];
    }

    /**
     * After the epoch check, the live set gains the element and loses at most
     * one, which may be the element itself.
     */
    method Insert(e0: Element) returns (ghost lost: set<Element>)
      requires Valid()
      modifies this, flags.mem
      ensures Valid()
      ensures var t := Checked(old(View()), old(counter), epochSize);
        && (View(), lost) == Inserted(hash, t, e0, depthLimit)
        && Live(View()) == Live(t) + {e0} - lost && lost <= Live(t) + {e0} && |lost| <= 1
        && |table| == old(|table|) && OneReused(t, View())
    {
      hide Findable, Live, Num, Current, Aging, Locs, Put, Checked, Carrying, First, Victim, Kick, Inserted, OneReused;
      lost := {};
      EpochCheck();
      ghost var t0 := View();
      InsertedReuses(hash, t0, e0, depthLimit);
      var k := Find(e0);
      InsertedStep(hash, t0, e0, depthLimit, k);
      if k < 8 {
        KeepInPlace(hash, t0, e0, k);
        Store(Locs(hash, size, e0)[k], e0, true);
        return;
      }
      CarryStart(hash, t0, e0);
      var e, lastEpoch, last := e0, true, INVALID;
      for depth := 0 to depthLimit
        invariant Consistent() && Carrying(hash, View(), e, lastEpoch, t0, e0) && counter + Num(Current(t0)) + 1 <= Bound(epochSize)
        invariant Kick(hash, View(), e, lastEpoch, last, depthLimit - depth) == Inserted(hash, t0, e0, depthLimit)
      {
        var locs := Locs(hash, size, e);
        k := FirstFree(locs);
        KickStep(hash, View(), e, lastEpoch, last, depthLimit - depth, k);
        if k < 8 {
          CarryPlace(hash, View(), e, lastEpoch, t0, e0, k);
          Store(locs[k], e, lastEpoch);
          return;
        }
        k := Victim(locs, last);
        last := locs[k];
        CarrySwap(hash, View(), e, lastEpoch, t0, e0, k);
        var evicted, evictedEpoch := table[last], epochFlags[last];
        Store(last, e, lastEpoch);
        e, lastEpoch := evicted, evictedEpoch;
      }
      lost := {e};
      CarryDone(hash, View(), e, lastEpoch, t0, e0);
    }

    /** Never misses a live element; with erase set, that element alone becomes discardable. */
    method Contains(e: Element, erase: bool) returns (found: bool)
      requires Valid()
      modifies flags.mem
      ensures Valid() && (e in old(Live(View())) ==> found)
      ensures found <==> exists k :: 0 <= k < 8 && table[Locs(hash, size, e)[k]] == e
      ensures Live(View()) == if erase then old(Live(View())) - {e} else old(Live(View()))
    {
      var k := Find(e);
      ghost var t := View();
      if e in Live(t) { ghost var _ := LiveAtHome(hash, t, e); }
      found := k < 8;
      if found && erase {
        var i := Locs(hash, size, e)[k];
        ErasedLive(hash, t, i);
        ErasedCounts(t, i);
        AllowErase(i);
      }
    }

    /**
     * Erase an element, insert others, and look it up again: it is found unless
     * one of the insertions has overwritten its slot.
     */
    method LookUpErased(e: Element, others: seq<Element>) returns (was: bool, found: bool, ghost slot: nat)
      requires Valid()
      modifies this, flags.mem
      ensures Valid() && (e in old(Live(View())) ==> was)
      ensures was ==> slot in Locs(hash, size, e) && slot < |table| && (table[slot] == e ==> found)
      ensures was && others == [] ==> found && Live(View()) == old(Live(View())) - {e}
    {
      hide Locs, Inserted, Checked, OneReused, Bounded, Findable;
      slot, found := 0, false;
      was := Contains(e, true);
      if !was { return; }
      ghost var k: nat :| k < 8 && table[Locs(hash, size, e)[k]] == e;
      slot := Locs(hash, size, e)[k];
      ghost var erased, live := table, Live(View());
      for i := 0 to |others|
        invariant Valid() && (i == 0 ==> table == erased && Live(View()) == live)
      {
        ghost var _ := Insert(others[i]);
      }
      found := Contains(e, false);
    }
  }

  lemma NothingLive(hash: Hash, t: Table)
    requires Shape(t) && forall i :: 0 <= i < |t.elems| ==> t.dead[i]
    ensures Findable(hash, t) && Live(t) == {} && Num(Current(t)) == 0 && Num(Aging(t)) == 0
  {
    NumNone(Current(t));
    NumNone(Aging(t));
  }

  lemma StillFindable(hash: Hash, t: Table, r: Table)
    requires Shape(t) && Shape(r) && Findable(hash, t) && r.elems == t.elems
    requires forall i :: 0 <= i < |t.elems| && t.dead[i] ==> r.dead[i]
    ensures Findable(hash, r)
  {
    forall i | 0 <= i < |r.elems| && !r.dead[i] ensures exists k :: 0 <= k < 8 && FoundAt(hash, r, i, k) {
      var k :| 0 <= k < 8 && FoundAt(hash, t, i, k);
      assert FoundAt(hash, r, i, k);
    }
  }

  lemma ErasedLive(hash: Hash, t: Table, i: nat)
    requires Shape(t) && Findable(hash, t) && i < |t.elems|
    requires t.elems[i] in Live(t) ==> !t.dead[i]
    ensures Live(t.(dead := t.dead[i := true])) == Live(t) - {t.elems[i]}
  {
    var r := t.(dead := t.dead[i := true]);
    forall y | y in Live(r) ensures y in Live(t) - {t.elems[i]} {
      var j :| 0 <= j < |r.elems| && !r.dead[j] && r.elems[j] == y;
      assert !t.dead[j] && y in Live(t);
      if y == t.elems[i] { LiveOnce(hash, t, i, j); }
    }
    forall y | y in Live(t) - {t.elems[i]} ensures y in Live(r) {
      var j :| 0 <= j < |t.elems| && !t.dead[j] && t.elems[j] == y;
      assert !r.dead[j];
    }
  }

  lemma ErasedCounts(t: Table, i: nat)
    requires Shape(t) && i < |t.elems|
    ensures var r := t.(dead := t.dead[i := true]);
      Num(Current(r)) <= Num(Current(t)) && Num(Aging(r)) <= Num(Aging(t))
  {
    var r := t.(dead := t.dead[i := true]);
    NumMono(Current(r), Current(t));
    NumMono(Aging(r), Aging(t));
  }
}
