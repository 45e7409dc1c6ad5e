/**
 * Partial Merkle trees: a builder and an extractor that walk the same tree.
 * Hashes are numbers (0 is the null hash) and the pair hash is any function, so
 * every result holds up to a collision that is computed, not merely claimed.
 */
module MerkleTree {

  type Hash = nat

  datatype Option<+T> = None | Some(value: T)

  function Pow2(h: nat): nat {
    if h == 0 then 1 else 2 * Pow2(h - 1)
  }

  lemma {:induction false} Pow2Positive(h: nat)
    ensures Pow2(h) >= 1
  {
    if h > 0 { Pow2Positive(h - 1); }
  }

  /** Number of nodes at a height of a tree with n leaves. */
  function Width(n: nat, h: nat): nat {
    Pow2Positive(h);
    (n + Pow2(h) - 1) / Pow2(h)
  }

  lemma MulMono(a: int, b: int, p: nat)
    requires a <= b
    ensures a * p <= b * p
  {
    assert b * p == a * p + (b - a) * p;
  }

  lemma CeilBound(n: nat, p: nat, pos: nat)
    requires p >= 1
    ensures pos < (n + p - 1) / p <==> pos * p < n
  {
    var w := (n + p - 1) / p;
    var r := n + p - 1 - w * p;
    assert 0 <= r < p;
    if pos < w {
      MulMono(pos + 1, w, p);
      assert (pos + 1) * p == pos * p + p;
    } else {
      MulMono(w, pos, p);
    }
  }

  /** A node exists exactly if its first leaf does. */
  lemma WidthBound(n: nat, h: nat, pos: nat)
    ensures pos < Width(n, h) <==> pos * Pow2(h) < n
  {
    Pow2Positive(h);
    CeilBound(n, Pow2(h), pos);
  }

  lemma ChildBounds(n: nat, h: nat, pos: nat)
    requires h > 0
    ensures pos < Width(n, h) ==> 2 * pos < Width(n, h - 1)
    ensures 2 * pos * Pow2(h - 1) == pos * Pow2(h)
    ensures (2 * pos + 1) * Pow2(h - 1) + Pow2(h - 1) == (pos + 1) * Pow2(h)
  {
    WidthBound(n, h, pos);
    WidthBound(n, h - 1, 2 * pos);
    var q := Pow2(h - 1);
    assert pos * (2 * q) == 2 * pos * q;
    assert (2 * pos + 1) * q + q == (pos + 1) * (2 * q);
  }

  lemma {:induction false} Pow2Exceeds(n: nat)
    ensures Pow2(n) > n
  {
    if n > 0 { Pow2Exceeds(n - 1); }
  }

  /** The tree height: the first with a single node. */
  function Height(n: nat): (h: nat)
    ensures Width(n, h) <= 1
    ensures forall k :: 0 <= k < h ==> Width(n, k) > 1
  {
    HeightFrom(n, 0)
  }

  function HeightFrom(n: nat, h: nat): (r: nat)
    requires forall k :: 0 <= k < h ==> Width(n, k) > 1
    ensures r >= h && Width(n, r) <= 1
    ensures forall k :: 0 <= k < r ==> Width(n, k) > 1
    decreases if h <= n then n - h + 1 else 0
  {
    if Width(n, h) > 1 then
      Pow2Exceeds(h);
      WidthBound(n, h, 1);
      HeightFrom(n, h + 1)
    else h
  }

  // ----- the full tree ------------------------------------------------------------

  /** Hash of a node; a missing right child counts as a copy of the left one. */
  function CalcHash(pair: (Hash, Hash) -> Hash, txids: seq<Hash>, h: nat, pos: nat): Hash
    requires pos < Width(|txids|, h)
    decreases h, 1
  {
    if h == 0 then
      WidthBound(|txids|, 0, pos);
      txids[pos]
    else
      var c := Children(pair, txids, h, pos);
      pair(c.0, c.1)
  }

  function Children(pair: (Hash, Hash) -> Hash, txids: seq<Hash>, h: nat, pos: nat): (Hash, Hash)
    requires h > 0 && pos < Width(|txids|, h)
    decreases h, 0
  {
    ChildBounds(|txids|, h, pos);
    var left := CalcHash(pair, txids, h - 1, 2 * pos);
    (left, if 2 * pos + 1 < Width(|txids|, h - 1) then CalcHash(pair, txids, h - 1, 2 * pos + 1) else left)
  }

  // ----- building -------------------------------------------------------------------

  /** Whether a leaf below the node is matched. */
  ghost predicate AnyMatch(n: nat, matched: seq<bool>, h: nat, pos: nat)
    requires |matched| == n
  {
    exists p :: pos * Pow2(h) <= p < (pos + 1) * Pow2(h) && p < n && matched[p]
  }

  datatype Bits = Bits(bits: seq<bool>, hashes: seq<Hash>)

  ghost function Build(pair: (Hash, Hash) -> Hash, txids: seq<Hash>, matched: seq<bool>, h: nat, pos: nat): Bits
    requires |matched| == |txids| && pos < Width(|txids|, h)
  {
    var f := AnyMatch(|txids|, matched, h, pos);
    if h == 0 || !f then Bits([f], [CalcHash(pair, txids, h, pos)])
    else
      ChildBounds(|txids|, h, pos);
      var l := Build(pair, txids, matched, h - 1, 2 * pos);
      if 2 * pos + 1 < Width(|txids|, h - 1) then
        var r := Build(pair, txids, matched, h - 1, 2 * pos + 1);
        Bits([f] + l.bits + r.bits, l.hashes + r.hashes)
      else
        Bits([f] + l.bits, l.hashes)
  }

  /** One level of the traversal. */
  lemma BuildStep(pair: (Hash, Hash) -> Hash, txids: seq<Hash>, matched: seq<bool>, h: nat, pos: nat)
    requires |matched| == |txids| && pos < Width(|txids|, h) && h > 0 && AnyMatch(|txids|, matched, h, pos)
    ensures 2 * pos < Width(|txids|, h - 1)
    ensures Build(pair, txids, matched, h, pos) ==
      var l := Build(pair, txids, matched, h - 1, 2 * pos);
      if 2 * pos + 1 < Width(|txids|, h - 1) then
        var r := Build(pair, txids, matched, h - 1, 2 * pos + 1);
        Bits([true] + (l.bits + r.bits), l.hashes + r.hashes)
      else
        Bits([true] + l.bits, l.hashes)
  {
    ChildBounds(|txids|, h, pos);
    var l := Build(pair, txids, matched, h - 1, 2 * pos);
    if 2 * pos + 1 < Width(|txids|, h - 1) {
      var r := Build(pair, txids, matched, h - 1, 2 * pos + 1);
      assert [true] + l.bits + r.bits == [true] + (l.bits + r.bits);
    }
  }

  // ----- extracting -------------------------------------------------------------------

  /** A partial tree as received: nothing about it can be relied on. */
  datatype Partial = Partial(n: nat, bits: seq<bool>, hashes: seq<Hash>)

  /** Result of a traversal: bad flag, node hash, cursors and the matches found. */
  datatype Walk = Walk(bad: bool, hash: Hash, bitsUsed: nat, hashUsed: nat, found: seq<(nat, Hash)>)

  function Extract(pair: (Hash, Hash) -> Hash, t: Partial, h: nat, pos: nat, bitsUsed: nat, hashUsed: nat): Walk {
    if bitsUsed >= |t.bits| then Walk(true, 0, bitsUsed, hashUsed, [])
    else
      var f := t.bits[bitsUsed];
      if h == 0 || !f then
        if hashUsed >= |t.hashes| then Walk(true, 0, bitsUsed + 1, hashUsed, [])
        else
          var x := t.hashes[hashUsed];
          Walk(false, x, bitsUsed + 1, hashUsed + 1, if h == 0 && f then [(pos, x)] else [])
      else
        var l := Extract(pair, t, h - 1, 2 * pos, bitsUsed + 1, hashUsed);
        if 2 * pos + 1 < Width(t.n, h - 1) then
          var r := Extract(pair, t, h - 1, 2 * pos + 1, l.bitsUsed, l.hashUsed);
          Walk(l.bad || r.bad || r.hash == l.hash, pair(l.hash, r.hash), r.bitsUsed, r.hashUsed, l.found + r.found)
        else
          Walk(l.bad, pair(l.hash, l.hash), l.bitsUsed, l.hashUsed, l.found)
  }

  /** One level of the traversal. */
  lemma ExtractStep(pair: (Hash, Hash) -> Hash, t: Partial, h: nat, pos: nat, bitsUsed: nat, hashUsed: nat)
    requires h > 0 && bitsUsed < |t.bits| && t.bits[bitsUsed]
    ensures Extract(pair, t, h, pos, bitsUsed, hashUsed) ==
      var l := Extract(pair, t, h - 1, 2 * pos, bitsUsed + 1, hashUsed);
      if 2 * pos + 1 < Width(t.n, h - 1) then
        var r := Extract(pair, t, h - 1, 2 * pos + 1, l.bitsUsed, l.hashUsed);
        Walk(l.bad || r.bad || r.hash == l.hash, pair(l.hash, r.hash), r.bitsUsed, r.hashUsed, l.found + r.found)
      else
        Walk(l.bad, pair(l.hash, l.hash), l.bitsUsed, l.hashUsed, l.found)
  {
  }

  datatype Answer = Rejected | Accepted(root: Hash, found: seq<(nat, Hash)>)

  /** ExtractMatches; maxTx is the most transactions a block can hold. */
  function ExtractMatches(pair: (Hash, Hash) -> Hash, maxTx: nat, t: Partial): Answer {
    if t.n == 0 || t.n > maxTx || |t.hashes| > t.n || |t.bits| < |t.hashes| then Rejected
    else
      var w := Extract(pair, t, Height(t.n), 0, 0, 0);
      if w.bad || (w.bitsUsed + 7) / 8 != (|t.bits| + 7) / 8 || w.hashUsed != |t.hashes| then Rejected
      else Accepted(w.hash, w.found)
  }

  // ----- soundness -------------------------------------------------------------------

  datatype Collision = Collision(a: (Hash, Hash), b: (Hash, Hash))

  ghost predicate IsCollision(pair: (Hash, Hash) -> Hash, c: Collision) {
    c.a != c.b && pair(c.a.0, c.a.1) == pair(c.b.0, c.b.1)
  }

  /** Walk the received tree beside the real one and report the first place they part. */
  function FindForgery(pair: (Hash, Hash) -> Hash, t: Partial, txids: seq<Hash>, h: nat, pos: nat, bitsUsed: nat, hashUsed: nat): Option<Collision>
    requires |txids| == t.n && pos < Width(t.n, h)
  {
    if bitsUsed >= |t.bits| || h == 0 || !t.bits[bitsUsed] then None
    else
      ChildBounds(t.n, h, pos);
      var l := Extract(pair, t, h - 1, 2 * pos, bitsUsed + 1, hashUsed);
      var both := 2 * pos + 1 < Width(t.n, h - 1);
      var r := if both then Extract(pair, t, h - 1, 2 * pos + 1, l.bitsUsed, l.hashUsed) else l;
      var actual := Children(pair, txids, h, pos);
      if (l.hash, r.hash) != actual then Some(Collision((l.hash, r.hash), actual))
      else
        var below := FindForgery(pair, t, txids, h - 1, 2 * pos, bitsUsed + 1, hashUsed);
        if below.Some? || !both then below
        else FindForgery(pair, t, txids, h - 1, 2 * pos + 1, l.bitsUsed, l.hashUsed)
  }

  ghost predicate TrueLeaves(txids: seq<Hash>, found: seq<(nat, Hash)>) {
    forall i :: 0 <= i < |found| ==> found[i].0 < |txids| && txids[found[i].0] == found[i].1
  }

  lemma {:induction false} SoundBelow(pair: (Hash, Hash) -> Hash, t: Partial, txids: seq<Hash>, h: nat, pos: nat, bitsUsed: nat, hashUsed: nat)
    requires |txids| == t.n && pos < Width(t.n, h)
    requires var w := Extract(pair, t, h, pos, bitsUsed, hashUsed);
             !w.bad && w.hash == CalcHash(pair, txids, h, pos)
    ensures var c := FindForgery(pair, t, txids, h, pos, bitsUsed, hashUsed);
            if c.Some? then IsCollision(pair, c.value)
            else TrueLeaves(txids, Extract(pair, t, h, pos, bitsUsed, hashUsed).found)
  {
    WidthBound(t.n, h, pos);
    if h > 0 && t.bits[bitsUsed] {
      ChildBounds(t.n, h, pos);
      var l := Extract(pair, t, h - 1, 2 * pos, bitsUsed + 1, hashUsed);
      var both := 2 * pos + 1 < Width(t.n, h - 1);
      var r := if both then Extract(pair, t, h - 1, 2 * pos + 1, l.bitsUsed, l.hashUsed) else l;
      if (l.hash, r.hash) == Children(pair, txids, h, pos) {
        SoundBelow(pair, t, txids, h - 1, 2 * pos, bitsUsed + 1, hashUsed);
        if both {
          SoundBelow(pair, t, txids, h - 1, 2 * pos + 1, l.bitsUsed, l.hashUsed);
        }
      }
    }
  }

  /**
   * Whatever object is received: if it is accepted with the root of a real list
   * of that many txids, every match it reports is a true leaf, or the two trees
   * hand over two different pairs with the same hash.
   */
  lemma Soundness(pair: (Hash, Hash) -> Hash, maxTx: nat, t: Partial, txids: seq<Hash>)
    requires |txids| == t.n > 0
    ensures Width(t.n, Height(t.n)) == 1
    ensures var a := ExtractMatches(pair, maxTx, t);
            a.Accepted? && a.root == CalcHash(pair, txids, Height(t.n), 0) ==>
              var c := FindForgery(pair, t, txids, Height(t.n), 0, 0, 0);
              if c.Some? then IsCollision(pair, c.value) else TrueLeaves(txids, a.found)
  {
    WidthBound(t.n, Height(t.n), 0);
    var a := ExtractMatches(pair, maxTx, t);
    if a.Accepted? && a.root == CalcHash(pair, txids, Height(t.n), 0) {
      SoundBelow(pair, t, txids, Height(t.n), 0, 0, 0);
    }
  }

  // ----- the round trip ----------------------------------------------------------------

  /** The matched leaves from lo up to hi, in order. */
  function Matches(txids: seq<Hash>, matched: seq<bool>, lo: nat, hi: nat): seq<(nat, Hash)>
    requires |matched| == |txids| && hi <= |txids|
    decreases hi - lo
  {
    if lo >= hi then []
    else (if matched[lo] then [(lo, txids[lo])] else []) + Matches(txids, matched, lo + 1, hi)
  }

  lemma {:induction false} MatchesSplit(txids: seq<Hash>, matched: seq<bool>, lo: nat, mid: nat, hi: nat)
    requires |matched| == |txids| && lo <= mid <= hi <= |txids|
    ensures Matches(txids, matched, lo, hi) == Matches(txids, matched, lo, mid) + Matches(txids, matched, mid, hi)
    decreases mid - lo
  {
    if lo < mid { MatchesSplit(txids, matched, lo + 1, mid, hi); }
  }

  lemma {:induction false} MatchesNone(txids: seq<Hash>, matched: seq<bool>, lo: nat, hi: nat)
    requires |matched| == |txids| && hi <= |txids| && forall p :: lo <= p < hi ==> !matched[p]
    ensures Matches(txids, matched, lo, hi) == []
    decreases hi - lo
  {
    if lo < hi { MatchesNone(txids, matched, lo + 1, hi); }
  }

  function First(h: nat, pos: nat): nat {
    pos * Pow2(h)
  }

  /** One past the last leaf below a node. */
  function Last(n: nat, h: nat, pos: nat): nat {
    if (pos + 1) * Pow2(h) < n then (pos + 1) * Pow2(h) else n
  }

  lemma Ranges(n: nat, h: nat, pos: nat)
    requires h > 0 && pos < Width(n, h)
    ensures First(h, pos) == First(h - 1, 2 * pos) < Last(n, h - 1, 2 * pos)
    ensures 2 * pos < Width(n, h - 1)
    ensures if 2 * pos + 1 < Width(n, h - 1) then
              Last(n, h - 1, 2 * pos) == First(h - 1, 2 * pos + 1) == (2 * pos + 1) * Pow2(h - 1)
              && Last(n, h - 1, 2 * pos + 1) == Last(n, h, pos) && First(h - 1, 2 * pos + 1) < Last(n, h, pos)
            else Last(n, h - 1, 2 * pos) == Last(n, h, pos)
  {
    ChildBounds(n, h, pos);
    WidthBound(n, h, pos);
    WidthBound(n, h - 1, 2 * pos);
    WidthBound(n, h - 1, 2 * pos + 1);
    var q := Pow2(h - 1);
    Pow2Positive(h - 1);
    assert (2 * pos + 1) * q == 2 * pos * q + q;
    assert (2 * pos + 2) * q == (2 * pos + 1) * q + q;
  }

  lemma AnyMatchRange(n: nat, matched: seq<bool>, h: nat, pos: nat)
    requires |matched| == n
    ensures AnyMatch(n, matched, h, pos) <==> exists p :: First(h, pos) <= p < Last(n, h, pos) && matched[p]
  {
  }

  lemma AnyMatchSplit(n: nat, matched: seq<bool>, h: nat, pos: nat)
    requires |matched| == n && h > 0 && pos < Width(n, h)
    ensures AnyMatch(n, matched, h, pos) <==>
              AnyMatch(n, matched, h - 1, 2 * pos) ||
              (2 * pos + 1 < Width(n, h - 1) && AnyMatch(n, matched, h - 1, 2 * pos + 1))
  {
    hide First, Last, AnyMatch;
    Ranges(n, h, pos);
    AnyMatchRange(n, matched, h, pos);
    AnyMatchRange(n, matched, h - 1, 2 * pos);
    AnyMatchRange(n, matched, h - 1, 2 * pos + 1);
  }

  ghost predicate Distinct(txids: seq<Hash>) {
    forall i, j :: 0 <= i < j < |txids| ==> txids[i] != txids[j]
  }

  /** Two different nodes of one height with equal hashes: go down until their children differ. */
  function FindTwin(pair: (Hash, Hash) -> Hash, txids: seq<Hash>, h: nat, p: nat, q: nat): Option<Collision>
    requires p < Width(|txids|, h) && q < Width(|txids|, h)
  {
    if h == 0 then None
    else
      ChildBounds(|txids|, h, p);
      ChildBounds(|txids|, h, q);
      var a, b := Children(pair, txids, h, p), Children(pair, txids, h, q);
      if a != b then Some(Collision(a, b)) else FindTwin(pair, txids, h - 1, 2 * p, 2 * q)
  }

  lemma {:induction false} TwinsCollide(pair: (Hash, Hash) -> Hash, txids: seq<Hash>, h: nat, p: nat, q: nat)
    requires Distinct(txids) && p < Width(|txids|, h) && q < Width(|txids|, h) && p != q
    requires CalcHash(pair, txids, h, p) == CalcHash(pair, txids, h, q)
    ensures var c := FindTwin(pair, txids, h, p, q); c.Some? && IsCollision(pair, c.value)
  {
    WidthBound(|txids|, h, p);
    WidthBound(|txids|, h, q);
    if h > 0 {
      ChildBounds(|txids|, h, p);
      ChildBounds(|txids|, h, q);
      if Children(pair, txids, h, p) == Children(pair, txids, h, q) {
        TwinsCollide(pair, txids, h - 1, 2 * p, 2 * q);
      }
    }
  }

  /** No two nodes of one height have the same hash. */
  ghost predicate TwinFree(pair: (Hash, Hash) -> Hash, txids: seq<Hash>) {
    forall h: nat, p: nat, q: nat :: p < q < Width(|txids|, h) ==> CalcHash(pair, txids, h, p) != CalcHash(pair, txids, h, q)
  }

  lemma NotTwins(pair: (Hash, Hash) -> Hash, txids: seq<Hash>, h: nat, p: nat, q: nat)
    requires TwinFree(pair, txids) && p < q < Width(|txids|, h)
    ensures CalcHash(pair, txids, h, p) != CalcHash(pair, txids, h, q)
  {
  }

  ghost predicate Continues<T>(whole: seq<T>, from: nat, part: seq<T>) {
    from + |part| <= |whole| && whole[from..from + |part|] == part
  }

  lemma ContinuesSplit<T>(whole: seq<T>, from: nat, a: seq<T>, b: seq<T>)
    requires Continues(whole, from, a + b)
    ensures Continues(whole, from, a) && Continues(whole, from + |a|, b)
  {
    assert whole[from..from + |a|] == whole[from..from + |a + b|][..|a|];
    assert whole[from + |a|..from + |a| + |b|] == whole[from..from + |a + b|][|a|..];
  }

  lemma {:induction false} ExtractBuilt(pair: (Hash, Hash) -> Hash, t: Partial, txids: seq<Hash>, matched: seq<bool>, h: nat, pos: nat, bitsUsed: nat, hashUsed: nat)
    requires t.n == |txids| == |matched| && pos < Width(t.n, h) && TwinFree(pair, txids)
    requires var b := Build(pair, txids, matched, h, pos);
             Continues(t.bits, bitsUsed, b.bits) && Continues(t.hashes, hashUsed, b.hashes)
    ensures var b := Build(pair, txids, matched, h, pos);
            Last(t.n, h, pos) <= t.n &&
            Extract(pair, t, h, pos, bitsUsed, hashUsed) ==
              Walk(false, CalcHash(pair, txids, h, pos), bitsUsed + |b.bits|, hashUsed + |b.hashes|,
                   Matches(txids, matched, First(h, pos), Last(t.n, h, pos)))
    decreases h, 1
  {
    var f := AnyMatch(t.n, matched, h, pos);
    var b := Build(pair, txids, matched, h, pos);
    assert b.bits[0] == f;
    assert t.bits[bitsUsed] == t.bits[bitsUsed..bitsUsed + |b.bits|][0];
    if h == 0 || !f {
      ExtractLeaf(pair, t, txids, matched, h, pos, bitsUsed, hashUsed);
    } else {
      ExtractInner(pair, t, txids, matched, h, pos, bitsUsed, hashUsed);
    }
  }

  lemma ExtractLeaf(pair: (Hash, Hash) -> Hash, t: Partial, txids: seq<Hash>, matched: seq<bool>, h: nat, pos: nat, bitsUsed: nat, hashUsed: nat)
    requires t.n == |txids| == |matched| && pos < Width(t.n, h)
    requires h == 0 || !AnyMatch(t.n, matched, h, pos)
    requires bitsUsed < |t.bits| && t.bits[bitsUsed] == AnyMatch(t.n, matched, h, pos)
    requires Continues(t.hashes, hashUsed, [CalcHash(pair, txids, h, pos)])
    ensures Extract(pair, t, h, pos, bitsUsed, hashUsed) ==
              Walk(false, CalcHash(pair, txids, h, pos), bitsUsed + 1, hashUsed + 1,
                   Matches(txids, matched, First(h, pos), Last(t.n, h, pos)))
  {
    WidthBound(t.n, h, pos);
    AnyMatchRange(t.n, matched, h, pos);
    assert t.hashes[hashUsed] == t.hashes[hashUsed..hashUsed + 1][0];
    if !AnyMatch(t.n, matched, h, pos) {
      MatchesNone(txids, matched, First(h, pos), Last(t.n, h, pos));
    } else {
      assert First(0, pos) == pos && Last(t.n, 0, pos) == pos + 1;
      assert Matches(txids, matched, pos + 1, pos + 1) == [];
    }
  }

  lemma {:induction false} ExtractInner(pair: (Hash, Hash) -> Hash, t: Partial, txids: seq<Hash>, matched: seq<bool>, h: nat, pos: nat, bitsUsed: nat, hashUsed: nat)
    requires t.n == |txids| == |matched| && pos < Width(t.n, h) && TwinFree(pair, txids)
    requires h > 0 && AnyMatch(t.n, matched, h, pos) && bitsUsed < |t.bits| && t.bits[bitsUsed]
    requires var b := Build(pair, txids, matched, h, pos);
             Continues(t.bits, bitsUsed, b.bits) && Continues(t.hashes, hashUsed, b.hashes)
    ensures var b := Build(pair, txids, matched, h, pos);
            Last(t.n, h, pos) <= t.n &&
            Extract(pair, t, h, pos, bitsUsed, hashUsed) ==
              Walk(false, CalcHash(pair, txids, h, pos), bitsUsed + |b.bits|, hashUsed + |b.hashes|,
                   Matches(txids, matched, First(h, pos), Last(t.n, h, pos)))
    decreases h, 0
  {
    hide First, Last, AnyMatch, Continues, Width, Pow2, TwinFree, Build, Extract, Matches;
    Ranges(t.n, h, pos);
    BuildStep(pair, txids, matched, h, pos);
    ExtractStep(pair, t, h, pos, bitsUsed, hashUsed);
    var l := Build(pair, txids, matched, h - 1, 2 * pos);
    if 2 * pos + 1 < Width(t.n, h - 1) {
      var r := Build(pair, txids, matched, h - 1, 2 * pos + 1);
      ContinuesSplit(t.bits, bitsUsed, [true], l.bits + r.bits);
      ContinuesSplit(t.bits, bitsUsed + 1, l.bits, r.bits);
      ContinuesSplit(t.hashes, hashUsed, l.hashes, r.hashes);
      ExtractBuilt(pair, t, txids, matched, h - 1, 2 * pos, bitsUsed + 1, hashUsed);
      ExtractBuilt(pair, t, txids, matched, h - 1, 2 * pos + 1, bitsUsed + 1 + |l.bits|, hashUsed + |l.hashes|);
      NotTwins(pair, txids, h - 1, 2 * pos, 2 * pos + 1);
      MatchesSplit(txids, matched, First(h, pos), First(h - 1, 2 * pos + 1), Last(t.n, h, pos));
    } else {
      ContinuesSplit(t.bits, bitsUsed, [true], l.bits);
      ExtractBuilt(pair, t, txids, matched, h - 1, 2 * pos, bitsUsed + 1, hashUsed);
    }
  }

  // ----- size -------------------------------------------------------------------------------

  /** Number of matched leaves from lo up to hi. */
  ghost function Count(txids: seq<Hash>, matched: seq<bool>, lo: nat, hi: nat): nat
    requires |matched| == |txids| && hi <= |txids|
  {
    |Matches(txids, matched, lo, hi)|
  }

  /** Number of traversed nodes that have no right child. */
  ghost function Lonely(n: nat, matched: seq<bool>, h: nat, pos: nat): nat
    requires |matched| == n && pos < Width(n, h)
  {
    if h == 0 || !AnyMatch(n, matched, h, pos) then 0
    else
      ChildBounds(n, h, pos);
      Lonely(n, matched, h - 1, 2 * pos) +
      if 2 * pos + 1 < Width(n, h - 1) then Lonely(n, matched, h - 1, 2 * pos + 1) else 1
  }

  lemma {:induction false} SomeMatchCounts(txids: seq<Hash>, matched: seq<bool>, lo: nat, hi: nat, p: nat)
    requires |matched| == |txids| && lo <= p < hi <= |txids| && matched[p]
    ensures Count(txids, matched, lo, hi) >= 1
    decreases p - lo
  {
    if lo < p { SomeMatchCounts(txids, matched, lo + 1, hi, p); }
  }

  lemma {:induction false} BuildSizes(pair: (Hash, Hash) -> Hash, txids: seq<Hash>, matched: seq<bool>, h: nat, pos: nat)
    requires |matched| == |txids| && pos < Width(|txids|, h)
    ensures var b := Build(pair, txids, matched, h, pos);
            && 1 <= |b.hashes| <= Last(|txids|, h, pos) - First(h, pos)
            && |b.hashes| <= 1 + Count(txids, matched, First(h, pos), Last(|txids|, h, pos)) * h
            && |b.bits| == 2 * |b.hashes| - 1 + Lonely(|txids|, matched, h, pos)
    decreases h, 1
  {
    var n := |txids|;
    WidthBound(n, h, pos);
    if h > 0 && AnyMatch(n, matched, h, pos) {
      BuildSizesInner(pair, txids, matched, h, pos);
    } else {
      LeavesBelow(n, h, pos);
    }
  }

  lemma LeavesBelow(n: nat, h: nat, pos: nat)
    requires pos < Width(n, h)
    ensures First(h, pos) < Last(n, h, pos) <= n
  {
    WidthBound(n, h, pos);
    Pow2Positive(h);
    assert (pos + 1) * Pow2(h) == pos * Pow2(h) + Pow2(h);
  }

  lemma {:induction false} BuildSizesInner(pair: (Hash, Hash) -> Hash, txids: seq<Hash>, matched: seq<bool>, h: nat, pos: nat)
    requires |matched| == |txids| && pos < Width(|txids|, h) && h > 0 && AnyMatch(|txids|, matched, h, pos)
    ensures var b := Build(pair, txids, matched, h, pos);
            && 1 <= |b.hashes| <= Last(|txids|, h, pos) - First(h, pos)
            && |b.hashes| <= 1 + Count(txids, matched, First(h, pos), Last(|txids|, h, pos)) * h
            && |b.bits| == 2 * |b.hashes| - 1 + Lonely(|txids|, matched, h, pos)
    decreases h, 0
  {
    var n := |txids|;
    MatchInRange(txids, matched, h, pos);
    hide First, Last, AnyMatch, Count;
    Ranges(n, h, pos);
    LeavesBelow(n, h, pos);
    BuildSizes(pair, txids, matched, h - 1, 2 * pos);
    var c := Count(txids, matched, First(h, pos), Last(n, h, pos));
    if 2 * pos + 1 < Width(n, h - 1) {
      BuildSizes(pair, txids, matched, h - 1, 2 * pos + 1);
      CountSplit(txids, matched, First(h, pos), First(h - 1, 2 * pos + 1), Last(n, h, pos));
      var cl := Count(txids, matched, First(h, pos), First(h - 1, 2 * pos + 1));
      var cr := Count(txids, matched, First(h - 1, 2 * pos + 1), Last(n, h, pos));
      HashBound(|Build(pair, txids, matched, h - 1, 2 * pos).hashes|, |Build(pair, txids, matched, h - 1, 2 * pos + 1).hashes|, cl, cr, h);
    } else {
      HashBound(|Build(pair, txids, matched, h - 1, 2 * pos).hashes| - 1, 1, c, 0, h);
    }
  }

  lemma HashBound(hl: int, hr: int, cl: nat, cr: nat, h: nat)
    requires h >= 1 && cl + cr >= 1 && hl <= 1 + cl * (h - 1) && hr <= 1 + cr * (h - 1)
    ensures hl + hr <= 1 + (cl + cr) * h
  {
    assert cl * (h - 1) + cr * (h - 1) == (cl + cr) * (h - 1) == (cl + cr) * h - (cl + cr);
  }

  lemma MatchInRange(txids: seq<Hash>, matched: seq<bool>, h: nat, pos: nat)
    requires |matched| == |txids| && pos < Width(|txids|, h) && AnyMatch(|txids|, matched, h, pos)
    ensures Last(|txids|, h, pos) <= |txids| && Count(txids, matched, First(h, pos), Last(|txids|, h, pos)) >= 1
  {
    AnyMatchRange(|txids|, matched, h, pos);
    var p :| First(h, pos) <= p < Last(|txids|, h, pos) && matched[p];
    SomeMatchCounts(txids, matched, First(h, pos), Last(|txids|, h, pos), p);
  }

  lemma CountSplit(txids: seq<Hash>, matched: seq<bool>, lo: nat, mid: nat, hi: nat)
    requires |matched| == |txids| && lo <= mid <= hi <= |txids|
    ensures Count(txids, matched, lo, hi) == Count(txids, matched, lo, mid) + Count(txids, matched, mid, hi)
  {
    MatchesSplit(txids, matched, lo, mid, hi);
  }

  /** A node whose leaves all exist has no lonely node below it. */
  lemma {:induction false} CompleteNotLonely(n: nat, matched: seq<bool>, h: nat, pos: nat)
    requires |matched| == n && (pos + 1) * Pow2(h) <= n && pos < Width(n, h)
    ensures Lonely(n, matched, h, pos) == 0
  {
    if h > 0 && AnyMatch(n, matched, h, pos) {
      ChildBounds(n, h, pos);
      var q := Pow2(h - 1);
      assert (2 * pos + 1) * q + q == (2 * pos + 2) * q == (pos + 1) * Pow2(h);
      Pow2Positive(h - 1);
      WidthBound(n, h - 1, 2 * pos + 1);
      CompleteNotLonely(n, matched, h - 1, 2 * pos);
      CompleteNotLonely(n, matched, h - 1, 2 * pos + 1);
    }
  }

  /** At most one lonely node per height. */
  lemma {:induction false} LonelyAtMostHeight(n: nat, matched: seq<bool>, h: nat, pos: nat)
    requires |matched| == n && pos < Width(n, h)
    ensures Lonely(n, matched, h, pos) <= h
  {
    if h > 0 && AnyMatch(n, matched, h, pos) {
      ChildBounds(n, h, pos);
      LonelyAtMostHeight(n, matched, h - 1, 2 * pos);
      if 2 * pos + 1 < Width(n, h - 1) {
        LonelyAtMostHeight(n, matched, h - 1, 2 * pos + 1);
        WidthBound(n, h - 1, 2 * pos + 1);
        CompleteNotLonely(n, matched, h - 1, 2 * pos);
      }
    }
  }

  /**
   * Building from distinct txids and extracting returns the root of the full
   * tree and exactly the matched txids with their positions, in order, or two
   * equal nodes whose descent yields a collision.
   */
  lemma RoundTrip(pair: (Hash, Hash) -> Hash, maxTx: nat, txids: seq<Hash>, matched: seq<bool>, padding: seq<bool>)
    requires |txids| == |matched| && 0 < |txids| <= maxTx && Distinct(txids)
    requires Width(|txids|, Height(|txids|)) == 1
    requires var b := Build(pair, txids, matched, Height(|txids|), 0);
             |padding| == 0 || |b.bits + padding| == (|b.bits| + 7) / 8 * 8
    ensures var b := Build(pair, txids, matched, Height(|txids|), 0);
            ExtractMatches(pair, maxTx, Partial(|txids|, b.bits + padding, b.hashes)) ==
              Accepted(CalcHash(pair, txids, Height(|txids|), 0), Matches(txids, matched, 0, |txids|))
            || exists h: nat, p: nat, q: nat :: p < q < Width(|txids|, h) &&
                 var c := FindTwin(pair, txids, h, p, q); c.Some? && IsCollision(pair, c.value)
  {
    var n := |txids|;
    var top := Height(n);
    var b := Build(pair, txids, matched, top, 0);
    var t := Partial(n, b.bits + padding, b.hashes);
    if TwinFree(pair, txids) {
      BuildSizes(pair, txids, matched, top, 0);
      WidthBound(n, top, 1);
      assert Last(n, top, 0) == n && First(top, 0) == 0;
      assert t.bits[0..0 + |b.bits|] == b.bits && t.hashes[0..0 + |b.hashes|] == b.hashes;
      ExtractBuilt(pair, t, txids, matched, top, 0, 0, 0);
    } else {
      var h: nat, p: nat, q: nat :| p < q < Width(n, h) && CalcHash(pair, txids, h, p) == CalcHash(pair, txids, h, q);
      TwinsCollide(pair, txids, h, p, q);
    }
  }

  // ----- the documented bit bound ------------------------------------------------------------

  /** Some match lies under the last node of a height that has an odd number of nodes. */
  ghost predicate MatchUnderOdd(n: nat, matched: seq<bool>, k: nat)
    requires |matched| == n
  {
    Width(n, k) % 2 == 1 && Width(n, k + 1) > 0 && AnyMatch(n, matched, k + 1, Width(n, k + 1) - 1)
  }

  /** The last node of a height sits below the last node of the next. */
  lemma LastChild(n: nat, h: nat)
    requires h > 0 && Width(n, h) > 0
    ensures var pos := Width(n, h) - 1;
            Width(n, h - 1) == if 2 * pos + 1 < Width(n, h - 1) then 2 * pos + 2 else 2 * pos + 1
  {
    var pos := Width(n, h) - 1;
    WidthBound(n, h, pos + 1);
    WidthBound(n, h, pos);
    WidthBound(n, h - 1, 2 * pos);
    WidthBound(n, h - 1, 2 * pos + 2);
    ChildBounds(n, h, pos);
    ChildBounds(n, h, pos + 1);
  }

  /** A match under a last node is a match under every last node above it. */
  lemma {:induction false} LastMatchUp(n: nat, matched: seq<bool>, k: nat, h: nat)
    requires |matched| == n && k <= h && Width(n, k) > 0 && Width(n, h) > 0
    requires AnyMatch(n, matched, k, Width(n, k) - 1)
    ensures AnyMatch(n, matched, h, Width(n, h) - 1)
    decreases h - k
  {
    if k < h {
      WidthBound(n, k + 1, 0);
      WidthBound(n, h, 0);
      LastChild(n, k + 1);
      AnyMatchSplit(n, matched, k + 1, Width(n, k + 1) - 1);
      LastMatchUp(n, matched, k + 1, h);
    }
  }

  /** The levels below h that cost an extra bit. */
  ghost function OddMatches(n: nat, matched: seq<bool>, h: nat): set<nat>
    requires |matched| == n
  {
    set k: nat | k < h && MatchUnderOdd(n, matched, k)
  }

  lemma OddMatchesNext(n: nat, matched: seq<bool>, h: nat)
    requires |matched| == n && h > 0
    ensures |OddMatches(n, matched, h)| == |OddMatches(n, matched, h - 1)| + if MatchUnderOdd(n, matched, h - 1) then 1 else 0
  {
    hide MatchUnderOdd;
    var below := OddMatches(n, matched, h - 1);
    assert OddMatches(n, matched, h) == if MatchUnderOdd(n, matched, h - 1) then below + {h - 1} else below;
  }

  /** Lonely nodes are the last nodes of odd levels with a match under their parent, one a level. */
  lemma {:induction false} LonelyIs(n: nat, matched: seq<bool>, h: nat)
    requires |matched| == n > 0 && Width(n, h) > 0
    ensures Lonely(n, matched, h, Width(n, h) - 1) == |OddMatches(n, matched, h)|
  {
    hide AnyMatch, Width, Pow2, OddMatches;
    var pos := Width(n, h) - 1;
    if h == 0 {
      NoneBelowZero(n, matched);
    } else {
      WidthBound(n, h - 1, 0);
      LastChild(n, h);
      ChildBounds(n, h, pos);
      OddMatchesNext(n, matched, h);
      if AnyMatch(n, matched, h, pos) {
        LonelyIs(n, matched, h - 1);
        if 2 * pos + 1 < Width(n, h - 1) {
          WidthBound(n, h - 1, 2 * pos + 1);
          CompleteNotLonely(n, matched, h - 1, 2 * pos);
        } else {
          assert MatchUnderOdd(n, matched, h - 1);
        }
      } else {
        NoOddMatches(n, matched, h);
      }
    }
  }

  lemma NoneBelowZero(n: nat, matched: seq<bool>)
    requires |matched| == n
    ensures OddMatches(n, matched, 0) == {}
  {
  }

  lemma NoOddMatches(n: nat, matched: seq<bool>, h: nat)
    requires |matched| == n > 0 && Width(n, h) > 0 && !AnyMatch(n, matched, h, Width(n, h) - 1)
    ensures OddMatches(n, matched, h) == {}
  {
    hide AnyMatch, Width, Pow2;
    forall k: nat | k < h ensures !MatchUnderOdd(n, matched, k) {
      if MatchUnderOdd(n, matched, k) { LastMatchUp(n, matched, k + 1, h); }
    }
  }

  lemma LonelyIff(n: nat, matched: seq<bool>, h: nat)
    requires |matched| == n > 0 && Width(n, h) > 0
    ensures Lonely(n, matched, h, Width(n, h) - 1) == 0 <==> forall k: nat :: k < h ==> !MatchUnderOdd(n, matched, k)
  {
    hide Lonely, MatchUnderOdd, Width;
    LonelyIs(n, matched, h);
    var odd := OddMatches(n, matched, h);
    if forall k: nat :: k < h ==> !MatchUnderOdd(n, matched, k) { assert odd == {}; }
    if odd == {} {
      forall k: nat | k < h ensures !MatchUnderOdd(n, matched, k) { assert k !in odd; }
    }
  }

  /**
   * The documented bound of 2*N-1 flag bits for N hashes holds exactly when no
   * match lies under a last, childless-on-the-right node; in general the bound
   * is 2*N-1 plus the height.
   */
  lemma BitBoundIff(pair: (Hash, Hash) -> Hash, txids: seq<Hash>, matched: seq<bool>)
    requires |matched| == |txids| > 0
    ensures Width(|txids|, Height(|txids|)) == 1
    ensures var b := Build(pair, txids, matched, Height(|txids|), 0);
            && |b.bits| <= 2 * |b.hashes| - 1 + Height(|txids|)
            && |b.hashes| <= |txids|
            && |b.hashes| <= 1 + Count(txids, matched, 0, |txids|) * Height(|txids|)
            && (|b.bits| <= 2 * |b.hashes| - 1 <==> forall k: nat :: k < Height(|txids|) ==> !MatchUnderOdd(|txids|, matched, k))
  {
    var n := |txids|;
    var top := Height(n);
    WidthBound(n, top, 0);
    WidthBound(n, top, 1);
    BuildSizes(pair, txids, matched, top, 0);
    LonelyAtMostHeight(n, matched, top, 0);
    LonelyIff(n, matched, top);
    assert Last(n, top, 0) == n && First(top, 0) == 0;
  }

  /** Three txids, only the last matched: one bit more than documented. */
  lemma BitBoundFails(pair: (Hash, Hash) -> Hash, a: Hash, b: Hash, c: Hash)
    ensures Width(3, Height(3)) == 1
    ensures var t := Build(pair, [a, b, c], [false, false, true], Height(3), 0); |t.bits| > 2 * |t.hashes| - 1
  {
    var m := [false, false, true];
    BitBoundIff(pair, [a, b, c], m);
    assert Pow2(1) == 2 && Pow2(0) == 1;
    assert Width(3, 0) == 3 && Width(3, 1) == 2;
    assert m[2];
    assert AnyMatch(3, m, 1, 1);
    assert MatchUnderOdd(3, m, 0);
  }

  // ----- the documented size bound ------------------------------------------------------------

  /** Length of a count on the wire. */
  function CompactSize(n: nat): nat {
    if n < 253 then 1 else if n <= 0xFFFF then 3 else if n <= 0xFFFF_FFFF then 5 else 9
  }

  /** The count of transactions, the hashes and the packed bits, each list after its length. */
  function EncodedSize(hashes: nat, bits: nat): nat {
    4 + CompactSize(hashes) + 32 * hashes + CompactSize((bits + 7) / 8) + (bits + 7) / 8
  }

  /** 10 + ceil(32.25 * n) */
  function DocumentedSize(n: nat): nat {
    10 + 32 * n + (n + 3) / 4
  }

  /** Extra bits that the rounding to bytes and the length bytes leave room for. */
  predicate RoomForExtra(hashes: nat, extra: nat) {
    hashes < 253 ||
    (hashes <= 0xFFFF && (2 * hashes + 6) % 8 + extra < if (2 * hashes + 6 + extra) / 8 < 253 then 24 else 8)
  }

  lemma EighthsSplit(a: nat, extra: nat)
    ensures (a + extra) / 8 == a / 8 + (a % 8 + extra) / 8
  {
  }

  lemma SizeFits(hashes: nat, extra: nat)
    requires hashes >= 1 && extra <= 32
    ensures EncodedSize(hashes, 2 * hashes - 1 + extra) <= DocumentedSize(hashes) <==> RoomForExtra(hashes, extra)
  {
    EighthsSplit(2 * hashes + 6, extra);
    assert (2 * hashes + 6) / 8 == (hashes + 3) / 4;
  }

  lemma Pow2Byte(a: nat)
    ensures Pow2(a + 8) == 256 * Pow2(a) && Pow2(0) == 1
  {
    assert Pow2(a + 2) == 4 * Pow2(a);
    assert Pow2(a + 4) == 4 * Pow2(a + 2);
    assert Pow2(a + 6) == 4 * Pow2(a + 4);
    assert Pow2(a + 8) == 4 * Pow2(a + 6);
  }

  lemma HeightAtMost32(n: nat)
    requires n <= 0xFFFF_FFFF
    ensures Height(n) <= 32
  {
    hide Width, HeightFrom, Pow2;
    WidthBound(n, 32, 1);
    Pow2Byte(0);
    Pow2Byte(8);
    Pow2Byte(16);
    Pow2Byte(24);
  }

  /**
   * The documented bound of 10 + ceil(32.25 * N) bytes for N hashes holds exactly
   * when the extra bits, one for each odd level with a match under the parent of
   * its last node, find room: always below 253 hashes, never above 65535, and in
   * between by what is left of the last byte.
   */
  lemma SizeBoundIff(pair: (Hash, Hash) -> Hash, txids: seq<Hash>, matched: seq<bool>)
    requires 0 < |matched| == |txids| <= 0xFFFF_FFFF
    ensures Width(|txids|, Height(|txids|)) == 1
    ensures var b := Build(pair, txids, matched, Height(|txids|), 0);
            EncodedSize(|b.hashes|, |b.bits|) <= DocumentedSize(|b.hashes|) <==>
              RoomForExtra(|b.hashes|, |OddMatches(|txids|, matched, Height(|txids|))|)
  {
    hide EncodedSize, DocumentedSize, RoomForExtra, OddMatches;
    var n := |txids|;
    var top := Height(n);
    WidthBound(n, top, 0);
    BuildSizes(pair, txids, matched, top, 0);
    LonelyAtMostHeight(n, matched, top, 0);
    HeightAtMost32(n);
    LonelyIs(n, matched, top);
    SizeFits(|Build(pair, txids, matched, top, 0).hashes|, Lonely(n, matched, top, 0));
  }

  ghost predicate AllMatched(matched: seq<bool>) {
    forall i :: 0 <= i < |matched| ==> matched[i]
  }

  lemma AllMatchedAny(n: nat, matched: seq<bool>, h: nat, pos: nat)
    requires |matched| == n && AllMatched(matched) && pos < Width(n, h)
    ensures AnyMatch(n, matched, h, pos)
  {
    WidthBound(n, h, pos);
    Pow2Positive(h);
    assert (pos + 1) * Pow2(h) == pos * Pow2(h) + Pow2(h);
    assert matched[pos * Pow2(h)];
  }

  /** With every leaf matched the hashes are the leaves. */
  lemma {:induction false} AllMatchedHashes(pair: (Hash, Hash) -> Hash, txids: seq<Hash>, matched: seq<bool>, h: nat, pos: nat)
    requires |matched| == |txids| && AllMatched(matched) && pos < Width(|txids|, h)
    ensures |Build(pair, txids, matched, h, pos).hashes| == Last(|txids|, h, pos) - First(h, pos)
  {
    var n := |txids|;
    LeavesBelow(n, h, pos);
    AllMatchedAny(n, matched, h, pos);
    if h > 0 {
      hide AnyMatch, First, Last, Width, Pow2;
      Ranges(n, h, pos);
      ChildBounds(n, h, pos);
      AllMatchedHashes(pair, txids, matched, h - 1, 2 * pos);
      if 2 * pos + 1 < Width(n, h - 1) { AllMatchedHashes(pair, txids, matched, h - 1, 2 * pos + 1); }
    }
  }

  /** Number of levels below h with an odd number of nodes. */
  function OddLevels(n: nat, h: nat): nat {
    if h == 0 then 0 else OddLevels(n, h - 1) + Width(n, h - 1) % 2
  }

  lemma {:induction false} AllMatchedLonely(n: nat, matched: seq<bool>, h: nat)
    requires |matched| == n > 0 && AllMatched(matched) && Width(n, h) > 0
    ensures Lonely(n, matched, h, Width(n, h) - 1) == OddLevels(n, h)
  {
    hide AnyMatch, Width, Pow2, AllMatched;
    var pos := Width(n, h) - 1;
    AllMatchedAny(n, matched, h, pos);
    if h > 0 {
      WidthBound(n, h - 1, 0);
      LastChild(n, h);
      ChildBounds(n, h, pos);
      AllMatchedLonely(n, matched, h - 1);
      if 2 * pos + 1 < Width(n, h - 1) {
        WidthBound(n, h - 1, 2 * pos + 1);
        CompleteNotLonely(n, matched, h - 1, 2 * pos);
      }
    }
  }

  lemma Widths1012()
    ensures Width(1012, 0) == 1012 && Width(1012, 1) == 506 && Width(1012, 2) == 253 && Width(1012, 3) == 127
    ensures Width(1012, 4) == 64 && Width(1012, 5) == 32 && Width(1012, 6) == 16 && Width(1012, 7) == 8
    ensures Width(1012, 8) == 4 && Width(1012, 9) == 2 && Width(1012, 10) == 1
  {
    assert Pow2(0) == 1 && Pow2(1) == 2 && Pow2(2) == 4 && Pow2(3) == 8;
    assert Pow2(4) == 16 && Pow2(5) == 32 && Pow2(6) == 64 && Pow2(7) == 128;
    assert Pow2(8) == 256 && Pow2(9) == 512 && Pow2(10) == 1024;
  }

  lemma Height1012()
    ensures Height(1012) == 10 && OddLevels(1012, 10) == 2
    ensures Width(1012, 10) == 1 && Last(1012, 10, 0) == 1012 && First(10, 0) == 0
  {
    hide Width, HeightFrom, Pow2;
    Widths1012();
    WidthBound(1012, 10, 1);
    assert OddLevels(1012, 4) == 2;
    assert OddLevels(1012, 7) == 2;
    var h := Height(1012);
    assert Width(1012, h) <= 1;
    assert h >= 10;
  }

  /** All of 1012 transactions matched: one byte more than documented. */
  lemma SizeBoundFails(pair: (Hash, Hash) -> Hash, txids: seq<Hash>, matched: seq<bool>)
    requires |txids| == |matched| == 1012 && AllMatched(matched)
    ensures Width(|txids|, Height(|txids|)) == 1
    ensures var b := Build(pair, txids, matched, Height(|txids|), 0);
            |b.hashes| == 1012 && EncodedSize(|b.hashes|, |b.bits|) == 32648 && DocumentedSize(|b.hashes|) == 32647
  {
    hide Height, OddLevels, Lonely, Build, Width, Pow2, Last, First, AllMatched, Count;
    Height1012();
    BuildSizes(pair, txids, matched, 10, 0);
    AllMatchedHashes(pair, txids, matched, 10, 0);
    AllMatchedLonely(1012, matched, 10);
  }
}
