/**
 * Which partial Merkle trees are accepted: exactly those whose bits spell a
 * shape of the tree and whose hashes label its tips, nothing left over.  An
 * accepted object with a real root is therefore determined by its shape.
 */
module MerkleShape {
  import opened MerkleTree

  /** A node given by its hash, or opened into two children or an only child. */
  datatype Shape = Tip(matched: bool) | Fork(left: Shape, right: Shape) | Lone(child: Shape)

  /** Only leaves are matched, and a node has the children the tree of n leaves gives it. */
  ghost predicate Fits(s: Shape, n: nat, h: nat, pos: nat)
    decreases s
  {
    match s
    case Tip(matched) => matched ==> h == 0
    case Fork(l, r) => h > 0 && 2 * pos + 1 < Width(n, h - 1) && Fits(l, n, h - 1, 2 * pos) && Fits(r, n, h - 1, 2 * pos + 1)
    case Lone(c) => h > 0 && 2 * pos + 1 >= Width(n, h - 1) && Fits(c, n, h - 1, 2 * pos)
  }

  /** Depth first, one bit a node. */
  ghost function BitsOf(s: Shape): seq<bool> {
    match s
    case Tip(matched) => [matched]
    case Fork(l, r) => [true] + (BitsOf(l) + BitsOf(r))
    case Lone(c) => [true] + BitsOf(c)
  }

  ghost function Tips(s: Shape): nat {
    match s
    case Tip(_) => 1
    case Fork(l, r) => Tips(l) + Tips(r)
    case Lone(c) => Tips(c)
  }

  /** The hash of the node when the tips carry these hashes. */
  ghost function ValueOf(pair: (Hash, Hash) -> Hash, s: Shape, hashes: seq<Hash>): Hash
    requires |hashes| == Tips(s)
  {
    match s
    case Tip(_) => hashes[0]
    case Fork(l, r) => pair(ValueOf(pair, l, hashes[..Tips(l)]), ValueOf(pair, r, hashes[Tips(l)..]))
    case Lone(c) => pair(ValueOf(pair, c, hashes), ValueOf(pair, c, hashes))
  }

  /** No node has two children with the same hash. */
  ghost predicate Clean(pair: (Hash, Hash) -> Hash, s: Shape, hashes: seq<Hash>)
    requires |hashes| == Tips(s)
  {
    match s
    case Tip(_) => true
    case Fork(l, r) =>
      && Clean(pair, l, hashes[..Tips(l)]) && Clean(pair, r, hashes[Tips(l)..])
      && ValueOf(pair, l, hashes[..Tips(l)]) != ValueOf(pair, r, hashes[Tips(l)..])
    case Lone(c) => Clean(pair, c, hashes)
  }

  ghost function MatchedTips(s: Shape, pos: nat, hashes: seq<Hash>): seq<(nat, Hash)>
    requires |hashes| == Tips(s)
  {
    match s
    case Tip(matched) => if matched then [(pos, hashes[0])] else []
    case Fork(l, r) => MatchedTips(l, 2 * pos, hashes[..Tips(l)]) + MatchedTips(r, 2 * pos + 1, hashes[Tips(l)..])
    case Lone(c) => MatchedTips(c, 2 * pos, hashes)
  }

  // ----- the walk follows the shape --------------------------------------------------------

  /** The received object holds the bits of the shape and enough hashes at the cursors. */
  ghost predicate At(t: Partial, s: Shape, bitsUsed: nat, hashUsed: nat) {
    Continues(t.bits, bitsUsed, BitsOf(s)) && hashUsed + Tips(s) <= |t.hashes|
  }

  ghost function Labels(t: Partial, s: Shape, hashUsed: nat): (r: seq<Hash>)
    requires hashUsed + Tips(s) <= |t.hashes|
    ensures |r| == Tips(s)
  {
    t.hashes[hashUsed..hashUsed + Tips(s)]
  }

  ghost function WalkOf(pair: (Hash, Hash) -> Hash, t: Partial, s: Shape, pos: nat, bitsUsed: nat, hashUsed: nat): Walk
    requires hashUsed + Tips(s) <= |t.hashes|
  {
    var hs := Labels(t, s, hashUsed);
    Walk(!Clean(pair, s, hs), ValueOf(pair, s, hs), bitsUsed + |BitsOf(s)|, hashUsed + Tips(s), MatchedTips(s, pos, hs))
  }

  lemma SliceSplit<T>(whole: seq<T>, from: nat, a: nat, b: nat)
    requires from + a + b <= |whole|
    ensures whole[from..from + (a + b)][..a] == whole[from..from + a]
    ensures whole[from..from + (a + b)][a..] == whole[from + a..from + a + b]
  {
  }

  lemma OpenedBit(bits: seq<bool>, from: nat, below: seq<bool>)
    requires Continues(bits, from, [true] + below)
    ensures from < |bits| && bits[from] && Continues(bits, from + 1, below)
  {
    ContinuesSplit(bits, from, [true], below);
    assert bits[from..from + 1][0] == bits[from];
  }

  lemma ForkAt(t: Partial, l: Shape, r: Shape, bitsUsed: nat, hashUsed: nat)
    requires At(t, Fork(l, r), bitsUsed, hashUsed)
    ensures bitsUsed < |t.bits| && t.bits[bitsUsed]
    ensures At(t, l, bitsUsed + 1, hashUsed) && At(t, r, bitsUsed + 1 + |BitsOf(l)|, hashUsed + Tips(l))
    ensures |BitsOf(Fork(l, r))| == 1 + |BitsOf(l)| + |BitsOf(r)|
    ensures var hs := Labels(t, Fork(l, r), hashUsed);
            hs[..Tips(l)] == Labels(t, l, hashUsed) && hs[Tips(l)..] == Labels(t, r, hashUsed + Tips(l))
  {
    hide Continues;
    OpenedBit(t.bits, bitsUsed, BitsOf(l) + BitsOf(r));
    ContinuesSplit(t.bits, bitsUsed + 1, BitsOf(l), BitsOf(r));
    SliceSplit(t.hashes, hashUsed, Tips(l), Tips(r));
  }

  lemma LoneAt(t: Partial, c: Shape, bitsUsed: nat, hashUsed: nat)
    requires At(t, Lone(c), bitsUsed, hashUsed)
    ensures bitsUsed < |t.bits| && t.bits[bitsUsed] && At(t, c, bitsUsed + 1, hashUsed)
    ensures |BitsOf(Lone(c))| == 1 + |BitsOf(c)| && Labels(t, Lone(c), hashUsed) == Labels(t, c, hashUsed)
  {
    hide Continues;
    OpenedBit(t.bits, bitsUsed, BitsOf(c));
  }

  lemma WalkOfFork(pair: (Hash, Hash) -> Hash, t: Partial, l: Shape, r: Shape, pos: nat, bitsUsed: nat, hashUsed: nat)
    requires At(t, Fork(l, r), bitsUsed, hashUsed)
    ensures hashUsed + Tips(l) + Tips(r) <= |t.hashes|
    ensures var w := WalkOf(pair, t, l, 2 * pos, bitsUsed + 1, hashUsed);
            var v := WalkOf(pair, t, r, 2 * pos + 1, w.bitsUsed, w.hashUsed);
            WalkOf(pair, t, Fork(l, r), pos, bitsUsed, hashUsed) ==
              Walk(w.bad || v.bad || v.hash == w.hash, pair(w.hash, v.hash), v.bitsUsed, v.hashUsed, w.found + v.found)
  {
    hide At, Labels, BitsOf, Clean, ValueOf, MatchedTips;
    AtTips(t, Fork(l, r), bitsUsed, hashUsed);
    ForkAt(t, l, r, bitsUsed, hashUsed);
    OpenedFork(pair, l, r, pos, Labels(t, Fork(l, r), hashUsed));
  }

  lemma OpenedFork(pair: (Hash, Hash) -> Hash, l: Shape, r: Shape, pos: nat, hs: seq<Hash>)
    requires |hs| == Tips(l) + Tips(r)
    ensures var a, b := hs[..Tips(l)], hs[Tips(l)..];
            && ValueOf(pair, Fork(l, r), hs) == pair(ValueOf(pair, l, a), ValueOf(pair, r, b))
            && (Clean(pair, Fork(l, r), hs) <==>
                  Clean(pair, l, a) && Clean(pair, r, b) && ValueOf(pair, l, a) != ValueOf(pair, r, b))
            && MatchedTips(Fork(l, r), pos, hs) == MatchedTips(l, 2 * pos, a) + MatchedTips(r, 2 * pos + 1, b)
  {
  }

  lemma WalkOfLone(pair: (Hash, Hash) -> Hash, t: Partial, c: Shape, pos: nat, bitsUsed: nat, hashUsed: nat)
    requires At(t, Lone(c), bitsUsed, hashUsed)
    ensures hashUsed + Tips(c) <= |t.hashes|
    ensures var w := WalkOf(pair, t, c, 2 * pos, bitsUsed + 1, hashUsed);
            WalkOf(pair, t, Lone(c), pos, bitsUsed, hashUsed) ==
              Walk(w.bad, pair(w.hash, w.hash), w.bitsUsed, w.hashUsed, w.found)
  {
    hide At, Labels, BitsOf;
    AtTips(t, Lone(c), bitsUsed, hashUsed);
    LoneAt(t, c, bitsUsed, hashUsed);
  }

  lemma AtTips(t: Partial, s: Shape, bitsUsed: nat, hashUsed: nat)
    requires At(t, s, bitsUsed, hashUsed)
    ensures hashUsed + Tips(s) <= |t.hashes|
  {
  }

  lemma WalkOfEnds(pair: (Hash, Hash) -> Hash, t: Partial, s: Shape, pos: nat, bitsUsed: nat, hashUsed: nat)
    requires hashUsed + Tips(s) <= |t.hashes|
    ensures var w := WalkOf(pair, t, s, pos, bitsUsed, hashUsed);
            w.bitsUsed == bitsUsed + |BitsOf(s)| && w.hashUsed == hashUsed + Tips(s)
  {
    hide BitsOf, Tips;
  }

  lemma {:induction false} WalkFollows(pair: (Hash, Hash) -> Hash, t: Partial, s: Shape, h: nat, pos: nat, bitsUsed: nat, hashUsed: nat)
    requires Fits(s, t.n, h, pos) && At(t, s, bitsUsed, hashUsed)
    ensures hashUsed + Tips(s) <= |t.hashes|
    ensures Extract(pair, t, h, pos, bitsUsed, hashUsed) == WalkOf(pair, t, s, pos, bitsUsed, hashUsed)
    decreases s
  {
    hide Width, Extract, WalkOf, At, BitsOf;
    AtTips(t, s, bitsUsed, hashUsed);
    match s
    case Tip(matched) =>
      WalkFollowsTip(pair, t, matched, h, pos, bitsUsed, hashUsed);
    case Fork(l, r) =>
      ForkAt(t, l, r, bitsUsed, hashUsed);
      WalkFollows(pair, t, l, h - 1, 2 * pos, bitsUsed + 1, hashUsed);
      WalkOfEnds(pair, t, l, 2 * pos, bitsUsed + 1, hashUsed);
      WalkFollows(pair, t, r, h - 1, 2 * pos + 1, bitsUsed + 1 + |BitsOf(l)|, hashUsed + Tips(l));
      WalkOfFork(pair, t, l, r, pos, bitsUsed, hashUsed);
      ExtractStep(pair, t, h, pos, bitsUsed, hashUsed);
    case Lone(c) =>
      LoneAt(t, c, bitsUsed, hashUsed);
      WalkFollows(pair, t, c, h - 1, 2 * pos, bitsUsed + 1, hashUsed);
      WalkOfLone(pair, t, c, pos, bitsUsed, hashUsed);
      ExtractStep(pair, t, h, pos, bitsUsed, hashUsed);
  }

  lemma WalkFollowsTip(pair: (Hash, Hash) -> Hash, t: Partial, matched: bool, h: nat, pos: nat, bitsUsed: nat, hashUsed: nat)
    requires matched ==> h == 0
    requires At(t, Tip(matched), bitsUsed, hashUsed)
    ensures Extract(pair, t, h, pos, bitsUsed, hashUsed) == WalkOf(pair, t, Tip(matched), pos, bitsUsed, hashUsed)
  {
    TipBit(t.bits, bitsUsed, matched);
  }

  lemma TipBit(bits: seq<bool>, from: nat, matched: bool)
    requires Continues(bits, from, [matched])
    ensures from < |bits| && bits[from] == matched
  {
    assert bits[from..from + 1][0] == bits[from];
  }

  lemma ContinuesJoin<T>(whole: seq<T>, from: nat, a: seq<T>, b: seq<T>)
    requires Continues(whole, from, a) && Continues(whole, from + |a|, b)
    ensures Continues(whole, from, a + b)
  {
    assert whole[from..from + |a + b|] == whole[from..from + |a|] + whole[from + |a|..from + |a| + |b|];
  }

  lemma OneBit(bits: seq<bool>, from: nat)
    requires from < |bits| && bits[from]
    ensures Continues(bits, from, [true])
  {
  }

  lemma ForkJoin(t: Partial, l: Shape, r: Shape, bitsUsed: nat, hashUsed: nat)
    requires bitsUsed < |t.bits| && t.bits[bitsUsed]
    requires At(t, l, bitsUsed + 1, hashUsed) && At(t, r, bitsUsed + 1 + |BitsOf(l)|, hashUsed + Tips(l))
    ensures At(t, Fork(l, r), bitsUsed, hashUsed)
  {
    hide Continues;
    OneBit(t.bits, bitsUsed);
    ContinuesJoin(t.bits, bitsUsed + 1, BitsOf(l), BitsOf(r));
    ContinuesJoin(t.bits, bitsUsed, [true], BitsOf(l) + BitsOf(r));
  }

  lemma LoneJoin(t: Partial, c: Shape, bitsUsed: nat, hashUsed: nat)
    requires bitsUsed < |t.bits| && t.bits[bitsUsed] && At(t, c, bitsUsed + 1, hashUsed)
    ensures At(t, Lone(c), bitsUsed, hashUsed)
  {
    hide Continues;
    OneBit(t.bits, bitsUsed);
    ContinuesJoin(t.bits, bitsUsed, [true], BitsOf(c));
  }

  lemma TipRead(pair: (Hash, Hash) -> Hash, t: Partial, h: nat, pos: nat, bitsUsed: nat, hashUsed: nat)
    requires !Extract(pair, t, h, pos, bitsUsed, hashUsed).bad
    ensures bitsUsed < |t.bits|
    ensures h == 0 || !t.bits[bitsUsed] ==> At(t, Tip(t.bits[bitsUsed]), bitsUsed, hashUsed)
  {
  }

  /** A walk that does not run out of bits or hashes has read a shape. */
  lemma {:induction false} WalkReads(pair: (Hash, Hash) -> Hash, t: Partial, h: nat, pos: nat, bitsUsed: nat, hashUsed: nat) returns (s: Shape)
    requires !Extract(pair, t, h, pos, bitsUsed, hashUsed).bad
    ensures Fits(s, t.n, h, pos) && At(t, s, bitsUsed, hashUsed)
    decreases h
  {
    hide Width, Extract, At, WalkOf, BitsOf, Tips;
    TipRead(pair, t, h, pos, bitsUsed, hashUsed);
    if h == 0 || !t.bits[bitsUsed] {
      s := Tip(t.bits[bitsUsed]);
    } else {
      ExtractStep(pair, t, h, pos, bitsUsed, hashUsed);
      var l := WalkReads(pair, t, h - 1, 2 * pos, bitsUsed + 1, hashUsed);
      WalkFollows(pair, t, l, h - 1, 2 * pos, bitsUsed + 1, hashUsed);
      WalkOfEnds(pair, t, l, 2 * pos, bitsUsed + 1, hashUsed);
      if 2 * pos + 1 < Width(t.n, h - 1) {
        var r := WalkReads(pair, t, h - 1, 2 * pos + 1, bitsUsed + 1 + |BitsOf(l)|, hashUsed + Tips(l));
        ForkJoin(t, l, r, bitsUsed, hashUsed);
        s := Fork(l, r);
      } else {
        LoneJoin(t, l, bitsUsed, hashUsed);
        s := Lone(l);
      }
    }
  }

  // ----- exactly what is accepted ------------------------------------------------------------

  lemma {:induction false} TipsBelow(s: Shape, n: nat, h: nat, pos: nat)
    requires Fits(s, n, h, pos) && pos < Width(n, h)
    ensures 1 <= Tips(s) <= |BitsOf(s)| && Tips(s) <= Last(n, h, pos) - First(h, pos)
    decreases s
  {
    hide Width, First, Last;
    LeavesBelow(n, h, pos);
    if h > 0 { Ranges(n, h, pos); }
    match s
    case Tip(_) =>
    case Fork(l, r) =>
      TipsBelow(l, n, h - 1, 2 * pos);
      TipsBelow(r, n, h - 1, 2 * pos + 1);
    case Lone(c) =>
      TipsBelow(c, n, h - 1, 2 * pos);
  }

  /**
   * The bits are those of the shape, padded at most to the end of their last
   * byte, and there is one hash for every tip.
   */
  ghost predicate Spells(t: Partial, s: Shape) {
    && t.n > 0 && Fits(s, t.n, Height(t.n), 0)
    && BitsOf(s) <= t.bits && (|BitsOf(s)| + 7) / 8 == (|t.bits| + 7) / 8
    && |t.hashes| == Tips(s)
  }

  lemma SpellsAt(t: Partial, s: Shape)
    requires Spells(t, s)
    ensures At(t, s, 0, 0) && Labels(t, s, 0) == t.hashes
  {
  }

  lemma RootWidth(n: nat)
    requires n > 0
    ensures Width(n, Height(n)) == 1
  {
    WidthBound(n, Height(n), 0);
  }

  lemma SpelledIsAccepted(pair: (Hash, Hash) -> Hash, maxTx: nat, t: Partial, s: Shape)
    requires Spells(t, s) && Clean(pair, s, t.hashes) && t.n <= maxTx
    ensures ExtractMatches(pair, maxTx, t) == Accepted(ValueOf(pair, s, t.hashes), MatchedTips(s, 0, t.hashes))
  {
    hide Width, Extract;
    SpellsAt(t, s);
    WalkFollows(pair, t, s, Height(t.n), 0, 0, 0);
    RootWidth(t.n);
    TipsBelow(s, t.n, Height(t.n), 0);
  }

  lemma AcceptedIsSpelled(pair: (Hash, Hash) -> Hash, maxTx: nat, t: Partial) returns (s: Shape)
    requires ExtractMatches(pair, maxTx, t).Accepted?
    ensures 0 < t.n <= maxTx && Spells(t, s) && Clean(pair, s, t.hashes)
    ensures At(t, s, 0, 0)
  {
    hide Width, Extract;
    s := WalkReads(pair, t, Height(t.n), 0, 0, 0);
    WalkFollows(pair, t, s, Height(t.n), 0, 0, 0);
    assert t.hashes[0..|t.hashes|] == t.hashes;
  }

  /** The object spells the shape, which gives this root and these matches. */
  ghost predicate Answers(pair: (Hash, Hash) -> Hash, t: Partial, s: Shape, root: Hash, found: seq<(nat, Hash)>) {
    Spells(t, s) && Clean(pair, s, t.hashes) && root == ValueOf(pair, s, t.hashes) && found == MatchedTips(s, 0, t.hashes)
  }

  /**
   * Exactly what ExtractMatches accepts, and with which answer.  Every other
   * object is rejected, in particular one with a hash or a byte left over.
   */
  lemma AcceptedIff(pair: (Hash, Hash) -> Hash, maxTx: nat, t: Partial, root: Hash, found: seq<(nat, Hash)>)
    ensures ExtractMatches(pair, maxTx, t) == Accepted(root, found) <==>
            t.n <= maxTx && exists s :: Answers(pair, t, s, root, found)
  {
    hide ExtractMatches, Spells, Clean, ValueOf, MatchedTips;
    if ExtractMatches(pair, maxTx, t) == Accepted(root, found) {
      var s := AcceptedIsSpelled(pair, maxTx, t);
      SpelledIsAccepted(pair, maxTx, t, s);
      assert Answers(pair, t, s, root, found);
    } else if s :| Answers(pair, t, s, root, found) {
      if t.n <= maxTx { SpelledIsAccepted(pair, maxTx, t, s); }
    }
  }


  // ----- the shape is determined by the bits ----------------------------------------------------

  lemma {:induction false} ShapeUnique(a: Shape, b: Shape, n: nat, h: nat, pos: nat, bits: seq<bool>, from: nat)
    requires Fits(a, n, h, pos) && Fits(b, n, h, pos)
    requires Continues(bits, from, BitsOf(a)) && Continues(bits, from, BitsOf(b))
    ensures a == b
    decreases a
  {
    hide Width, Continues;
    FirstBit(a, bits, from);
    FirstBit(b, bits, from);
    if a.Fork? && b.Fork? {
      ShapeUnique(a.left, b.left, n, h - 1, 2 * pos, bits, from + 1);
      ShapeUnique(a.right, b.right, n, h - 1, 2 * pos + 1, bits, from + 1 + |BitsOf(a.left)|);
    } else if a.Lone? && b.Lone? {
      ShapeUnique(a.child, b.child, n, h - 1, 2 * pos, bits, from + 1);
    }
  }

  lemma FirstBit(s: Shape, bits: seq<bool>, from: nat)
    requires Continues(bits, from, BitsOf(s))
    ensures from < |bits| && (bits[from] <==> s.Tip? ==> s.matched)
    ensures s.Fork? ==> Continues(bits, from + 1, BitsOf(s.left)) && Continues(bits, from + 1 + |BitsOf(s.left)|, BitsOf(s.right))
    ensures s.Lone? ==> Continues(bits, from + 1, BitsOf(s.child))
  {
    hide Continues;
    match s
    case Tip(matched) =>
      TipBit(bits, from, matched);
    case Fork(l, r) =>
      OpenedBit(bits, from, BitsOf(l) + BitsOf(r));
      ContinuesSplit(bits, from + 1, BitsOf(l), BitsOf(r));
    case Lone(c) =>
      OpenedBit(bits, from, BitsOf(c));
  }

  // ----- objects with a real root ------------------------------------------------------------------

  /** The hashes a real list of txids has at the tips. */
  ghost function TrueTips(pair: (Hash, Hash) -> Hash, txids: seq<Hash>, s: Shape, h: nat, pos: nat): seq<Hash>
    requires Fits(s, |txids|, h, pos) && pos < Width(|txids|, h)
    decreases s
  {
    match s
    case Tip(_) => [CalcHash(pair, txids, h, pos)]
    case Fork(l, r) =>
      ChildBounds(|txids|, h, pos);
      TrueTips(pair, txids, l, h - 1, 2 * pos) + TrueTips(pair, txids, r, h - 1, 2 * pos + 1)
    case Lone(c) =>
      ChildBounds(|txids|, h, pos);
      TrueTips(pair, txids, c, h - 1, 2 * pos)
  }

  /** One level of FindForgery that finds nothing. */
  lemma GenuineStep(pair: (Hash, Hash) -> Hash, t: Partial, txids: seq<Hash>, h: nat, pos: nat, bitsUsed: nat, hashUsed: nat)
    requires |txids| == t.n && pos < Width(t.n, h) && h > 0 && bitsUsed < |t.bits| && t.bits[bitsUsed]
    requires FindForgery(pair, t, txids, h, pos, bitsUsed, hashUsed).None?
    ensures 2 * pos < Width(t.n, h - 1)
    ensures var l := Extract(pair, t, h - 1, 2 * pos, bitsUsed + 1, hashUsed);
            && l.hash == CalcHash(pair, txids, h - 1, 2 * pos)
            && FindForgery(pair, t, txids, h - 1, 2 * pos, bitsUsed + 1, hashUsed).None?
            && (2 * pos + 1 < Width(t.n, h - 1) ==>
                  && Extract(pair, t, h - 1, 2 * pos + 1, l.bitsUsed, l.hashUsed).hash == CalcHash(pair, txids, h - 1, 2 * pos + 1)
                  && FindForgery(pair, t, txids, h - 1, 2 * pos + 1, l.bitsUsed, l.hashUsed).None?)
  {
    hide Width, Extract, CalcHash;
    ChildBounds(t.n, h, pos);
  }

  lemma WalkOfHash(pair: (Hash, Hash) -> Hash, t: Partial, s: Shape, pos: nat, bitsUsed: nat, hashUsed: nat)
    requires hashUsed + Tips(s) <= |t.hashes|
    ensures WalkOf(pair, t, s, pos, bitsUsed, hashUsed).hash == ValueOf(pair, s, Labels(t, s, hashUsed))
  {
    hide BitsOf, Tips, ValueOf, Labels, MatchedTips, Clean;
  }

  /** With the real hash at the node, every tip carries the real hash unless a collision is found. */
  lemma {:induction false} GenuineBelow(pair: (Hash, Hash) -> Hash, t: Partial, txids: seq<Hash>, s: Shape, h: nat, pos: nat, bitsUsed: nat, hashUsed: nat)
    requires |txids| == t.n && pos < Width(t.n, h) && Fits(s, t.n, h, pos) && At(t, s, bitsUsed, hashUsed)
    requires Extract(pair, t, h, pos, bitsUsed, hashUsed).hash == CalcHash(pair, txids, h, pos)
    requires FindForgery(pair, t, txids, h, pos, bitsUsed, hashUsed).None?
    ensures hashUsed + Tips(s) <= |t.hashes|
    ensures Labels(t, s, hashUsed) == TrueTips(pair, txids, s, h, pos)
    decreases s
  {
    hide Width, Extract, WalkOf, At, Labels, CalcHash, FindForgery, BitsOf;
    AtTips(t, s, bitsUsed, hashUsed);
    match s
    case Tip(matched) =>
      WalkFollows(pair, t, s, h, pos, bitsUsed, hashUsed);
      WalkOfHash(pair, t, s, pos, bitsUsed, hashUsed);
    case Fork(l, r) =>
      ForkAt(t, l, r, bitsUsed, hashUsed);
      GenuineStep(pair, t, txids, h, pos, bitsUsed, hashUsed);
      WalkFollows(pair, t, l, h - 1, 2 * pos, bitsUsed + 1, hashUsed);
      WalkOfEnds(pair, t, l, 2 * pos, bitsUsed + 1, hashUsed);
      GenuineBelow(pair, t, txids, l, h - 1, 2 * pos, bitsUsed + 1, hashUsed);
      GenuineBelow(pair, t, txids, r, h - 1, 2 * pos + 1, bitsUsed + 1 + |BitsOf(l)|, hashUsed + Tips(l));
      var hs := Labels(t, s, hashUsed);
      assert hs == hs[..Tips(l)] + hs[Tips(l)..];
    case Lone(c) =>
      LoneAt(t, c, bitsUsed, hashUsed);
      GenuineStep(pair, t, txids, h, pos, bitsUsed, hashUsed);
      GenuineBelow(pair, t, txids, c, h - 1, 2 * pos, bitsUsed + 1, hashUsed);
  }

  // ----- objects that open no more than needed --------------------------------------------------------

  ghost predicate HasMatch(s: Shape) {
    match s
    case Tip(matched) => matched
    case Fork(l, r) => HasMatch(l) || HasMatch(r)
    case Lone(c) => HasMatch(c)
  }

  /** Every opened node has a match below it. */
  ghost predicate Lean(s: Shape) {
    match s
    case Tip(_) => true
    case Fork(l, r) => HasMatch(s) && Lean(l) && Lean(r)
    case Lone(c) => HasMatch(s) && Lean(c)
  }

  /** The leaves the shape marks as matched. */
  ghost function Marks(s: Shape, pos: nat): set<nat> {
    match s
    case Tip(matched) => if matched then {pos} else {}
    case Fork(l, r) => Marks(l, 2 * pos) + Marks(r, 2 * pos + 1)
    case Lone(c) => Marks(c, 2 * pos)
  }

  /** The shape a builder gives to these matches. */
  ghost function BuiltShape(n: nat, matched: seq<bool>, h: nat, pos: nat): Shape
    requires |matched| == n && pos < Width(n, h)
  {
    var f := AnyMatch(n, matched, h, pos);
    if h == 0 || !f then Tip(f)
    else
      ChildBounds(n, h, pos);
      var l := BuiltShape(n, matched, h - 1, 2 * pos);
      if 2 * pos + 1 < Width(n, h - 1) then Fork(l, BuiltShape(n, matched, h - 1, 2 * pos + 1)) else Lone(l)
  }

  lemma {:induction false} BuiltShapeBuilds(pair: (Hash, Hash) -> Hash, txids: seq<Hash>, matched: seq<bool>, h: nat, pos: nat)
    requires |matched| == |txids| && pos < Width(|txids|, h)
    ensures var s := BuiltShape(|txids|, matched, h, pos);
            && Fits(s, |txids|, h, pos) && Lean(s) && (HasMatch(s) <==> AnyMatch(|txids|, matched, h, pos))
            && Build(pair, txids, matched, h, pos) == Bits(BitsOf(s), TrueTips(pair, txids, s, h, pos))
    decreases h
  {
    hide Width, AnyMatch;
    if h > 0 && AnyMatch(|txids|, matched, h, pos) {
      BuildStep(pair, txids, matched, h, pos);
      AnyMatchSplit(|txids|, matched, h, pos);
      BuiltShapeBuilds(pair, txids, matched, h - 1, 2 * pos);
      if 2 * pos + 1 < Width(|txids|, h - 1) {
        BuiltShapeBuilds(pair, txids, matched, h - 1, 2 * pos + 1);
      }
    }
  }

  /** The flags are those of the shape, for the leaves below the node. */
  ghost predicate Agrees(matched: seq<bool>, s: Shape, n: nat, h: nat, pos: nat) {
    |matched| == n && forall p :: First(h, pos) <= p < Last(n, h, pos) ==> (matched[p] <==> p in Marks(s, pos))
  }

  lemma {:induction false} MarksBelow(s: Shape, n: nat, h: nat, pos: nat)
    requires Fits(s, n, h, pos) && pos < Width(n, h)
    ensures forall p :: p in Marks(s, pos) ==> First(h, pos) <= p < Last(n, h, pos)
    ensures HasMatch(s) ==> exists p :: p in Marks(s, pos)
    ensures !HasMatch(s) ==> Marks(s, pos) == {}
    decreases s
  {
    hide Width, First, Last;
    LeavesBelow(n, h, pos);
    if h > 0 { Ranges(n, h, pos); }
    match s
    case Tip(matched) =>
      if matched {
        LeafRange(n, pos);
        assert pos in Marks(s, pos);
      }
    case Fork(l, r) =>
      MarksBelow(l, n, h - 1, 2 * pos);
      MarksBelow(r, n, h - 1, 2 * pos + 1);
      assert forall p :: p in Marks(s, pos) <==> p in Marks(l, 2 * pos) || p in Marks(r, 2 * pos + 1);
    case Lone(c) =>
      MarksBelow(c, n, h - 1, 2 * pos);
      assert Marks(s, pos) == Marks(c, 2 * pos);
  }

  lemma LeafRange(n: nat, pos: nat)
    requires pos < Width(n, 0)
    ensures First(0, pos) == pos && Last(n, 0, pos) == pos + 1
  {
  }

  lemma {:induction false} LeanIsBuilt(s: Shape, n: nat, matched: seq<bool>, h: nat, pos: nat)
    requires Fits(s, n, h, pos) && pos < Width(n, h) && Lean(s) && Agrees(matched, s, n, h, pos)
    ensures s == BuiltShape(n, matched, h, pos)
    decreases s
  {
    hide Width, First, Last, AnyMatch;
    MarksBelow(s, n, h, pos);
    AnyMatchRange(n, matched, h, pos);
    if h > 0 { Ranges(n, h, pos); }
    assert HasMatch(s) <==> AnyMatch(n, matched, h, pos);
    match s
    case Tip(_) =>
    case Fork(l, r) =>
      MarksBelow(l, n, h - 1, 2 * pos);
      MarksBelow(r, n, h - 1, 2 * pos + 1);
      LeanIsBuilt(l, n, matched, h - 1, 2 * pos);
      LeanIsBuilt(r, n, matched, h - 1, 2 * pos + 1);
    case Lone(c) =>
      LeanIsBuilt(c, n, matched, h - 1, 2 * pos);
  }

  ghost predicate Reports(found: seq<(nat, Hash)>, p: nat) {
    exists i :: 0 <= i < |found| && found[i].0 == p
  }

  /** The flags of the matches an answer reports. */
  ghost function FlagsOf(n: nat, found: seq<(nat, Hash)>): (r: seq<bool>)
    ensures |r| == n && forall p :: 0 <= p < n ==> (r[p] <==> Reports(found, p))
  {
    seq(n, p requires 0 <= p < n => Reports(found, p))
  }

  lemma {:induction false} FoundMarks(s: Shape, pos: nat, hashes: seq<Hash>, p: nat)
    requires |hashes| == Tips(s)
    ensures p in Marks(s, pos) <==> Reports(MatchedTips(s, pos, hashes), p)
    decreases s
  {
    match s
    case Tip(matched) =>
      if matched { assert MatchedTips(s, pos, hashes)[0].0 == pos; }
    case Fork(l, r) =>
      var a, b := MatchedTips(l, 2 * pos, hashes[..Tips(l)]), MatchedTips(r, 2 * pos + 1, hashes[Tips(l)..]);
      FoundMarks(l, 2 * pos, hashes[..Tips(l)], p);
      FoundMarks(r, 2 * pos + 1, hashes[Tips(l)..], p);
      JoinedAt(a, b, p);
    case Lone(c) =>
      FoundMarks(c, 2 * pos, hashes, p);
  }

  lemma JoinedAt(a: seq<(nat, Hash)>, b: seq<(nat, Hash)>, p: nat)
    ensures Reports(a + b, p) <==> Reports(a, p) || Reports(b, p)
  {
    if i :| 0 <= i < |a| && a[i].0 == p { assert (a + b)[i].0 == p; }
    if i :| 0 <= i < |b| && b[i].0 == p { assert (a + b)[|a| + i].0 == p; }
  }

  lemma FlagsAgree(s: Shape, n: nat, hashes: seq<Hash>)
    requires n > 0 && |hashes| == Tips(s)
    ensures Agrees(FlagsOf(n, MatchedTips(s, 0, hashes)), s, n, Height(n), 0)
  {
    hide Marks, MatchedTips, Reports, FlagsOf;
    var found := MatchedTips(s, 0, hashes);
    forall p: nat | p < n ensures FlagsOf(n, found)[p] <==> p in Marks(s, 0) {
      FoundMarks(s, 0, hashes, p);
    }
  }

  lemma RootOfWalk(pair: (Hash, Hash) -> Hash, maxTx: nat, t: Partial)
    requires ExtractMatches(pair, maxTx, t).Accepted?
    ensures ExtractMatches(pair, maxTx, t).root == Extract(pair, t, Height(t.n), 0, 0, 0).hash
  {
    hide Extract, Height;
  }

  /**
   * No malleability.  An object accepted with the root of a real list of that
   * many txids is determined by its shape: its bits are the shape's, up to
   * padding within the last byte, and its hashes the real ones of the tips.  It is
   * what the builder makes of the reported matches if and only if no node is
   * opened without a match below.  Otherwise a collision is found.
   */
  lemma NonMalleable(pair: (Hash, Hash) -> Hash, maxTx: nat, t: Partial, txids: seq<Hash>) returns (s: Shape)
    requires |txids| == t.n > 0
    requires Width(t.n, Height(t.n)) == 1
    requires var a := ExtractMatches(pair, maxTx, t); a.Accepted? && a.root == CalcHash(pair, txids, Height(t.n), 0)
    ensures Spells(t, s)
    ensures var c := FindForgery(pair, t, txids, Height(t.n), 0, 0, 0);
            if c.Some? then IsCollision(pair, c.value)
            else
              var b := Build(pair, txids, FlagsOf(t.n, ExtractMatches(pair, maxTx, t).found), Height(t.n), 0);
              && t.hashes == TrueTips(pair, txids, s, Height(t.n), 0)
              && (Lean(s) <==> b.bits <= t.bits && (|b.bits| + 7) / 8 == (|t.bits| + 7) / 8 && b.hashes == t.hashes)
  {
    hide Width, Extract, ExtractMatches, FindForgery, CalcHash, Build, Height, FlagsOf;
    hide Spells, Fits, BitsOf, Tips, TrueTips, MatchedTips, Clean, ValueOf, At, Labels, Lean;
    s := AcceptedIsSpelled(pair, maxTx, t);
    SpelledIsAccepted(pair, maxTx, t, s);
    SpelledFits(t, s);
    Soundness(pair, maxTx, t, txids);
    if FindForgery(pair, t, txids, Height(t.n), 0, 0, 0).None? {
      RootOfWalk(pair, maxTx, t);
      SpellsAt(t, s);
      GenuineBelow(pair, t, txids, s, Height(t.n), 0, 0, 0);
      BuiltIffLean(pair, t, txids, s);
    }
  }

  lemma SpelledFits(t: Partial, s: Shape)
    requires Spells(t, s)
    ensures Fits(s, t.n, Height(t.n), 0) && |t.hashes| == Tips(s)
  {
  }

  /** The builder makes the same bits of the shape's matches if and only if the shape opens no more than needed. */
  lemma BuiltIffLean(pair: (Hash, Hash) -> Hash, t: Partial, txids: seq<Hash>, s: Shape)
    requires |txids| == t.n > 0 && Width(t.n, Height(t.n)) == 1 && Spells(t, s) && |t.hashes| == Tips(s)
    requires Fits(s, t.n, Height(t.n), 0) && t.hashes == TrueTips(pair, txids, s, Height(t.n), 0)
    ensures var b := Build(pair, txids, FlagsOf(t.n, MatchedTips(s, 0, t.hashes)), Height(t.n), 0);
            Lean(s) <==> b.bits <= t.bits && (|b.bits| + 7) / 8 == (|t.bits| + 7) / 8 && b.hashes == t.hashes
  {
    hide Width, Build, BuiltShape, Height, FlagsOf, Fits, BitsOf, Tips, TrueTips, MatchedTips, Lean, Agrees;
    var flags := FlagsOf(t.n, MatchedTips(s, 0, t.hashes));
    FlagsAgree(s, t.n, t.hashes);
    BuiltShapeBuilds(pair, txids, flags, Height(t.n), 0);
    var built := BuiltShape(t.n, flags, Height(t.n), 0);
    if Lean(s) {
      LeanIsBuilt(s, t.n, flags, Height(t.n), 0);
    } else if BitsOf(built) <= t.bits {
      assert Continues(t.bits, 0, BitsOf(built)) && Continues(t.bits, 0, BitsOf(s));
      ShapeUnique(s, built, t.n, Height(t.n), 0, t.bits, 0);
    }
  }
}
