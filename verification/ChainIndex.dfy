/**
 * Block index entries with their skip pointers, and the active chain as an
 * array of entries by height.
 */
module ChainIndex {
  import opened Powers
  import opened SkipHeights

  // ----- entries -----------------------------------------------------------------------------

  class BlockIndex {
    const pprev: BlockIndex?
    const height: nat
    var pskip: BlockIndex?

    constructor (pprev: BlockIndex?)
      requires pprev != null ==> Linked(pprev)
      ensures Linked(this) && this.pprev == pprev && pskip == null
    {
      this.pprev := pprev;
      height := if pprev == null then 0 else pprev.height + 1;
      pskip := null;
    }

    /**
     * The entry at the given height on the way to the root, by skip and
     * predecessor links; with all skip links set, in a number of steps quadratic
     * in the number of binary digits of the height.
     */
    method GetAncestor(h: int) returns (r: BlockIndex?, ghost steps: nat)
      requires Linked(this) && SkipsOk(this)
      ensures SkipsOk(this) && r == if 0 <= h <= height then Line(this)[h] else null
      ensures 0 <= h <= height && Built(this) ==> steps == Walk(height, h)
      ensures Built(this) ==> forall l :: height < Two(l) ==> steps <= StepBound(l)
    {
      hide GetSkipHeight, Two, Walk;
      steps := 0;
      if h > height || h < 0 { return null, 0; }
      var walk, heightWalk := this, height;
      ghost var goal := Walk(height, h);
      while heightWalk > h
        invariant SkipsOk(this) && h <= heightWalk <= height && walk == Line(this)[heightWalk]
        invariant Built(this) ==> steps + Walk(heightWalk, h) == goal
        decreases heightWalk
      {
        WalkStep(heightWalk, h);
        LinePrefix(this, heightWalk);
        assert SkipOk(walk);
        var skip, skipPrev := GetSkipHeight(heightWalk), GetSkipHeight(heightWalk - 1);
        if walk.pskip != null && (skip == h || (skip > h && !(skipPrev < skip - 2 && skipPrev >= h))) {
          walk, heightWalk := walk.pskip, skip;
        } else {
          walk, heightWalk := walk.pprev, heightWalk - 1;
        }
        steps := steps + 1;
      }
      WalkEnd(heightWalk);
      forall l: nat | height < Two(l) ensures Walk(height, h) <= StepBound(l) { WalkIsShort(height, h, l); }
      r := walk;
    }

    /** Called once the predecessor is set and has its own skip link. */
    method BuildSkip()
      requires Linked(this) && if pprev == null then pskip == null else SkipsOk(pprev)
      modifies this`pskip
      ensures SkipsOk(this) && (pprev != null ==> pskip == Line(this)[GetSkipHeight(height)])
      ensures (pprev != null ==> old(Built(pprev))) ==> Built(this)
    {
      hide GetSkipHeight, Built, SkipsOk, Line;
      if pprev != null {
        NotOnLine(this);
        LineAllocated(pprev);
        var ancestor, _ := pprev.GetAncestor(GetSkipHeight(height));
        pskip := ancestor;
        NextLine(this);
        NextSkip(this);
        if Built(pprev) { NextBuilt(this); }
      } else {
        RootSkips(this);
      }
    }
  }

  /** Heights count from the root. */
  ghost predicate Linked(b: BlockIndex)
    decreases b.height
  {
    if b.pprev == null then b.height == 0 else b.height == b.pprev.height + 1 && Linked(b.pprev)
  }

  /** The line of predecessors, root first: what following pprev alone reaches. */
  ghost function Line(b: BlockIndex): (r: seq<BlockIndex>)
    requires Linked(b)
    ensures |r| == b.height + 1 && r[b.height] == b
    ensures forall i :: 0 <= i < |r| ==> r[i].height == i && Linked(r[i])
    decreases b.height
  {
    if b.pprev == null then [b] else Line(b.pprev) + [b]
  }

  lemma {:induction false} LinePrefix(b: BlockIndex, h: nat)
    requires Linked(b) && h <= b.height
    ensures Line(Line(b)[h]) == Line(b)[..h + 1]
    ensures Line(b)[h].pprev == if h == 0 then null else Line(b)[h - 1]
    decreases b.height
  {
    if h < b.height {
      LinePrefix(b.pprev, h);
    } else if b.pprev != null {
      assert Line(b)[..h] == Line(b.pprev);
    }
  }

  lemma {:induction false} LineAllocated(b: BlockIndex)
    requires Linked(b)
    ensures forall i :: 0 <= i <= b.height ==> allocated(Line(b)[i])
    decreases b.height
  {
    if b.pprev != null { LineAllocated(b.pprev); }
  }

  ghost predicate SkipOk(x: BlockIndex)
    requires Linked(x)
    reads x
  {
    x.pskip == null || (x.height > 0 && x.pskip == Line(x)[GetSkipHeight(x.height)])
  }

  /** Every skip link on the line is unset or leads to the entry at its skip height. */
  ghost predicate SkipsOk(b: BlockIndex)
    requires Linked(b)
    reads Line(b)
  {
    forall i :: 0 <= i <= b.height ==> SkipOk(Line(b)[i])
  }

  /** Every entry after the first has its skip link. */
  ghost predicate Built(b: BlockIndex)
    requires Linked(b)
    reads Line(b)
  {
    forall i :: 0 < i <= b.height ==> Line(b)[i].pskip != null
  }

  lemma NotOnLine(b: BlockIndex)
    requires Linked(b) && b.pprev != null
    ensures b !in Line(b.pprev)
  {
  }

  lemma NextLine(b: BlockIndex)
    requires Linked(b) && b.pprev != null
    ensures Line(b) == Line(b.pprev) + [b]
  {
  }

  lemma RootSkips(b: BlockIndex)
    requires Linked(b) && b.pprev == null && b.pskip == null
    ensures SkipsOk(b) && Built(b)
  {
  }

  lemma NextBuilt(b: BlockIndex)
    requires Linked(b) && b.pprev != null && Built(b.pprev) && b.pskip != null
    ensures Built(b)
  {
    assert Line(b) == Line(b.pprev) + [b];
  }

  lemma NextSkip(b: BlockIndex)
    requires Linked(b) && b.pprev != null && SkipsOk(b.pprev) && SkipOk(b)
    ensures SkipsOk(b)
  {
    hide GetSkipHeight, SkipOk;
    assert Line(b) == Line(b.pprev) + [b];
  }

  // ----- forks ------------------------------------------------------------------------------------

  /** a and b agree exactly up to r: the last common block of two lines, or none. */
  ghost predicate LastCommon(r: BlockIndex?, a: seq<BlockIndex?>, b: seq<BlockIndex?>) {
    && (r != null ==> r.height < |a| && r.height < |b| && a[r.height] == r && a[..r.height + 1] == b[..r.height + 1])
    && (forall i :: (if r == null then 0 else r.height + 1) <= i < |a| && i < |b| ==> a[i] != b[i])
  }

  /** The slots hold the line of the last one. */
  ghost predicate IsLine(v: seq<BlockIndex?>) {
    v == [] || (var t := v[|v| - 1]; t != null && Linked(t) && t.height == |v| - 1 && v == Line(t))
  }

  lemma LineIsLine(b: BlockIndex, n: nat)
    requires Linked(b) && n <= b.height + 1
    ensures IsLine(Line(b)[..n]) && IsLine(Line(b))
  {
    if n > 0 { LinePrefix(b, n - 1); }
    assert Line(b)[..b.height + 1] == Line(b);
  }

  lemma AgreeBelow(a: seq<BlockIndex?>, b: seq<BlockIndex?>, h: nat)
    requires IsLine(a) && IsLine(b) && h < |a| && h < |b| && a[h] == b[h]
    ensures a[..h + 1] == b[..h + 1]
  {
    LinePrefix(a[|a| - 1], h);
    LinePrefix(b[|b| - 1], h);
  }

  method LastCommonAncestor(a: BlockIndex, b: BlockIndex) returns (r: BlockIndex?)
    requires Linked(a) && SkipsOk(a) && Linked(b) && SkipsOk(b)
    ensures LastCommon(r, Line(a), Line(b))
  {
    hide Line, Linked, IsLine, SkipsOk;
    LineAllocated(a);
    LineAllocated(b);
    var pa: BlockIndex?, pb: BlockIndex? := a, b;
    if a.height > b.height {
      var up, _ := a.GetAncestor(b.height);
      pa := up;
    } else if b.height > a.height {
      var up, _ := b.GetAncestor(a.height);
      pb := up;
    }
    ghost var h: int := if a.height < b.height then a.height else b.height;
    while pa != pb && pa != null && pb != null
      invariant -1 <= h <= a.height && h <= b.height
      invariant pa == (if h < 0 then null else Line(a)[h]) && pb == (if h < 0 then null else Line(b)[h])
      invariant forall i :: h < i <= a.height && i <= b.height ==> Line(a)[i] != Line(b)[i]
      decreases h
    {
      LinePrefix(a, h);
      LinePrefix(b, h);
      pa, pb := pa.pprev, pb.pprev;
      h := h - 1;
    }
    assert pa == pb;
    if h >= 0 {
      LineIsLine(a, 0);
      LineIsLine(b, 0);
      AgreeBelow(Line(a), Line(b), h);
    }
    return pa;
  }

  // ----- the active chain -----------------------------------------------------------------------------

  class Chain {
    var vChain: seq<BlockIndex?>

    ghost predicate Valid()
      reads this
    {
      IsLine(vChain)
    }

    constructor ()
      ensures Valid() && vChain == []
    {
      vChain := [];
    }

    function At(h: int): BlockIndex?
      reads this
    {
      if h < 0 || h >= |vChain| then null else vChain[h]
    }

    predicate Contains(b: BlockIndex)
      reads this
    {
      At(b.height) == b
    }

    /** Rewrites only down to where the new line joins the old one. */
    method SetTip(tip: BlockIndex?)
      requires Valid() && (tip != null ==> Linked(tip))
      modifies this
      ensures Valid() && vChain == if tip == null then [] else Line(tip)
    {
      hide IsLine, Line, Linked;
      if tip == null {
        vChain := [];
        EmptyLine();
        return;
      }
      var n := tip.height + 1;
      vChain := if n <= |vChain| then vChain[..n] else vChain + seq(n - |vChain|, _ => null);
      ghost var was := vChain;
      var p: BlockIndex? := tip;
      ghost var h: int := tip.height;
      while p != null && vChain[p.height] != p
        invariant -1 <= h < n == |vChain| == |was| && p == (if h < 0 then null else Line(tip)[h])
        invariant forall i :: 0 <= i < n ==> vChain[i] == if i <= h then was[i] else Line(tip)[i]
        decreases h
      {
        LinePrefix(tip, h);
        vChain := vChain[p.height := p];
        p := p.pprev;
        h := h - 1;
      }
      if p != null {
        OldLine(old(vChain), was, h, p);
        LinePrefix(tip, h);
        assert forall i :: 0 <= i <= h ==> was[i] == was[..h + 1][i] && Line(tip)[i] == Line(tip)[..h + 1][i];
      }
      LineIsLine(tip, n);
      assert vChain == Line(tip);
    }

    method FindFork(b: BlockIndex?) returns (r: BlockIndex?)
      requires Valid() && (b != null ==> Linked(b) && SkipsOk(b))
      ensures b == null ==> r == null
      ensures b != null ==> LastCommon(r, vChain, Line(b))
    {
      hide Line, Linked, IsLine, SkipsOk;
      if b == null { return null; }
      r := b;
      ghost var h: int := b.height;
      if b.height > |vChain| - 1 {
        var up, _ := b.GetAncestor(|vChain| - 1);
        r := up;
        h := |vChain| - 1;
      }
      while r != null && !Contains(r)
        invariant -1 <= h <= b.height && h < |vChain| && r == (if h < 0 then null else Line(b)[h])
        invariant forall i :: h < i <= b.height && i < |vChain| ==> vChain[i] != Line(b)[i]
        decreases h
      {
        LinePrefix(b, h);
        r := r.pprev;
        h := h - 1;
      }
      if r != null {
        LineIsLine(b, 0);
        AgreeBelow(vChain, Line(b), h);
      }
    }

    /**
     * Twelve entries one apart, then steps that double, and the root last; a
     * locator of height h has at most 12 + log2(h) entries.
     */
    method GetLocator(start: BlockIndex?) returns (have: seq<BlockIndex>)
      requires Valid() && (start != null ==> Linked(start) && SkipsOk(start)) && (|vChain| > 0 ==> SkipsOk(vChain[|vChain| - 1]))
      ensures var b := if start == null then At(|vChain| - 1) else start;
        if b == null then have == []
        else IsLocator(Line(b), b.height, have) && (|have| > 12 ==> 9 + Pow(2, |have| - 12) < b.height)
    {
      hide LocatorFrom, IsLocator, Pow;
      var p := start;
      if p == null { p := At(|vChain| - 1); }
      have := [];
      if p == null { return; }
      ghost var line := Line(p);
      var b, walk: BlockIndex, step := p, p, 1;
      while true
        invariant SkipsOk(b) && step >= 1 && walk.height < |line| && line == Line(b) && walk == line[walk.height]
        invariant have + LocatorFrom(line, walk.height, |have|, step) == LocatorFrom(line, b.height, 0, 1)
        decreases walk.height
      {
        LocatorStep(line, walk.height, |have|, step, have);
        have := have + [walk];
        if walk.height == 0 { break; }
        walk := StepBack(b, walk, if walk.height - step > 0 then walk.height - step else 0);
        if |have| > 10 { step := step * 2; }
      }
      assert have == LocatorFrom(line, b.height, 0, 1);
      LocatorDone(line, b.height);
    }

    /** By position when the entry is in the chain, by skip links otherwise. */
    method StepBack(ghost b: BlockIndex, walk: BlockIndex, h: nat) returns (r: BlockIndex)
      requires Valid() && Linked(b) && SkipsOk(b) && walk.height <= b.height && walk == Line(b)[walk.height] && h < walk.height
      ensures SkipsOk(b) && r == Line(b)[h]
    {
      LinePrefix(b, walk.height);
      assert Line(b)[h] == Line(b)[..walk.height + 1][h];
      if Contains(walk) {
        LineIsLine(walk, 0);
        AgreeBelow(vChain, Line(walk), walk.height);
        assert vChain[h] == vChain[..walk.height + 1][h];
        r := At(h);
      } else {
        PartSkips(b, walk);
        LineAllocated(b);
        var up, _ := walk.GetAncestor(h);
        r := up;
      }
    }
  }

  lemma LocatorStep(line: seq<BlockIndex>, h: nat, n: nat, step: nat, have: seq<BlockIndex>)
    requires h < |line| && step >= 1
    ensures have + LocatorFrom(line, h, n, step) == have + [line[h]] +
      if h == 0 then [] else LocatorFrom(line, if h - step > 0 then h - step else 0, n + 1, if n + 1 > 10 then 2 * step else step)
  {
  }

  /** The entries of a locator: n are there already, the next step is the given one. */
  ghost function LocatorFrom(line: seq<BlockIndex>, h: nat, n: nat, step: nat): (r: seq<BlockIndex>)
    requires h < |line| && step >= 1
    decreases h
  {
    [line[h]] +
    if h == 0 then []
    else LocatorFrom(line, if h - step > 0 then h - step else 0, n + 1, if n + 1 > 10 then 2 * step else step)
  }

  /** How far below the start entry k is, and how far the next one is below it. */
  function Back(k: nat): nat {
    if k <= 11 then k else 9 + Pow(2, k - 10)
  }

  function Stride(k: nat): nat {
    if k <= 10 then 1 else Pow(2, k - 10)
  }

  function HeightAt(top: nat, k: nat): nat {
    if top > Back(k) then top - Back(k) else 0
  }

  /** The entries by height: the first one at height zero is the last. */
  ghost predicate IsLocator(line: seq<BlockIndex>, top: nat, have: seq<BlockIndex>) {
    && |line| == top + 1 && |have| > 0
    && (forall k :: 0 <= k < |have| ==> have[k] == line[HeightAt(top, k)])
    && (forall k :: 0 <= k < |have| - 1 ==> Back(k) < top) && top <= Back(|have| - 1)
  }

  lemma BackNext(k: nat)
    ensures Back(k + 1) == Back(k) + Stride(k) && Stride(k) >= 1
    ensures Stride(k + 1) == if k + 1 > 10 then 2 * Stride(k) else Stride(k)
  {
    if k == 10 { assert Pow(2, 1) == 2; }
    if k == 11 { assert Pow(2, 2) == 4; }
    if k > 10 { PowPositive(2, k - 10); }
  }

  /** The same for the entries from n on. */
  ghost predicate LocatorTail(line: seq<BlockIndex>, top: nat, n: nat, r: seq<BlockIndex>) {
    && |line| == top + 1 && |r| > 0
    && (forall k :: n <= k < n + |r| ==> r[k - n] == line[HeightAt(top, k)])
    && (forall k :: n <= k < n + |r| - 1 ==> Back(k) < top) && top <= Back(n + |r| - 1)
  }

  lemma TailNext(line: seq<BlockIndex>, top: nat, n: nat, rest: seq<BlockIndex>)
    requires LocatorTail(line, top, n + 1, rest) && Back(n) < top
    ensures LocatorTail(line, top, n, [line[HeightAt(top, n)]] + rest)
  {
    hide Back;
    var r := [line[HeightAt(top, n)]] + rest;
    forall k | n <= k < n + |r| ensures r[k - n] == line[HeightAt(top, k)] {
      if k > n { assert r[k - n] == rest[k - (n + 1)]; }
    }
  }

  /** The recursion walks down by these heights. */
  lemma {:induction false} LocatorIs(line: seq<BlockIndex>, top: nat, n: nat)
    requires |line| == top + 1
    ensures Stride(n) >= 1 && LocatorTail(line, top, n, LocatorFrom(line, HeightAt(top, n), n, Stride(n)))
    decreases HeightAt(top, n)
  {
    hide Back, Stride, LocatorTail;
    BackNext(n);
    if HeightAt(top, n) > 0 {
      LocatorIs(line, top, n + 1);
      TailNext(line, top, n, LocatorFrom(line, HeightAt(top, n + 1), n + 1, Stride(n + 1)));
    } else {
      assert LocatorFrom(line, 0, n, Stride(n)) == [line[0]];
      TailEnd(line, top, n);
    }
  }

  lemma TailEnd(line: seq<BlockIndex>, top: nat, n: nat)
    requires |line| == top + 1 && HeightAt(top, n) == 0
    ensures LocatorTail(line, top, n, [line[0]])
  {
  }

  lemma LocatorDone(line: seq<BlockIndex>, top: nat)
    requires |line| == top + 1
    ensures var have := LocatorFrom(line, top, 0, 1);
      IsLocator(line, top, have) && (|have| > 12 ==> 9 + Pow(2, |have| - 12) < top)
  {
    LocatorIs(line, top, 0);
    assert HeightAt(top, 0) == top && Stride(0) == 1;
    hide LocatorFrom, HeightAt;
    LocatorLength(line, top, LocatorFrom(line, top, 0, 1));
  }

  /** Heights fall strictly, the first twelve by one, and the length is logarithmic. */
  lemma LocatorLength(line: seq<BlockIndex>, top: nat, have: seq<BlockIndex>)
    requires IsLocator(line, top, have)
    ensures |have| > 12 ==> 9 + Pow(2, |have| - 12) < top
    ensures forall i, j :: 0 <= i < j < |have| ==> HeightAt(top, i) > HeightAt(top, j)
    ensures have[|have| - 1] == line[0] && forall k :: 0 <= k < |have| && k <= 11 && k <= top ==> have[k] == line[top - k]
  {
    if |have| > 12 { assert Back(|have| - 2) < top; }
    forall i, j | 0 <= i < j < |have| ensures HeightAt(top, i) > HeightAt(top, j) {
      BackIncreases(i, j);
      assert Back(i) < top;
    }
  }

  lemma {:induction false} BackIncreases(i: nat, j: nat)
    requires i < j
    ensures Back(i) < Back(j)
    decreases j
  {
    BackNext(j - 1);
    if i < j - 1 { BackIncreases(i, j - 1); }
  }

  lemma EmptyLine()
    ensures IsLine([])
  {
  }

  lemma OldLine(line: seq<BlockIndex?>, resized: seq<BlockIndex?>, h: nat, p: BlockIndex)
    requires IsLine(line) && h < |resized| && resized[h] == p && p.height == h && Linked(p)
    requires forall i :: 0 <= i < |resized| ==> resized[i] == if i < |line| then line[i] else null
    ensures resized[..h + 1] == Line(p)
  {
    LinePrefix(line[|line| - 1], h);
    assert resized[..h + 1] == line[..h + 1];
  }

  lemma PartSkips(b: BlockIndex, p: BlockIndex)
    requires Linked(b) && SkipsOk(b) && p.height <= b.height && p == Line(b)[p.height]
    ensures Linked(p) && SkipsOk(p)
  {
    LinePrefix(b, p.height);
    assert forall i :: 0 <= i <= p.height ==> Line(p)[i] == Line(b)[i];
  }
}
