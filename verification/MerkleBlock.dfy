/**
 * The partial Merkle tree object: flag bits and hashes are pushed and consumed
 * in place, and the bits are packed eight to a byte, least significant first.
 */
module MerkleBlock {
  import opened Bits
  import opened MerkleTree

  class PartialMerkleTree {
    const pair: (Hash, Hash) -> Hash
    var nTransactions: nat
    var vBits: seq<bool>
    var vHash: seq<Hash>
    var fBad: bool

    ghost function Value(): Partial
      reads this
    {
      Partial(nTransactions, vBits, vHash)
    }

    constructor Empty(pair: (Hash, Hash) -> Hash)
      ensures this.pair == pair && Value() == Partial(0, [], []) && fBad
    {
      this.pair, nTransactions, vBits, vHash, fBad := pair, 0, [], [], true;
    }

    constructor (pair: (Hash, Hash) -> Hash, txids: seq<Hash>, matched: seq<bool>)
      requires |txids| == |matched| > 0
      ensures this.pair == pair && !fBad
      ensures Width(|txids|, Height(|txids|)) == 1
      ensures var b := Build(pair, txids, matched, Height(|txids|), 0); Value() == Partial(|txids|, b.bits, b.hashes)
    {
      this.pair, nTransactions, vBits, vHash, fBad := pair, |txids|, [], [], false;
      new;
      var h := TreeHeight();
      WidthBound(|txids|, h, 0);
      TraverseAndBuild(h, 0, txids, matched);
    }

    method TreeHeight() returns (h: nat)
      ensures h == Height(nTransactions)
    {
      h := 0;
      while Width(nTransactions, h) > 1
        invariant h <= Height(nTransactions)
        decreases Height(nTransactions) - h
      {
        h := h + 1;
      }
    }

    method TraverseAndBuild(h: nat, pos: nat, txids: seq<Hash>, matched: seq<bool>)
      requires nTransactions == |txids| == |matched| && pos < Width(nTransactions, h)
      modifies `vBits, `vHash
      ensures var b := Build(pair, txids, matched, h, pos);
              vBits == old(vBits) + b.bits && vHash == old(vHash) + b.hashes
      decreases h, 1
    {
      hide AnyMatch, Width, CalcHash;
      var parentOfMatch := HasMatch(h, pos, matched);
      vBits := vBits + [parentOfMatch];
      if h == 0 || !parentOfMatch {
        vHash := vHash + [CalcHash(pair, txids, h, pos)];
      } else {
        BuildChildren(h, pos, txids, matched);
      }
    }

    /** The else branch of TraverseAndBuild. */
    method BuildChildren(h: nat, pos: nat, txids: seq<Hash>, matched: seq<bool>)
      requires nTransactions == |txids| == |matched| && pos < Width(nTransactions, h)
      requires h > 0 && AnyMatch(nTransactions, matched, h, pos)
      modifies `vBits, `vHash
      ensures var b := Build(pair, txids, matched, h, pos);
              |b.bits| > 0 && b.bits[0] && vBits == old(vBits) + b.bits[1..] && vHash == old(vHash) + b.hashes
      decreases h, 0
    {
      hide AnyMatch, Width, Build;
      BuildStep(pair, txids, matched, h, pos);
      TraverseAndBuild(h - 1, 2 * pos, txids, matched);
      if 2 * pos + 1 < Width(nTransactions, h - 1) {
        TraverseAndBuild(h - 1, 2 * pos + 1, txids, matched);
      }
    }

    method HasMatch(h: nat, pos: nat, matched: seq<bool>) returns (parentOfMatch: bool)
      requires nTransactions == |matched|
      ensures parentOfMatch == AnyMatch(nTransactions, matched, h, pos)
    {
      parentOfMatch := false;
      var p, end := pos * Pow2(h), (pos + 1) * Pow2(h);
      while p < end && p < nTransactions
        invariant pos * Pow2(h) <= p && (p <= end || p == pos * Pow2(h))
        invariant parentOfMatch <==> exists q :: pos * Pow2(h) <= q < p && q < nTransactions && matched[q]
      {
        parentOfMatch := parentOfMatch || matched[p];
        p := p + 1;
      }
    }

    /** vMatch and vnIndex grow in step; the cursors move on. */
    method TraverseAndExtract(h: nat, pos: nat, bitsUsed: nat, hashUsed: nat, vMatch: seq<Hash>, vnIndex: seq<nat>)
      returns (hash: Hash, bitsUsed': nat, hashUsed': nat, vMatch': seq<Hash>, vnIndex': seq<nat>)
      modifies `fBad
      ensures var w := Extract(pair, Value(), h, pos, bitsUsed, hashUsed);
              && fBad == (old(fBad) || w.bad) && hash == w.hash && bitsUsed' == w.bitsUsed && hashUsed' == w.hashUsed
              && vMatch' == vMatch + Hashes(w.found) && vnIndex' == vnIndex + Indexes(w.found)
      decreases h, 1
    {
      bitsUsed', hashUsed', vMatch', vnIndex' := bitsUsed, hashUsed, vMatch, vnIndex;
      if bitsUsed >= |vBits| {
        fBad := true;
        return 0, bitsUsed', hashUsed', vMatch', vnIndex';
      }
      var parentOfMatch := vBits[bitsUsed];
      if h == 0 || !parentOfMatch {
        bitsUsed' := bitsUsed + 1;
        if hashUsed >= |vHash| {
          fBad := true;
          return 0, bitsUsed', hashUsed', vMatch', vnIndex';
        }
        hash := vHash[hashUsed];
        hashUsed' := hashUsed + 1;
        if h == 0 && parentOfMatch {
          vMatch', vnIndex' := vMatch + [hash], vnIndex + [pos];
        }
      } else {
        hash, bitsUsed', hashUsed', vMatch', vnIndex' := Descend(h, pos, bitsUsed, hashUsed, vMatch, vnIndex);
      }
    }

    /** The else branch of TraverseAndExtract: into the subtrees, then combine. */
    method Descend(h: nat, pos: nat, bitsUsed: nat, hashUsed: nat, vMatch: seq<Hash>, vnIndex: seq<nat>)
      returns (hash: Hash, bitsUsed': nat, hashUsed': nat, vMatch': seq<Hash>, vnIndex': seq<nat>)
      requires h > 0 && bitsUsed < |vBits| && vBits[bitsUsed]
      modifies `fBad
      ensures var w := Extract(pair, Value(), h, pos, bitsUsed, hashUsed);
              && fBad == (old(fBad) || w.bad) && hash == w.hash && bitsUsed' == w.bitsUsed && hashUsed' == w.hashUsed
              && vMatch' == vMatch + Hashes(w.found) && vnIndex' == vnIndex + Indexes(w.found)
      decreases h, 0
    {
      hide Hashes, Indexes, Width, Extract;
      ghost var t := Value();
      ExtractStep(pair, t, h, pos, bitsUsed, hashUsed);
      ghost var l := Extract(pair, t, h - 1, 2 * pos, bitsUsed + 1, hashUsed);
      var left, right;
      left, bitsUsed', hashUsed', vMatch', vnIndex' :=
        TraverseAndExtract(h - 1, 2 * pos, bitsUsed + 1, hashUsed, vMatch, vnIndex);
      if 2 * pos + 1 < Width(nTransactions, h - 1) {
        ghost var r := Extract(pair, t, h - 1, 2 * pos + 1, bitsUsed', hashUsed');
        right, bitsUsed', hashUsed', vMatch', vnIndex' :=
          TraverseAndExtract(h - 1, 2 * pos + 1, bitsUsed', hashUsed', vMatch', vnIndex');
        SplitFound(l.found, r.found);
        assert vMatch' == vMatch + (Hashes(l.found) + Hashes(r.found));
        assert vnIndex' == vnIndex + (Indexes(l.found) + Indexes(r.found));
        if right == left {
          fBad := true;
        }
      } else {
        right := left;
      }
      hash := pair(left, right);
    }

    /**
     * ExtractMatches clears vMatch but appends to the caller's vnIndex.  On an
     * object straight from the constructor or the wire fBad is not yet set.
     */
    method Matches(maxTx: nat, vnIndex: seq<nat>) returns (root: Option<Hash>, vMatch: seq<Hash>, vnIndex': seq<nat>)
      modifies `fBad
      ensures old(fBad) ==> root == None
      ensures !old(fBad) ==>
        match ExtractMatches(pair, maxTx, Value())
        case Rejected => root == None
        case Accepted(hash, found) => root == Some(hash) && vMatch == Hashes(found) && vnIndex' == vnIndex + Indexes(found)
    {
      vMatch, vnIndex' := [], vnIndex;
      if nTransactions == 0 || nTransactions > maxTx || |vHash| > nTransactions || |vBits| < |vHash| {
        return None, vMatch, vnIndex';
      }
      var h := TreeHeight();
      var hash, bitsUsed, hashUsed;
      hash, bitsUsed, hashUsed, vMatch, vnIndex' := TraverseAndExtract(h, 0, 0, 0, vMatch, vnIndex');
      if fBad || (bitsUsed + 7) / 8 != (|vBits| + 7) / 8 || hashUsed != |vHash| {
        return None, vMatch, vnIndex';
      }
      root := Some(hash);
    }
  }

  function Hashes(found: seq<(nat, Hash)>): (r: seq<Hash>) {
    seq(|found|, i requires 0 <= i < |found| => found[i].1)
  }

  function Indexes(found: seq<(nat, Hash)>): (r: seq<nat>) {
    seq(|found|, i requires 0 <= i < |found| => found[i].0)
  }

  lemma SplitFound(a: seq<(nat, Hash)>, b: seq<(nat, Hash)>)
    ensures Hashes(a + b) == Hashes(a) + Hashes(b) && Indexes(a + b) == Indexes(a) + Indexes(b)
  {
  }

  // ----- packing the bits ----------------------------------------------------------------

  method Pack(bits: seq<bool>) returns (bytes: seq<bv8>)
    ensures |bytes| == (|bits| + 7) / 8
    ensures forall p: nat :: p < 8 * |bytes| ==> (Packed(bytes, p) <==> p < |bits| && bits[p])
  {
    var a := new bv8[(|bits| + 7) / 8](_ => 0);
    forall p: nat | p < 8 * a.Length ensures !Packed(a[..], p) { ZeroBits(p % 8); }
    var p := 0;
    while p < |bits|
      invariant 0 <= p <= |bits|
      invariant forall q: nat :: q < 8 * a.Length ==> (Packed(a[..], q) <==> q < p && bits[q])
    {
      ghost var before := a[..];
      if bits[p] {
        a[p / 8] := a[p / 8] | Mask(p % 8);
      }
      forall q: nat | q < 8 * a.Length ensures Packed(a[..], q) <==> q < p + 1 && bits[q] {
        assert Packed(before, q) <==> q < p && bits[q];
        SetBit(before[p / 8], p % 8, q % 8);
      }
      p := p + 1;
    }
    bytes := a[..];
  }

  method Unpack(bytes: seq<bv8>) returns (bits: seq<bool>)
    ensures |bits| == 8 * |bytes|
    ensures forall p: nat :: p < |bits| ==> (bits[p] <==> Packed(bytes, p))
  {
    bits := [];
    for p := 0 to 8 * |bytes|
      invariant |bits| == p
      invariant forall q: nat :: q < p ==> (bits[q] <==> Packed(bytes, q))
    {
      bits := bits + [BitOf(bytes[p / 8], p % 8)];
    }
  }

  /**
   * Through the wire: pack, unpack, extract.  The padding bits change nothing.
   */
  method SendAndExtract(pair: (Hash, Hash) -> Hash, maxTx: nat, txids: seq<Hash>, matched: seq<bool>) returns (a: Answer)
    requires |txids| == |matched| && 0 < |txids| <= maxTx && Distinct(txids)
    ensures Width(|txids|, Height(|txids|)) == 1
    ensures a == Accepted(CalcHash(pair, txids, Height(|txids|), 0), MerkleTree.Matches(txids, matched, 0, |txids|))
            || exists h: nat, p: nat, q: nat :: p < q < Width(|txids|, h) &&
                 var c := FindTwin(pair, txids, h, p, q); c.Some? && IsCollision(pair, c.value)
  {
    var t := new PartialMerkleTree(pair, txids, matched);
    var bytes := Pack(t.vBits);
    var bits := Unpack(bytes);
    ghost var padding := bits[|t.vBits|..];
    assert bits == t.vBits + padding;
    RoundTrip(pair, maxTx, txids, matched, padding);
    a := ExtractMatches(pair, maxTx, Partial(|txids|, bits, t.vHash));
  }
}
