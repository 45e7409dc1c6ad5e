/**
 * The rolling Bloom filter: a cell is two bits, kept in two neighbouring words,
 * and holds the generation (1, 2 or 3) that last set it, or 0.
 */
module RollingBloom {

  type Key = nat
  type Word = x: nat | x < 0x1_0000_0000
  type Hash = (nat, Word, Key) -> Word

  // ----- one cell ------------------------------------------------------------------------------

  predicate Bit(w: bv64, b: bv6) {
    w & ((1 as bv64) << b) != 0
  }

  lemma ShiftDown(w: bv64, b: bv6)
    ensures Bit(w, b) <==> (w >> b) & 1 == 1
  {
  }

  function Code(lo: bool, hi: bool): (r: nat)
    ensures r <= 3
  {
    (if lo then 1 else 0) + (if hi then 2 else 0)
  }

  function Low(g: nat): bv64 { if g % 2 == 1 then 1 else 0 }
  function High(g: nat): bv64 { if g / 2 == 1 then 1 else 0 }

  // Word operations under names, so that each is looked into only once.
  function And(x: bv64, y: bv64): bv64 { x & y }
  function Or(x: bv64, y: bv64): bv64 { x | y }
  function Xor(x: bv64, y: bv64): bv64 { x ^ y }
  function Not(x: bv64): bv64 { !x }
  function Shift(x: bv64, b: bv6): bv64 { x << b }
  function Negate(x: bv64): bv64 { 0 - x }

  lemma AndBit(x: bv64, y: bv64, b: bv6)
    ensures Bit(x & y, b) <==> Bit(x, b) && Bit(y, b)
  {
  }

  lemma AndAt(x: bv64, y: bv64, b: bv6)
    ensures Bit(And(x, y), b) <==> Bit(x, b) && Bit(y, b)
  {
    hide Bit;
    AndBit(x, y, b);
  }

  lemma DeMorgan(x: bv64, y: bv64)
    ensures Or(x, y) == Not(And(Not(x), Not(y)))
  {
  }

  lemma OrAt(x: bv64, y: bv64, b: bv6)
    ensures Bit(Or(x, y), b) <==> Bit(x, b) || Bit(y, b)
  {
    hide Bit, Or, And, Not;
    DeMorgan(x, y);
    NotAt(And(Not(x), Not(y)), b);
    AndAt(Not(x), Not(y), b);
    NotAt(x, b);
    NotAt(y, b);
  }

  lemma XorBit(x: bv64, y: bv64, b: bv6)
    ensures Bit(x ^ y, b) <==> Bit(x, b) != Bit(y, b)
  {
  }

  lemma XorAt(x: bv64, y: bv64, b: bv6)
    ensures Bit(Xor(x, y), b) <==> Bit(x, b) != Bit(y, b)
  {
    hide Bit;
    XorBit(x, y, b);
  }

  lemma NotBit(x: bv64, b: bv6)
    ensures Bit(!x, b) <==> !Bit(x, b)
  {
  }

  lemma NotAt(x: bv64, b: bv6)
    ensures Bit(Not(x), b) <==> !Bit(x, b)
  {
    hide Bit;
    NotBit(x, b);
  }

  lemma ShiftAt(b: bv6, c: bv6)
    ensures Bit(Shift(1, b), c) <==> b == c
    ensures !Bit(Shift(0, b), c)
  {
  }

  lemma NegateAt(b: bv6)
    ensures !Bit(Negate(0), b) && Bit(Negate(1), b)
  {
  }

  function SetBit(w: bv64, b: bv6, v: bv64): bv64 {
    Or(And(w, Not(Shift(1, b))), Shift(v, b))
  }

  lemma SetBitAt(w: bv64, b: bv6, v: bv64, c: bv6)
    requires v == 0 || v == 1
    ensures Bit(SetBit(w, b, v), c) <==> if c == b then v == 1 else Bit(w, c)
  {
    hide Bit, And, Or, Not, Shift;
    OrAt(And(w, Not(Shift(1, b))), Shift(v, b), c);
    AndAt(w, Not(Shift(1, b)), c);
    NotAt(Shift(1, b), c);
    ShiftAt(b, c);
  }

  /** The bits that survive when generation g is wiped. */
  function KeepMask(p1: bv64, p2: bv64, g: nat): bv64 {
    Or(Xor(p1, Negate(Low(g))), Xor(p2, Negate(High(g))))
  }

  lemma KeepMaskAt(p1: bv64, p2: bv64, g: nat, b: bv6)
    requires 1 <= g <= 3
    ensures Bit(KeepMask(p1, p2, g), b) <==> Code(Bit(p1, b), Bit(p2, b)) != g
  {
    hide Bit, Or, Xor, Negate;
    OrAt(Xor(p1, Negate(Low(g))), Xor(p2, Negate(High(g))), b);
    XorAt(p1, Negate(Low(g)), b);
    XorAt(p2, Negate(High(g)), b);
    NegateAt(b);
  }

  // ----- the cells of a filter ---------------------------------------------------------------------

  /** The cell at bit b of the word pair w. */
  function Cell(data: seq<bv64>, w: nat, b: bv6): nat
    requires 2 * w + 1 < |data|
  {
    Code(Bit(data[2 * w], b), Bit(data[2 * w + 1], b))
  }

  function FastMod(x: Word, n: nat): (r: nat)
    requires n > 0
    ensures r < n
  {
    assert x * n <= 0xFFFF_FFFF * n;
    x * n / 0x1_0000_0000
  }

  /** The pair and bit of the n-th hash of a key. */
  function Pair(h: Word, size: nat): (w: nat)
    requires size > 0 && size % 2 == 0
    ensures 2 * w + 1 < size
  {
    FastMod(h, size) / 2
  }

  function Offset(h: Word): bv6 {
    (h % 64) as bv6
  }

  /** The position is the integer part of the hash's share of the size, the bit its lowest six bits. */
  lemma PositionIs(h: Word, size: nat, r: nat)
    requires size > 0
    ensures r == FastMod(h, size) <==> r * 0x1_0000_0000 <= h * size < (r + 1) * 0x1_0000_0000
    ensures Offset(h) as int == h % 64
  {
    var x := h % 64;
    assert (x as bv6) as int == x;
  }

  /** All cells of the key hold one of the given generations. */
  ghost predicate Marked(data: seq<bv64>, hash: Hash, tweak: Word, funcs: nat, key: Key, gens: set<nat>)
    requires |data| > 0 && |data| % 2 == 0
  {
    forall n :: 0 <= n < funcs ==>
      Cell(data, Pair(hash(n, tweak, key), |data|), Offset(hash(n, tweak, key))) in gens
  }

  function Next(g: nat): nat { if g == 3 then 1 else g + 1 }
  function Prev(g: nat): nat { if g <= 1 then 3 else g - 1 }

  /** What the cells say of the keys of the current generation and the two before it. */
  ghost predicate Remembers(data: seq<bv64>, hash: Hash, tweak: Word, funcs: nat, g: nat, older: seq<Key>, prev: seq<Key>, cur: seq<Key>)
    requires |data| > 0 && |data| % 2 == 0
  {
    && (forall k :: k in cur ==> Marked(data, hash, tweak, funcs, k, {g}))
    && (forall k :: k in prev ==> Marked(data, hash, tweak, funcs, k, {g, Prev(g)}))
    && (forall k :: k in older ==> Marked(data, hash, tweak, funcs, k, {1, 2, 3}))
  }

  ghost predicate Wiped(data: seq<bv64>, after: seq<bv64>, g: nat)
    requires |data| == |after|
  {
    forall w: nat, b: bv6 :: 2 * w + 1 < |data| ==> Cell(after, w, b) == if Cell(data, w, b) == g then 0 else Cell(data, w, b)
  }

  /** One of the first funcs hashes of the key is at this cell. */
  ghost predicate Reaches(hash: Hash, tweak: Word, funcs: nat, key: Key, size: nat, w: nat, b: bv6)
    requires size > 0 && size % 2 == 0
  {
    exists n :: 0 <= n < funcs && Pair(hash(n, tweak, key), size) == w && Offset(hash(n, tweak, key)) == b
  }

  /** The key's cells hold g, the others are as before. */
  ghost predicate Written(data: seq<bv64>, after: seq<bv64>, hash: Hash, tweak: Word, funcs: nat, key: Key, g: nat)
    requires |data| == |after| > 0 && |data| % 2 == 0
  {
    forall w: nat, b: bv6 :: 2 * w + 1 < |data| ==>
      Cell(after, w, b) == if Reaches(hash, tweak, funcs, key, |data|, w, b) then g else Cell(data, w, b)
  }

  /** The wipe that starts a generation spares the two generations before it. */
  lemma WipeRemembers(data: seq<bv64>, after: seq<bv64>, hash: Hash, tweak: Word, funcs: nat, g: nat, older: seq<Key>, prev: seq<Key>, cur: seq<Key>)
    requires |data| == |after| > 0 && |data| % 2 == 0 && 1 <= g <= 3
    requires Remembers(data, hash, tweak, funcs, g, older, prev, cur) && Wiped(data, after, Next(g))
    ensures Remembers(after, hash, tweak, funcs, Next(g), prev, cur, [])
  {
    forall k | k in prev ensures Marked(after, hash, tweak, funcs, k, {1, 2, 3}) {
      assert Marked(data, hash, tweak, funcs, k, {g, Prev(g)});
    }
    forall k | k in cur ensures Marked(after, hash, tweak, funcs, k, {Next(g), Prev(Next(g))}) {
      assert Marked(data, hash, tweak, funcs, k, {g});
    }
  }

  /** A whole insertion: the wipe, when a generation starts, then the key's cells. */
  ghost predicate Inserted(data: seq<bv64>, after: seq<bv64>, hash: Hash, tweak: Word, funcs: nat, key: Key, g: nat, starts: bool)
    requires |data| == |after| > 0 && |data| % 2 == 0
  {
    forall w: nat, b: bv6 :: 2 * w + 1 < |data| ==>
      Cell(after, w, b) ==
        if Reaches(hash, tweak, funcs, key, |data|, w, b) then g
        else if starts && Cell(data, w, b) == g then 0
        else Cell(data, w, b)
  }

  lemma WrittenNext(data: seq<bv64>, partly: seq<bv64>, after: seq<bv64>, hash: Hash, tweak: Word, n: nat, key: Key, g: nat)
    requires |data| == |partly| == |after| > 0 && |data| % 2 == 0 && Written(data, partly, hash, tweak, n, key, g)
    requires forall w: nat, b: bv6 :: 2 * w + 1 < |data| ==>
      Cell(after, w, b) == if w == Pair(hash(n, tweak, key), |data|) && b == Offset(hash(n, tweak, key)) then g else Cell(partly, w, b)
    ensures Written(data, after, hash, tweak, n + 1, key, g)
  {
    hide Cell, Pair, Offset;
  }

  lemma WriteRemembers(data: seq<bv64>, after: seq<bv64>, hash: Hash, tweak: Word, funcs: nat, g: nat, older: seq<Key>, prev: seq<Key>, cur: seq<Key>, key: Key)
    requires |data| == |after| > 0 && |data| % 2 == 0 && 1 <= g <= 3
    requires Remembers(data, hash, tweak, funcs, g, older, prev, cur) && Written(data, after, hash, tweak, funcs, key, g)
    ensures Remembers(after, hash, tweak, funcs, g, older, prev, cur + [key])
  {
    forall k | k in prev ensures Marked(after, hash, tweak, funcs, k, {g, Prev(g)}) {
      assert Marked(data, hash, tweak, funcs, k, {g, Prev(g)});
    }
    forall k | k in cur + [key] ensures Marked(after, hash, tweak, funcs, k, {g}) {
      if k in cur { assert Marked(data, hash, tweak, funcs, k, {g}); }
    }
    forall k | k in older ensures Marked(after, hash, tweak, funcs, k, {1, 2, 3}) {
      assert Marked(data, hash, tweak, funcs, k, {1, 2, 3});
    }
  }

  // ----- nothing else is remembered --------------------------------------------------------------------

  ghost predicate ReachedBy(hash: Hash, tweak: Word, funcs: nat, keys: seq<Key>, size: nat, w: nat, b: bv6)
    requires size > 0 && size % 2 == 0
  {
    exists k :: k in keys && Reaches(hash, tweak, funcs, k, size, w, b)
  }

  /** The keys that a cell with this number is left from. */
  ghost function KeysOf(c: nat, g: nat, older: seq<Key>, prev: seq<Key>, cur: seq<Key>): seq<Key> {
    if c == g then cur else if c == Prev(g) then prev else older
  }

  /** Every cell that is set belongs to a key of its generation. */
  ghost predicate Explained(data: seq<bv64>, hash: Hash, tweak: Word, funcs: nat, g: nat, older: seq<Key>, prev: seq<Key>, cur: seq<Key>)
    requires |data| > 0 && |data| % 2 == 0
  {
    forall w: nat, b: bv6 :: 2 * w + 1 < |data| && Cell(data, w, b) != 0 ==>
      ReachedBy(hash, tweak, funcs, KeysOf(Cell(data, w, b), g, older, prev, cur), |data|, w, b)
  }

  lemma ZeroExplained(data: seq<bv64>, hash: Hash, tweak: Word, funcs: nat, g: nat)
    requires |data| > 0 && |data| % 2 == 0 && forall i :: 0 <= i < |data| ==> data[i] == 0
    ensures Explained(data, hash, tweak, funcs, g, [], [], [])
  {
    forall w: nat, b: bv6 | 2 * w + 1 < |data| ensures Cell(data, w, b) == 0 { ZeroBit(b); }
  }

  lemma ZeroBit(b: bv6)
    ensures !Bit(0, b)
  {
  }

  lemma CellRange(data: seq<bv64>, w: nat, b: bv6)
    requires 2 * w + 1 < |data|
    ensures Cell(data, w, b) <= 3
  {
  }

  /** The wipe forgets the oldest generation. */
  lemma WipeExplained(data: seq<bv64>, after: seq<bv64>, hash: Hash, tweak: Word, funcs: nat, g: nat, older: seq<Key>, prev: seq<Key>, cur: seq<Key>)
    requires |data| == |after| > 0 && |data| % 2 == 0 && 1 <= g <= 3
    requires Explained(data, hash, tweak, funcs, g, older, prev, cur) && Wiped(data, after, Next(g))
    ensures Explained(after, hash, tweak, funcs, Next(g), prev, cur, [])
  {
    hide Cell, ReachedBy;
    forall w: nat, b: bv6 | 2 * w + 1 < |data| && Cell(after, w, b) != 0
      ensures ReachedBy(hash, tweak, funcs, KeysOf(Cell(after, w, b), Next(g), prev, cur, []), |data|, w, b)
    {
      CellRange(data, w, b);
    }
  }

  lemma WriteExplained(data: seq<bv64>, after: seq<bv64>, hash: Hash, tweak: Word, funcs: nat, g: nat, older: seq<Key>, prev: seq<Key>, cur: seq<Key>, key: Key)
    requires |data| == |after| > 0 && |data| % 2 == 0 && 1 <= g <= 3
    requires Explained(data, hash, tweak, funcs, g, older, prev, cur) && Written(data, after, hash, tweak, funcs, key, g)
    ensures Explained(after, hash, tweak, funcs, g, older, prev, cur + [key])
  {
    hide Cell, Reaches;
    forall w: nat, b: bv6 | 2 * w + 1 < |data| && Cell(after, w, b) != 0
      ensures ReachedBy(hash, tweak, funcs, KeysOf(Cell(after, w, b), g, older, prev, cur + [key]), |data|, w, b)
    {
      if Reaches(hash, tweak, funcs, key, |data|, w, b) {
        assert key in cur + [key];
      } else {
        MoreKeys(hash, tweak, funcs, cur, key, |data|, w, b);
      }
    }
  }

  lemma MoreKeys(hash: Hash, tweak: Word, funcs: nat, keys: seq<Key>, key: Key, size: nat, w: nat, b: bv6)
    requires size > 0 && size % 2 == 0
    ensures ReachedBy(hash, tweak, funcs, keys, size, w, b) ==> ReachedBy(hash, tweak, funcs, keys + [key], size, w, b)
  {
    hide Reaches;
    if k :| k in keys && Reaches(hash, tweak, funcs, k, size, w, b) { assert k in keys + [key]; }
  }

  /** Every cell of the key is also one of these keys. */
  ghost predicate Covered(hash: Hash, tweak: Word, funcs: nat, key: Key, size: nat, keys: seq<Key>)
    requires size > 0 && size % 2 == 0
  {
    forall n :: 0 <= n < funcs ==> ReachedBy(hash, tweak, funcs, keys, size, Pair(hash(n, tweak, key), size), Offset(hash(n, tweak, key)))
  }

  lemma CellSetIff(data: seq<bv64>, hash: Hash, tweak: Word, funcs: nat, g: nat, older: seq<Key>, prev: seq<Key>, cur: seq<Key>, w: nat, b: bv6)
    requires |data| > 0 && |data| % 2 == 0 && 1 <= g <= 3 && 2 * w + 1 < |data|
    requires Remembers(data, hash, tweak, funcs, g, older, prev, cur) && Explained(data, hash, tweak, funcs, g, older, prev, cur)
    ensures Cell(data, w, b) != 0 <==> ReachedBy(hash, tweak, funcs, older + prev + cur, |data|, w, b)
  {
    hide Cell, Pair, Offset;
    var keys := older + prev + cur;
    if Cell(data, w, b) != 0 {
      var k :| k in KeysOf(Cell(data, w, b), g, older, prev, cur) && Reaches(hash, tweak, funcs, k, |data|, w, b);
      assert k in keys;
    }
    if k :| k in keys && Reaches(hash, tweak, funcs, k, |data|, w, b) {
      var n :| 0 <= n < funcs && Pair(hash(n, tweak, k), |data|) == w && Offset(hash(n, tweak, k)) == b;
      assert k in older || k in prev || k in cur;
    }
  }

  /** A key is found if and only if remembered keys cover its cells. */
  lemma MarkedIff(data: seq<bv64>, hash: Hash, tweak: Word, funcs: nat, g: nat, older: seq<Key>, prev: seq<Key>, cur: seq<Key>, key: Key)
    requires |data| > 0 && |data| % 2 == 0 && 1 <= g <= 3
    requires Remembers(data, hash, tweak, funcs, g, older, prev, cur) && Explained(data, hash, tweak, funcs, g, older, prev, cur)
    ensures Marked(data, hash, tweak, funcs, key, {1, 2, 3}) <==> Covered(hash, tweak, funcs, key, |data|, older + prev + cur)
  {
    hide Cell, Pair, Offset, Remembers, Explained, ReachedBy;
    forall n | 0 <= n < funcs
      ensures Cell(data, Pair(hash(n, tweak, key), |data|), Offset(hash(n, tweak, key))) in {1, 2, 3} <==>
              ReachedBy(hash, tweak, funcs, older + prev + cur, |data|, Pair(hash(n, tweak, key), |data|), Offset(hash(n, tweak, key)))
    {
      var w, b := Pair(hash(n, tweak, key), |data|), Offset(hash(n, tweak, key));
      CellRange(data, w, b);
      CellSetIff(data, hash, tweak, funcs, g, older, prev, cur, w, b);
    }
  }

  // ----- the filter ------------------------------------------------------------------------------------

  ghost function Last(s: seq<Key>, n: nat): seq<Key> {
    if n < |s| then s[|s| - n..] else s
  }

  /** gone, older and prev are the earlier insertions; all full generations are of the same length. */
  ghost predicate Windows(history: seq<Key>, gone: seq<Key>, older: seq<Key>, prev: seq<Key>, cur: seq<Key>, per: nat) {
    && history == gone + older + prev + cur
    && (|prev| == per || (prev == [] && older == [])) && (|older| == per || older == []) && (gone != [] ==> |older| == per)
  }

  lemma WindowIsLast(history: seq<Key>, gone: seq<Key>, older: seq<Key>, prev: seq<Key>, cur: seq<Key>, per: nat)
    requires Windows(history, gone, older, prev, cur, per)
    ensures Last(history, 2 * per + |cur|) == older + prev + cur
  {
    assert history == gone + (older + prev + cur);
  }

  lemma WindowRotate(history: seq<Key>, gone: seq<Key>, older: seq<Key>, prev: seq<Key>, cur: seq<Key>, per: nat)
    requires Windows(history, gone, older, prev, cur, per) && |cur| == per
    ensures Windows(history, gone + older, prev, cur, [], per)
  {
  }

  lemma WindowAppend(history: seq<Key>, gone: seq<Key>, older: seq<Key>, prev: seq<Key>, cur: seq<Key>, per: nat, key: Key)
    requires Windows(history, gone, older, prev, cur, per)
    ensures Windows(history + [key], gone, older, prev, cur + [key], per)
  {
  }

  /** One pair of words before and after the wipe. */
  lemma WipePair(p1: bv64, p2: bv64, g: nat, b: bv6)
    requires 1 <= g <= 3
    ensures var mask := KeepMask(p1, p2, g);
      Code(Bit(And(p1, mask), b), Bit(And(p2, mask), b)) == if Code(Bit(p1, b), Bit(p2, b)) == g then 0 else Code(Bit(p1, b), Bit(p2, b))
  {
    hide Bit, And, KeepMask;
    KeepMaskAt(p1, p2, g, b);
    AndAt(p1, KeepMask(p1, p2, g), b);
    AndAt(p2, KeepMask(p1, p2, g), b);
  }

  lemma WritePair(p1: bv64, p2: bv64, g: nat, bit: bv6, b: bv6)
    requires 1 <= g <= 3
    ensures Code(Bit(SetBit(p1, bit, Low(g)), b), Bit(SetBit(p2, bit, High(g)), b)) == if b == bit then g else Code(Bit(p1, b), Bit(p2, b))
  {
    hide Bit, SetBit;
    SetBitAt(p1, bit, Low(g), b);
    SetBitAt(p2, bit, High(g), b);
  }

  predicate Shown(p1: bv64, p2: bv64, b: bv6) {
    (Or(p1, p2) >> b) & 1 == 1
  }

  lemma ShownIff(p1: bv64, p2: bv64, b: bv6)
    ensures Shown(p1, p2, b) <==> Code(Bit(p1, b), Bit(p2, b)) != 0
  {
    hide Bit, Or;
    ShiftDown(Or(p1, p2), b);
    OrAt(p1, p2, b);
  }

  class RollingBloomFilter {
    const hash: Hash
    const funcs: nat
    const perGeneration: nat
    const data: array<bv64>
    var thisGeneration: nat
    var generation: nat
    var tweak: Word

    /** All keys inserted since the last reset, cut into generations. */
    ghost var history: seq<Key>
    ghost var gone: seq<Key>
    ghost var older: seq<Key>
    ghost var prev: seq<Key>
    ghost var cur: seq<Key>

    ghost predicate Valid()
      reads this, data
    {
      && data.Length > 0 && data.Length % 2 == 0 && 1 <= generation <= 3
      && Remembers(data[..], hash, tweak, funcs, generation, older, prev, cur)
      && Explained(data[..], hash, tweak, funcs, generation, older, prev, cur)
      && Windows(history, gone, older, prev, cur, perGeneration) && thisGeneration == |cur|
    }

    /** The number of hash functions and of word pairs come out of floating-point sizing. */
    constructor (nElements: nat, funcs: nat, pairs: nat, hash: Hash, tweak: Word)
      requires pairs > 0
      ensures Valid() && fresh(data) && history == [] && this.hash == hash && this.funcs == funcs
      ensures data.Length == 2 * pairs && (forall i :: 0 <= i < data.Length ==> data[i] == 0) && nElements <= 2 * perGeneration <= nElements + 1
    {
      this.hash, this.funcs, perGeneration := hash, funcs, (nElements + 1) / 2;
      data := new bv64[2 * pairs](_ => 0);
      thisGeneration, generation, this.tweak := 0, 1, tweak;
      history, gone, older, prev, cur := [], [], [], [], [];
      new;
      ZeroExplained(data[..], hash, tweak, funcs, 1);
    }

    method Reset(tweak: Word)
      requires Valid()
      modifies this, data
      ensures Valid() && history == [] && this.tweak == tweak && forall i :: 0 <= i < data.Length ==> data[i] == 0
    {
      this.tweak, thisGeneration, generation := tweak, 0, 1;
      history, gone, older, prev, cur := [], [], [], [], [];
      for i := 0 to data.Length
        modifies data
        invariant forall j :: 0 <= j < i ==> data[j] == 0
      {
        data[i] := 0;
      }
      ZeroExplained(data[..], hash, tweak, funcs, 1);
    }

    /** Clear every cell of generation g. */
    method Wipe(g: nat)
      requires data.Length % 2 == 0 && 1 <= g <= 3
      modifies data
      ensures Wiped(old(data[..]), data[..], g)
    {
      hide Bit, And, KeepMask, Code;
      var p := 0;
      while p < data.Length
        invariant 0 <= p <= data.Length && p % 2 == 0
        invariant forall i :: p <= i < data.Length ==> data[i] == old(data[i])
        invariant forall w: nat, b: bv6 :: 2 * w + 1 < p ==>
          Cell(data[..], w, b) == if Cell(old(data[..]), w, b) == g then 0 else Cell(old(data[..]), w, b)
        decreases data.Length - p
      {
        var p1, p2 := data[p], data[p + 1];
        var mask := KeepMask(p1, p2, g);
        forall b: bv6 ensures Code(Bit(And(p1, mask), b), Bit(And(p2, mask), b)) == if Code(Bit(p1, b), Bit(p2, b)) == g then 0 else Code(Bit(p1, b), Bit(p2, b)) {
          WipePair(p1, p2, g, b);
        }
        data[p] := And(p1, mask);
        data[p + 1] := And(p2, mask);
        p := p + 2;
      }
    }

    /** Set one cell. */
    method Write(h: Word, g: nat)
      requires data.Length > 0 && data.Length % 2 == 0 && 1 <= g <= 3
      modifies data
      ensures forall w: nat, b: bv6 :: 2 * w + 1 < data.Length ==>
        Cell(data[..], w, b) == if w == Pair(h, data.Length) && b == Offset(h) then g else Cell(old(data[..]), w, b)
    {
      hide Bit, SetBit, Code, Low, High, Offset, FastMod;
      var bit := Offset(h);
      var pos := FastMod(h, data.Length);
      var even := pos - pos % 2;
      var p1, p2 := data[even], data[even + 1];
      forall b: bv6 ensures Code(Bit(SetBit(p1, bit, Low(g)), b), Bit(SetBit(p2, bit, High(g)), b)) == if b == bit then g else Code(Bit(p1, b), Bit(p2, b)) {
        WritePair(p1, p2, g, bit, b);
      }
      data[even] := SetBit(p1, bit, Low(g));
      data[even + 1] := SetBit(p2, bit, High(g));
    }

    method StartGeneration()
      requires Valid() && thisGeneration == perGeneration
      modifies this, data
      ensures Valid() && history == old(history) && thisGeneration == 0 && tweak == old(tweak)
      ensures generation == Next(old(generation)) && Wiped(old(data[..]), data[..], generation)
    {
      hide Cell, Remembers, Explained;
      thisGeneration := 0;
      generation := generation + 1;
      if generation == 4 { generation := 1; }
      Wipe(generation);
      WipeRemembers(old(data[..]), data[..], hash, tweak, funcs, old(generation), older, prev, cur);
      WipeExplained(old(data[..]), data[..], hash, tweak, funcs, old(generation), older, prev, cur);
      WindowRotate(history, gone, older, prev, cur, perGeneration);
      gone, older, prev, cur := gone + older, prev, cur, [];
    }

    method Insert(key: Key)
      requires Valid()
      modifies this, data
      ensures Valid() && history == old(history) + [key]
      ensures tweak == old(tweak) && thisGeneration == (if old(thisGeneration) == perGeneration then 0 else old(thisGeneration)) + 1
      ensures generation == if old(thisGeneration) == perGeneration then Next(old(generation)) else old(generation)
      ensures Inserted(old(data[..]), data[..], hash, tweak, funcs, key, generation, old(thisGeneration) == perGeneration)
    {
      hide Cell, Remembers, Explained;
      if thisGeneration == perGeneration { StartGeneration(); }
      thisGeneration := thisGeneration + 1;
      ghost var before := data[..];
      for n := 0 to funcs
        modifies data
        invariant Written(before, data[..], hash, tweak, n, key, generation)
      {
        ghost var partly := data[..];
        Write(hash(n, tweak, key), generation);
        WrittenNext(before, partly, data[..], hash, tweak, n, key, generation);
      }
      WriteRemembers(before, data[..], hash, tweak, funcs, generation, older, prev, cur, key);
      WriteExplained(before, data[..], hash, tweak, funcs, generation, older, prev, cur, key);
      WindowAppend(history, gone, older, prev, cur, perGeneration, key);
      cur := cur + [key];
      history := history + [key];
    }

    /**
     * No false negatives for the latest insertions, and no false positives but
     * for keys all of whose cells are shared with some of those insertions.
     */
    method Contains(key: Key) returns (found: bool)
      requires Valid()
      ensures found <==> Covered(hash, tweak, funcs, key, data.Length, Last(history, 2 * perGeneration + thisGeneration))
      ensures key in Last(history, 2 * perGeneration + thisGeneration) ==> found
      ensures found <==> Marked(data[..], hash, tweak, funcs, key, {1, 2, 3})
    {
      hide Bit, Code, Offset, FastMod, Shown, Explained, Covered;
      WindowIsLast(history, gone, older, prev, cur, perGeneration);
      MarkedIff(data[..], hash, tweak, funcs, generation, older, prev, cur, key);
      for n := 0 to funcs
        invariant Marked(data[..], hash, tweak, n, key, {1, 2, 3})
      {
        var h := hash(n, tweak, key);
        var pos := FastMod(h, data.Length);
        var even := pos - pos % 2;
        ShownIff(data[even], data[even + 1], Offset(h));
        if !Shown(data[even], data[even + 1], Offset(h)) {
          assert Cell(data[..], Pair(h, data.Length), Offset(h)) == 0;
          return false;
        }
      }
      return true;
    }
  }
}
