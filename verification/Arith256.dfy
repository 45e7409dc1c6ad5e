/**
 * Unsigned 256-bit integers as eight 32-bit limbs, least significant first,
 * the compact target format, and the proof of work of a block.
 */
module Arith256 {
  import opened Powers

  const B: nat := 0x1_0000_0000
  const WIDTH: nat := 8

  // ----- limbs and their value --------------------------------------------------------------------

  ghost predicate Limbs(s: seq<nat>) {
    forall i :: 0 <= i < |s| ==> s[i] < B
  }

  ghost function LVal(s: seq<nat>): nat {
    if s == [] then 0 else LVal(s[..|s| - 1]) + s[|s| - 1] * Pow(B, |s| - 1)
  }

  lemma LValNext(s: seq<nat>, i: nat)
    requires i < |s|
    ensures LVal(s[..i + 1]) == LVal(s[..i]) + s[i] * Pow(B, i)
  {
    assert s[..i + 1][..i] == s[..i];
  }

  lemma {:induction false} LValBound(s: seq<nat>)
    requires Limbs(s)
    ensures LVal(s) < Pow(B, |s|)
  {
    if s != [] {
      var t, n := s[..|s| - 1], |s| - 1;
      LValBound(t);
      MulMono(s[n] + 1, B, Pow(B, n), Pow(B, n));
      Distribute(Pow(B, n), s[n], 1);
    }
  }

  lemma {:induction false} LValUpdate(s: seq<nat>, k: nat, v: nat)
    requires k < |s|
    ensures LVal(s[k := v]) == LVal(s) + (v - s[k]) * Pow(B, k)
  {
    var n := |s| - 1;
    if k == n {
      assert s[k := v][..n] == s[..n];
      Distribute(Pow(B, k), s[k], v - s[k]);
    } else {
      assert s[k := v][..n] == s[..n][k := v];
      LValUpdate(s[..n], k, v);
    }
  }

  lemma {:induction false} LValZero(s: seq<nat>)
    requires forall i :: 0 <= i < |s| ==> s[i] == 0
    ensures LVal(s) == 0
  {
    if s != [] { LValZero(s[..|s| - 1]); }
  }

  lemma TopDecides(s: seq<nat>, t: seq<nat>)
    requires |s| == |t| > 0 && Limbs(s) && s[|s| - 1] < t[|s| - 1]
    ensures LVal(s) < LVal(t)
  {
    hide Pow;
    var n := |s| - 1;
    LValBound(s[..n]);
    MulMono(s[n] + 1, t[n], Pow(B, n), Pow(B, n));
    Distribute(Pow(B, n), s[n], 1);
  }

  /** The highest limb that differs decides. */
  lemma {:induction false} LValCompare(s: seq<nat>, t: seq<nat>, i: nat)
    requires |s| == |t| && Limbs(s) && i < |s| && s[i] < t[i] && forall j :: i < j < |s| ==> s[j] == t[j]
    ensures LVal(s) < LVal(t)
    decreases |s|
  {
    hide Pow;
    var n := |s| - 1;
    if i == n { TopDecides(s, t); } else { LValCompare(s[..n], t[..n], i); }
  }

  // ----- bits ----------------------------------------------------------------------------------------

  function Two(n: nat): (p: nat)
    ensures p > 0
  {
    PowPositive(2, n);
    Pow(2, n)
  }

  lemma TwoNext(n: nat)
    requires n > 0
    ensures Two(n) == 2 * Two(n - 1)
  {
  }

  function BitOr(a: nat, b: nat): nat
    decreases a + b
  {
    if a == 0 then b else if b == 0 then a
    else 2 * BitOr(a / 2, b / 2) + if a % 2 == 1 || b % 2 == 1 then 1 else 0
  }

  /** Bits that do not overlap simply add up. */
  lemma {:induction false} BitOrDisjoint(low: nat, high: nat, s: nat)
    requires low < Two(s) && high % Two(s) == 0
    ensures BitOr(low, high) == low + high && BitOr(high, low) == low + high
    decreases s
  {
    if low > 0 && high > 0 && s > 0 {
      TwoNext(s);
      HalfMultiple(high, Two(s - 1));
      BitOrDisjoint(low / 2, high / 2, s - 1);
    }
  }

  lemma HalfMultiple(x: nat, p: nat)
    requires p > 0 && x % (2 * p) == 0
    ensures x % 2 == 0 && x / 2 % p == 0
  {
    var q := x / (2 * p);
    assert x == 2 * p * q;
    Regroup(2, p, q);
    assert x / 2 == p * q;
    MultipleMod(p, q);
  }

  lemma MultipleMod(p: nat, q: nat)
    requires p > 0
    ensures p * q % p == 0
  {
    DivModIs(p * q, p, q, 0);
  }

  // ----- shifting by whole limbs and bits -----------------------------------------------------------

  ghost const M: nat := Pow(B, WIDTH)

  lemma TwoLimb()
    ensures Two(0) == 1 && Two(32) == B
  {
    assert Pow(2, 8) == 256;
    PowAdd(2, 8, 8);
    PowAdd(2, 16, 16);
  }

  lemma PowB(k: nat)
    ensures Two(32 * k) == Pow(B, k)
  {
    TwoLimb();
    PowMul(2, 32, k);
  }

  lemma TwoAdd(m: nat, n: nat)
    ensures Two(m + n) == Two(m) * Two(n)
  {
    PowAdd(2, m, n);
  }

  lemma TwoMono(m: nat, n: nat)
    requires m <= n
    ensures Two(m) <= Two(n)
  {
    PowMono(2, m, n);
  }

  lemma PowSplit(r: nat)
    requires r <= 32
    ensures Two(r) * Two(32 - r) == B
  {
    TwoLimb();
    TwoAdd(r, 32 - r);
  }

  /** A limb shifted left by r: what stays and what moves to the next limb. */
  lemma LeftParts(x: nat, r: nat)
    requires x < B && r < 32
    ensures x / Two(32 - r) < Two(r)
    ensures x * Two(r) == x / Two(32 - r) * B + x * Two(r) % B
    ensures x * Two(r) % B % Two(r) == 0
    ensures r == 0 ==> x / Two(32 - r) == 0
  {
    hide Pow, Two;
    PowSplit(r);
    var p, c := Two(r), Two(32 - r);
    var h, l := x / c, x % c;
    assert x == c * h + l;
    HighPart(x, p, c, h, l);
    Distribute(p, c * h, l);
    Regroup(p, c, h);
    assert x * p == B * h + p * l;
    MulMono(p, p, l + 1, c);
    Distribute(p, l, 1);
    DivModIs(x * p, B, h, p * l);
    MultipleMod(p, l);
    if r == 0 { TwoLimb(); }
  }

  function Push(s: seq<nat>, j: nat, v: nat): (r: seq<nat>)
    ensures |r| == |s|
  {
    if j < |s| then s[j := BitOr(s[j], v)] else s
  }

  /** A limb that is or-ed in where nothing overlaps adds its value, up to multiples of the modulus. */
  lemma PushAdds(s: seq<nat>, j: nat, v: nat, t: nat) returns (q: nat)
    requires |s| == WIDTH && Limbs(s) && (j < |s| ==> (s[j] < Two(t) && v % Two(t) == 0) || (v < Two(t) && s[j] % Two(t) == 0))
    requires j < |s| ==> s[j] + v < B
    ensures Limbs(Push(s, j, v)) && LVal(Push(s, j, v)) + q * M == LVal(s) + v * Pow(B, j)
    ensures j < |s| ==> Push(s, j, v)[j] == s[j] + v && q == 0
  {
    hide Pow, Two;
    if j < |s| {
      if s[j] < Two(t) && v % Two(t) == 0 { BitOrDisjoint(s[j], v, t); } else { BitOrDisjoint(v, s[j], t); }
      LValUpdate(s, j, s[j] + v);
      q := 0;
    } else {
      PowAdd(B, j - WIDTH, WIDTH);
      q := v * Pow(B, j - WIDTH);
      Regroup(v, Pow(B, j - WIDTH), M);
    }
  }

  function PushHigh(s: seq<nat>, x: nat, j: nat, r: nat): (t: seq<nat>)
    requires r < 32
    ensures |t| == |s|
  {
    if r != 0 then Push(s, j + 1, x / Two(32 - r)) else s
  }

  function PushLeft(s: seq<nat>, x: nat, j: nat, r: nat): (t: seq<nat>)
    requires r < 32
    ensures |t| == |s|
  {
    Push(PushHigh(s, x, j, r), j, x * Two(r) % B)
  }

  /** Room for the next limb: r bits at j, nothing above. */
  ghost predicate Room(s: seq<nat>, j: nat, r: nat) {
    |s| == WIDTH && Limbs(s) && (j < WIDTH ==> s[j] < Two(r)) && forall i :: j < i < WIDTH ==> s[i] == 0
  }

  lemma PushHighAdds(s: seq<nat>, x: nat, j: nat, r: nat) returns (q: nat)
    requires Room(s, j, r) && x < B && r < 32
    ensures var t := PushHigh(s, x, j, r);
      && Limbs(t) && LVal(t) + q * M == LVal(s) + x / Two(32 - r) * Pow(B, j + 1)
      && (j < WIDTH ==> t[j] == s[j]) && Room(t, j + 1, r)
  {
    hide Pow, Two, BitOr, LVal;
    LeftParts(x, r);
    q := 0;
    if r != 0 {
      BelowB(r);
      q := PushAdds(s, j + 1, x / Two(32 - r), r);
    } else {
      assert 0 * Pow(B, j + 1) == 0;
    }
  }

  lemma PushLeftAdds(s: seq<nat>, x: nat, j: nat, r: nat) returns (q: nat)
    requires Room(s, j, r) && x < B && r < 32
    ensures var t := PushLeft(s, x, j, r);
      LVal(t) + q * M == LVal(s) + x * Two(r) * Pow(B, j) && Room(t, j + 1, r)
  {
    hide Pow, Two, BitOr, LVal, PushHigh;
    LeftParts(x, r);
    var hi, lo := x / Two(32 - r), x * Two(r) % B;
    var q1 := PushHighAdds(s, x, j, r);
    var mid := PushHigh(s, x, j, r);
    if j < WIDTH { SumBelow(s[j], lo, r); }
    var q2 := PushAdds(mid, j, lo, r);
    q := q1 + q2;
    PowStep(j);
    LeftArithmetic(LVal(s), LVal(mid), LVal(PushLeft(s, x, j, r)), hi, lo, x * Two(r), Pow(B, j), Pow(B, j + 1), q1, q2, M);
  }

  lemma PowStep(j: nat)
    ensures Pow(B, j + 1) == B * Pow(B, j)
  {
  }

  lemma BelowB(r: nat)
    requires r <= 32
    ensures Two(r) <= B
  {
    TwoMono(r, 32);
    TwoLimb();
  }

  lemma SumBelow(a: nat, b: nat, r: nat)
    requires r < 32 && a < Two(r) && b < B && b % Two(r) == 0
    ensures a + b < B
  {
    hide Pow, Two;
    PowSplit(r);
    var p, c := Two(r), Two(32 - r);
    var h := b / p;
    assert b == p * h;
    if h >= c { MulMono(p, p, c, h); }
    MulMono(p, p, h + 1, c);
    Distribute(p, h, 1);
  }

  lemma HighPart(x: nat, p: nat, c: nat, h: nat, l: nat)
    requires p * c == B && x == c * h + l && x < B
    ensures h < p
  {
    if h >= p { MulMono(c, c, p, h); }
  }

  lemma LeftArithmetic(s: nat, mid: nat, t: nat, hi: nat, lo: nat, y: nat, p: nat, p1: nat, q1: nat, q2: nat, m: nat)
    requires y == hi * B + lo && p1 == B * p && mid + q1 * m == s + hi * p1 && t + q2 * m == mid + lo * p
    ensures t + (q1 + q2) * m == s + y * p
  {
    Distribute(m, q1, q2);
    Distribute(p, hi * B, lo);
    Regroup(hi, B, p);
  }

  lemma ShiftTerm(x: nat, i: nat, k: nat, r: nat)
    ensures x * Pow(B, i) * Two(32 * k + r) == x * Two(r) * Pow(B, i + k)
  {
    hide Pow, Two;
    TwoAdd(32 * k, r);
    PowB(k);
    PowAdd(B, i, k);
    Shuffle(x, Pow(B, i), Pow(B, k), Two(r));
  }

  lemma Shuffle(x: nat, a: nat, b: nat, c: nat)
    ensures x * a * (b * c) == x * c * (a * b)
  {
    Regroup(x * a, b, c);
    Regroup(x * c, a, b);
    Regroup(x, a, b);
    Regroup(x, c, a);
    assert x * a * b * c == (x * a * b) * c == c * (x * (a * b)) == (x * (a * b)) * c;
    Regroup(x, a * b, c);
    Regroup(x, c, a * b);
    assert (a * b) * c == c * (a * b);
  }

  // ----- to the right -----------------------------------------------------------------------------------

  /** A limb shifted right by r: what stays, and what moves to the limb below. */
  lemma RightParts(x: nat, r: nat)
    requires x < B && 0 < r < 32
    ensures x * Two(32 - r) % B == x % Two(r) * Two(32 - r)
    ensures x % Two(r) * Two(32 - r) % Two(32 - r) == 0 && x / Two(r) < Two(32 - r)
    ensures Two(32 - r) + x % Two(r) * Two(32 - r) <= B
  {
    hide Pow, Two;
    PowSplit(r);
    var p, c := Two(r), Two(32 - r);
    var h, l := x / p, x % p;
    assert x == p * h + l;
    HighPart(x, c, p, h, l);
    MulMono(l + 1, p, c, c);
    Distribute(c, l, 1);
    Distribute(c, p * h, l);
    Regroup(c, p, h);
    assert x * c == B * h + l * c;
    DivModIs(x * c, B, h, l * c);
    MultipleMod(c, l);
  }

  function PushRight(s: seq<nat>, x: nat, i: nat, k: nat, r: nat): (t: seq<nat>)
    requires r < 32
    ensures |t| == |s|
  {
    var low := if i >= k + 1 && r != 0 then Push(s, i - k - 1, x * Two(32 - r) % B) else s;
    if i >= k then Push(low, i - k, x / Two(r)) else low
  }

  /** Limb j - 1 leaves room for r bits from above; from j on nothing is there yet. */
  ghost predicate RoomRight(s: seq<nat>, j: int, r: nat)
    requires r < 32
  {
    |s| == WIDTH && Limbs(s) && (1 <= j <= WIDTH ==> s[j - 1] < Two(32 - r)) && forall i :: 0 <= i < WIDTH && j <= i ==> s[i] == 0
  }

  /** The limb above fills up the one below it. */
  lemma PushBelow(s: seq<nat>, x: nat, j: nat, r: nat)
    requires 0 < r < 32 && x < B && 1 <= j < WIDTH && RoomRight(s, j, r)
    ensures var t := Push(s, j - 1, x * Two(32 - r) % B);
      && LVal(t) == LVal(s) + x % Two(r) * Two(32 - r) * Pow(B, j - 1)
      && Limbs(t) && forall i :: j <= i < WIDTH ==> t[i] == 0
  {
    hide Pow, Two, BitOr, LVal;
    RightParts(x, r);
    var q := PushAdds(s, j - 1, x * Two(32 - r) % B, 32 - r);
    assert q == 0;
    assert 0 * M == 0;
  }

  lemma PushHere(s: seq<nat>, x: nat, j: nat, r: nat)
    requires r < 32 && x < B && j < WIDTH && |s| == WIDTH && Limbs(s) && forall i :: j <= i < WIDTH ==> s[i] == 0
    ensures var t := Push(s, j, x / Two(r));
      LVal(t) == LVal(s) + x / Two(r) * Pow(B, j) && RoomRight(t, j + 1, r)
  {
    hide Pow, Two, LVal;
    LimbBelow(x, r);
    LValUpdate(s, j, x / Two(r));
  }

  lemma LimbBelow(x: nat, r: nat)
    requires r < 32 && x < B
    ensures x / Two(r) < Two(32 - r) && x / Two(r) < B
  {
    if r > 0 { RightParts(x, r); BelowB(32 - r); } else { TwoLimb(); }
  }

  lemma RightArithmetic(s: nat, t: nat, x: nat, p: nat, c: nat, h: nat, l: nat, below: nat, here: nat)
    requires p * c == B && x == p * h + l && here == B * below && t == s + l * c * below + h * here
    ensures t * p == s * p + x * here
  {
    Distribute(p, s + l * c * below, h * here);
    Distribute(p, s, l * c * below);
    Regroup(p, h, here);
    calc {
      p * (l * c * below);
      { Regroup(l, c, below); Regroup(p, l, c * below); }
      p * l * (c * below);
      { assert p * l == l * p; Regroup(l * p, c, below); Regroup(l, p, c); }
      l * B * below;
      { Regroup(l, B, below); }
      l * here;
    }
    Distribute(here, p * h, l);
  }

  lemma PushRightAbove(s: seq<nat>, x: nat, i: nat, k: nat, r: nat)
    requires r < 32 && x < B && k + 1 <= i < WIDTH + k && RoomRight(s, i - k, r)
    ensures var t := PushRight(s, x, i, k, r);
      LVal(t) * Two(r) == LVal(s) * Two(r) + x * Pow(B, i - k) && RoomRight(t, i - k + 1, r)
  {
    hide Pow, Two, BitOr, LVal, Push, RoomRight;
    var j := i - k;
    var low := s;
    PowStep(j - 1);
    PowSplit(r);
    if r != 0 {
      PushBelow(s, x, j, r);
      low := Push(s, j - 1, x * Two(32 - r) % B);
    } else {
      TwoLimb();
      assert x % 1 == 0;
      assert 0 * Two(32 - r) == 0;
      assert 0 * Pow(B, j - 1) == 0;
    }
    RoomParts(s, j, r);
    PushHere(low, x, j, r);
    RightArithmetic(LVal(s), LVal(PushRight(s, x, i, k, r)), x, Two(r), Two(32 - r), x / Two(r), x % Two(r), Pow(B, j - 1), Pow(B, j));
  }

  lemma RoomParts(s: seq<nat>, j: nat, r: nat)
    requires r < 32 && RoomRight(s, j, r)
    ensures |s| == WIDTH && Limbs(s) && forall i :: j <= i < WIDTH ==> s[i] == 0
  {
  }

  lemma TwoShift(k: nat, r: nat)
    ensures Two(32 * k + r) == Two(r) * Pow(B, k)
  {
    hide Pow, Two;
    TwoAdd(32 * k, r);
    PowB(k);
  }

  lemma NothingYet(s: seq<nat>, j: int, r: nat)
    requires r < 32 && j <= 0 && RoomRight(s, j, r)
    ensures LVal(s) == 0
  {
    LValZero(s);
  }

  /** Below the shift nothing arrives; everything is remainder. */
  lemma RightUnder(s: seq<nat>, a: seq<nat>, i: nat, k: nat, r: nat)
    requires |a| == WIDTH && Limbs(a) && i < WIDTH && i < k && r < 32 && RoomRight(s, i - k, r)
    ensures LVal(s) == 0 && LVal(a[..i + 1]) < Two(32 * k + r) && RoomRight(PushRight(s, a[i], i, k, r), i + 1 - k, r)
  {
    hide Pow, Two, LVal;
    NothingYet(s, i - k, r);
    LValBound(a[..i + 1]);
    PowMono(B, i + 1, k);
    PowB(k);
    TwoMono(32 * k, 32 * k + r);
  }

  /** The limb at the shift leaves its low bits as remainder. */
  lemma RightAt(s: seq<nat>, a: seq<nat>, k: nat, r: nat)
    requires |a| == WIDTH && Limbs(a) && k < WIDTH && r < 32 && RoomRight(s, 0, r)
    ensures var t := PushRight(s, a[k], k, k, r);
      && RoomRight(t, 1, r) && LVal(t) == a[k] / Two(r)
      && LVal(t) * Two(32 * k + r) + (LVal(a[..k]) + a[k] % Two(r) * Pow(B, k)) == LVal(a[..k + 1])
      && LVal(a[..k]) + a[k] % Two(r) * Pow(B, k) < Two(32 * k + r)
  {
    hide Pow, Two, LVal, Push;
    var x, p, w := a[k], Two(r), Pow(B, k);
    NothingYet(s, 0, r);
    RoomParts(s, 0, r);
    PushHere(s, x, 0, r);
    PowZero();
    TwoShift(k, r);
    LValNext(a, k);
    LValBound(a[..k]);
    var h, l := x / p, x % p;
    assert x == p * h + l;
    Regroup(h, p, w);
    Distribute(w, p * h, l);
    MulMono(l + 1, p, w, w);
    Distribute(w, l, 1);
  }

  lemma PowZero()
    ensures Pow(B, 0) == 1
  {
  }

  /** v is the part shifted in, rem the bits shifted out. */
  ghost predicate RightState(v: nat, rem: nat, total: nat, shift: nat) {
    v * Two(shift) + rem == total && rem < Two(shift)
  }

  lemma RightEnd(v: nat, rem: nat, total: nat, shift: nat)
    requires RightState(v, rem, total, shift)
    ensures v == Quotient(total, Two(shift))
  {
    hide Two;
    DivModIs(total, Two(shift), v, rem);
  }

  lemma RightStep(s: seq<nat>, a: seq<nat>, i: nat, k: nat, r: nat, rem: nat) returns (rem': nat)
    requires |a| == WIDTH && Limbs(a) && i < WIDTH && r < 32 && RoomRight(s, i - k, r)
    requires RightState(LVal(s), rem, LVal(a[..i]), 32 * k + r)
    ensures RoomRight(PushRight(s, a[i], i, k, r), i + 1 - k, r)
    ensures RightState(LVal(PushRight(s, a[i], i, k, r)), rem', LVal(a[..i + 1]), 32 * k + r)
  {
    hide Pow, Two, LVal, RoomRight, PushRight;
    if i < k {
      RightUnder(s, a, i, k, r);
      SameUnder(s, a[i], i, k, r);
      rem' := LVal(a[..i + 1]);
    } else if i == k {
      RightAt(s, a, k, r);
      rem' := LVal(a[..k]) + a[k] % Two(r) * Pow(B, k);
    } else {
      rem' := rem;
      PushRightAbove(s, a[i], i, k, r);
      LValNext(a, i);
      TwoShift(k, r);
      PowAdd(B, i - k, k);
      AboveArithmetic(LVal(s), LVal(PushRight(s, a[i], i, k, r)), a[i], Two(r), Pow(B, i - k), Pow(B, k));
    }
  }

  lemma SameUnder(s: seq<nat>, x: nat, i: nat, k: nat, r: nat)
    requires r < 32 && i < k
    ensures PushRight(s, x, i, k, r) == s
  {
  }

  lemma AboveArithmetic(s: nat, t: nat, x: nat, p: nat, here: nat, w: nat)
    requires t * p == s * p + x * here
    ensures t * (p * w) == s * (p * w) + x * (here * w)
  {
    Regroup(t, p, w);
    Regroup(s, p, w);
    Regroup(x, here, w);
    Distribute(w, s * p, x * here);
  }

  // ----- the number -----------------------------------------------------------------------------------------

  ghost predicate IsNumber(s: seq<nat>) {
    |s| == WIDTH && Limbs(s)
  }

  lemma NumberBound(s: seq<nat>)
    requires IsNumber(s)
    ensures LVal(s) < M
  {
    LValBound(s);
  }

  class UInt256 {
    const pn: array<nat>

    ghost predicate Valid()
      reads pn
    {
      IsNumber(pn[..])
    }

    ghost function V(): (v: nat)
      requires Valid()
      reads pn
      ensures v < M
    {
      NumberBound(pn[..]);
      LVal(pn[..])
    }

    constructor (b: nat)
      requires b < B * B
      ensures fresh(pn) && Valid() && V() == b
    {
      pn := new nat[WIDTH](_ => 0);
      new;
      AssignSmall(b);
    }

    method AssignSmall(b: nat)
      requires pn.Length == WIDTH && b < B * B
      modifies pn
      ensures Valid() && V() == b
    {
      pn[0] := b % B;
      pn[1] := b / B;
      for i := 2 to WIDTH
        invariant pn[0] == b % B && pn[1] == b / B && forall j :: 2 <= j < i ==> pn[j] == 0
      {
        pn[i] := 0;
      }
      SmallIs(b);
      assert pn[..] == Small(b);
    }

    constructor Copy(b: seq<nat>)
      requires IsNumber(b)
      ensures fresh(pn) && Valid() && pn[..] == b && V() == LVal(b)
    {
      pn := new nat[WIDTH](i requires 0 <= i < WIDTH => b[i]);
      new;
      assert pn[..] == b;
    }

    method Clear()
      requires Valid()
      modifies pn
      ensures Valid() && forall i :: 0 <= i < WIDTH ==> pn[i] == 0
    {
      for i := 0 to WIDTH
        invariant forall j :: 0 <= j < i ==> pn[j] == 0
      {
        pn[i] := 0;
      }
    }

    method ShiftLeft(shift: nat)
      requires Valid()
      modifies pn
      ensures Valid() && V() == Scaled(old(V()), shift) % M
    {
      hide Two, Pow, LVal, PushLeft, Room, BitOr;
      var a := pn[..];
      Clear();
      var k, r := shift / 32, shift % 32;
      ghost var q: nat := 0;
      LeftStart(pn[..], a, k, r, shift);
      for i := 0 to WIDTH
        invariant Room(pn[..], i + k, r) && LVal(pn[..]) + q * M == LVal(a[..i]) * Two(shift)
      {
        ghost var s := pn[..];
        q := LeftStep(s, a, i, k, r, q, shift);
        if i + k + 1 < WIDTH && r != 0 {
          pn[i + k + 1] := BitOr(pn[i + k + 1], a[i] / Two(32 - r));
        }
        ghost var mid := pn[..];
        if i + k < WIDTH {
          pn[i + k] := BitOr(pn[i + k], a[i] * Two(r) % B);
        }
        PushLeftIs(s, mid, pn[..], a[i], i + k, r);
      }
      assert a[..WIDTH] == a;
      RoomNumber(pn[..], WIDTH + k, r);
      NumberBound(pn[..]);
      DivModIs(LVal(a) * Two(shift), M, q, LVal(pn[..]));
    }

    method ShiftRight(shift: nat)
      requires Valid()
      modifies pn
      ensures Valid() && V() == Quotient(old(V()), Two(shift))
    {
      hide Two, Pow, LVal, PushRight, RoomRight, BitOr, RightState, Limbs;
      var a := pn[..];
      Clear();
      var k, r := shift / 32, shift % 32;
      ghost var rem: nat := 0;
      RightStart(pn[..], a, k, r, shift);
      for i := 0 to WIDTH
        invariant RoomRight(pn[..], i - k, r) && RightState(LVal(pn[..]), rem, LVal(a[..i]), shift)
      {
        rem := RightStep(pn[..], a, i, k, r, rem);
        ghost var s := pn[..];
        if i - k - 1 >= 0 && r != 0 {
          pn[i - k - 1] := BitOr(pn[i - k - 1], a[i] * Two(32 - r) % B);
        }
        ghost var mid := pn[..];
        if i - k >= 0 {
          pn[i - k] := BitOr(pn[i - k], a[i] / Two(r));
        }
        PushRightIs(s, mid, pn[..], a[i], i, k, r);
      }
      assert a[..WIDTH] == a;
      RoomRightNumber(pn[..], WIDTH - k, r);
      RightEnd(LVal(pn[..]), rem, LVal(a), shift);
    }

    method AddAssign(b: seq<nat>)
      requires Valid() && IsNumber(b)
      modifies pn
      ensures Valid() && V() == (old(V()) + LVal(b)) % M
    {
      hide Pow, LVal;
      ghost var a := pn[..];
      var carry: nat := 0;
      SumStart(pn[..], a, b);
      for i := 0 to WIDTH
        invariant Limbs(pn[..]) && carry < 2 && pn[i..] == a[i..]
        invariant LVal(pn[..i]) + carry * Pow(B, i) == LVal(a[..i]) + LVal(b[..i])
      {
        assert pn[i] == pn[i..][0] == a[i];
        ghost var s := pn[..];
        var n := carry + pn[i] + b[i];
        pn[i] := n % B;
        SumStep(s, pn[..], a, b, i, carry, n);
        carry := n / B;
      }
      assert pn[..WIDTH] == pn[..] && a[..WIDTH] == a && b[..WIDTH] == b;
      NumberBound(pn[..]);
      DivModIs(LVal(a) + LVal(b), M, carry, LVal(pn[..]));
    }

    method Complement()
      requires Valid()
      modifies pn
      ensures Valid() && V() == M - 1 - old(V())
    {
      ghost var a := pn[..];
      for i := 0 to WIDTH
        invariant forall j :: 0 <= j < i ==> pn[j] == B - 1 - a[j]
        invariant forall j :: i <= j < WIDTH ==> pn[j] == a[j]
      {
        pn[i] := B - 1 - pn[i];
      }
      ComplementSum(a, pn[..]);
    }

    /** The carry runs through limbs of all ones. */
    method Increment()
      requires Valid()
      modifies pn
      ensures Valid() && V() == (old(V()) + 1) % M
    {
      hide Pow, LVal;
      ghost var a := pn[..];
      var i := 0;
      CarryStart(a);
      while i < WIDTH
        invariant i <= WIDTH && Limbs(pn[..]) && LVal(pn[..]) + Pow(B, i) == LVal(a) + 1
        invariant forall j :: i <= j < WIDTH ==> pn[j] == a[j]
      {
        ghost var s := pn[..];
        pn[i] := (pn[i] + 1) % B;
        CarryStep(s, pn[..], i);
        if pn[i] != 0 { break; }
        i := i + 1;
      }
      NumberBound(pn[..]);
      if i < WIDTH { DivModIs(LVal(a) + 1, M, 0, LVal(pn[..])); } else { DivModIs(LVal(a) + 1, M, 1, LVal(pn[..])); }
    }

    /** Two's complement. */
    method Negate()
      requires Valid()
      modifies pn
      ensures Valid() && V() == if old(V()) == 0 then 0 else M - old(V())
    {
      hide LVal, Pow;
      ghost var v := V();
      Complement();
      Increment();
      NegateValue(v);
    }

    method SubAssign(b: seq<nat>)
      requires Valid() && IsNumber(b)
      modifies pn
      ensures LVal(b) < M && Valid() && V() == (old(V()) + M - LVal(b)) % M
      ensures LVal(b) <= old(V()) ==> V() == old(V()) - LVal(b)
    {
      hide LVal, Pow;
      var minus := new UInt256.Copy(b);
      minus.Negate();
      ghost var v := V();
      AddAssign(minus.pn[..]);
      NumberBound(b);
      SubValue(v, LVal(b));
    }

    method MulSmall(b: nat)
      requires Valid() && b < B
      modifies pn
      ensures Valid() && V() == Times(b, old(V())) % M
    {
      hide Pow, LVal, Times;
      ghost var a := pn[..];
      var carry: nat := 0;
      MulSmallStart(pn[..], a, b);
      for i := 0 to WIDTH
        invariant Limbs(pn[..]) && carry < B && pn[i..] == a[i..]
        invariant LVal(pn[..i]) + carry * Pow(B, i) == Times(b, LVal(a[..i]))
      {
        assert pn[i] == pn[i..][0] == a[i];
        ghost var s := pn[..];
        var n: nat := carry + b * pn[i];
        ProductFits(carry, 0, b, pn[i]);
        pn[i] := n % B;
        MulSmallStep(s, pn[..], a, b, i, carry, n);
        carry := n / B;
      }
      assert pn[..WIDTH] == pn[..] && a[..WIDTH] == a;
      NumberBound(pn[..]);
      DivModIs(Times(b, LVal(a)), M, carry, LVal(pn[..]));
    }

    /** One row of the schoolbook product, added into this number at limb j. */
    method AddRow(x: nat, b: seq<nat>, j: nat) returns (ghost over: nat)
      requires Valid() && IsNumber(b) && x < B && j < WIDTH
      modifies pn
      ensures Valid() && V() + Times(over, M) == old(V()) + Part(x, b, WIDTH, j)
    {
      hide Pow, LVal, Times, Part;
      ghost var start := LVal(pn[..]);
      var carry: nat := 0;
      PartStart(x, b, j);
      for i := 0 to WIDTH - j
        invariant Limbs(pn[..]) && carry < B && LVal(pn[..]) + Times(carry, Pow(B, i + j)) == start + Part(x, b, i, j)
      {
        ghost var s := pn[..];
        var n: nat := carry + pn[i + j] + x * b[i];
        ProductFits(carry, pn[i + j], x, b[i]);
        var digit: nat := n % B;
        pn[i + j] := digit;
        assert pn[..] == s[i + j := digit];
        RowStep(s, x, b, i, j, carry, n, start);
        carry := n / B;
      }
      over := RowEnd(x, b, j, carry);
    }

    method MulAssign(b: seq<nat>)
      requires Valid() && IsNumber(b)
      modifies pn
      ensures Valid() && V() == Times(old(V()), LVal(b)) % M
    {
      hide Pow, LVal, Times, Part;
      ghost var p := pn[..];
      var a := new UInt256(0);
      ghost var q: nat := 0;
      ProductStart(p, b);
      for j := 0 to WIDTH
        invariant a.Valid() && pn[..] == p && a.V() + Times(q, M) == Times(LVal(p[..j]), LVal(b))
      {
        ghost var before := a.V();
        ghost var over := a.AddRow(pn[j], b, j);
        ProductRow(p, b, j, before, a.V(), q, over);
        q := q + over;
      }
      assert p[..WIDTH] == p;
      ProductEnd(a.V(), q, Times(LVal(p), LVal(b)));
      for i := 0 to WIDTH
        invariant forall k :: 0 <= k < i ==> pn[k] == a.pn[k]
        invariant a.Valid() && a.V() == Times(LVal(p), LVal(b)) % M
      {
        pn[i] := a.pn[i];
      }
      assert pn[..] == a.pn[..];
    }

    method CompareTo(b: seq<nat>) returns (r: int)
      requires Valid() && IsNumber(b)
      ensures r == if V() < LVal(b) then -1 else if V() > LVal(b) then 1 else 0
    {
      hide LVal;
      var i: nat := WIDTH;
      while i > 0
        invariant i <= WIDTH && forall j :: i <= j < WIDTH ==> pn[j] == b[j]
      {
        i := i - 1;
        if pn[i] < b[i] { LValCompare(pn[..], b, i); return -1; }
        if pn[i] > b[i] { LValCompare(b, pn[..], i); return 1; }
      }
      assert pn[..] == b;
      return 0;
    }

    /** Position of the highest one, plus one. */
    method Bits() returns (n: nat)
      requires Valid()
      ensures n <= 256 && V() < Two(n) && (n > 0 ==> Two(n - 1) <= V())
    {
      hide LVal, Pow, Two;
      var pos: nat := WIDTH;
      while pos > 0
        invariant pos <= WIDTH && forall j :: pos <= j < WIDTH ==> pn[j] == 0
      {
        pos := pos - 1;
        if pn[pos] != 0 {
          var nbits := 31;
          TwoLimb();
          while nbits > 0 && pn[pos] / Two(nbits) % 2 == 0
            invariant 0 <= nbits <= 31 && pn[pos] < Two(nbits + 1)
          {
            BitClear(pn[pos], nbits);
            nbits := nbits - 1;
          }
          TopBit(pn[..], pos, nbits);
          return 32 * pos + nbits + 1;
        }
      }
      LValZero(pn[..]);
      TwoLimb();
      return 0;
    }

    /** Set bit n of a number whose bits up to n are clear. */
    method SetBit(n: nat)
      requires Valid() && n < 256 && LowClear(pn[..], n + 1)
      modifies pn
      ensures Valid() && LowClear(pn[..], n) && V() == old(V()) + Two(n)
    {
      hide LVal, Two, Pow, BitOr, LowClear;
      ghost var s := pn[..];
      pn[n / 32] := BitOr(pn[n / 32], Two(n % 32));
      assert pn[..] == s[n / 32 := BitOr(s[n / 32], Two(n % 32))];
      BitIsSet(s, n);
    }

    /** One round: subtract if possible, set the bit, shift the divisor back. */
    method DivideRound(num: UInt256, div: UInt256, shift: nat, ghost n: nat, ghost d: nat)
      requires pn != num.pn && pn != div.pn && num.pn != div.pn && shift < 256
      requires Valid() && num.Valid() && div.Valid() && LowClear(pn[..], shift + 1)
      requires DivState(num.V(), V(), d, n, shift + 1) && div.V() == Scaled(d, shift)
      modifies pn, num.pn, div.pn
      ensures Valid() && num.Valid() && div.Valid() && LowClear(pn[..], shift)
      ensures DivState(num.V(), V(), d, n, shift) && (shift > 0 ==> div.V() == Scaled(d, shift - 1))
    {
      hide LVal, Two, Pow, LowClear, Limbs, DivState, Scaled, Quotient;
      DivStep(num.V(), V(), d, n, shift);
      ShiftBack(d, shift);
      var c := num.CompareTo(div.pn[..]);
      if c >= 0 {
        num.SubAssign(div.pn[..]);
        SetBit(shift);
      } else {
        LowClearLess(pn[..], shift);
      }
      div.ShiftRight(1);
    }

    /** Long division, bit by bit; a zero divisor is an error that leaves zero behind. */
    method DivideAssign(b: seq<nat>) returns (ok: bool)
      requires Valid() && IsNumber(b)
      modifies pn
      ensures Valid() && ok == (LVal(b) != 0) && V() == if ok then Quotient(old(V()), LVal(b)) else 0
    {
      hide LVal, Two, Pow, LowClear, Limbs, DivState, Scaled, Quotient;
      ghost var n, d := V(), LVal(b);
      var div := new UInt256.Copy(b);
      var num := new UInt256.Copy(pn[..]);
      Clear();
      ZeroValue(pn[..]);
      var numBits := num.Bits();
      var divBits := div.Bits();
      BitsZero(d, divBits);
      if divBits == 0 { return false; }
      if divBits > numBits {
        QuotientZero(n, d, numBits, divBits);
        return true;
      }
      var shift: int := numBits - divBits;
      AlignedFits(d, numBits, divBits);
      AlignedBound(n, d, numBits, divBits);
      div.ShiftLeft(shift);
      LowClearZero(pn[..], shift + 1);
      while shift >= 0
        invariant -1 <= shift < 256 && Valid() && num.Valid() && div.Valid() && LowClear(pn[..], shift + 1)
        invariant DivState(num.V(), V(), d, n, shift + 1) && (shift >= 0 ==> div.V() == Scaled(d, shift))
        decreases shift
      {
        DivideRound(num, div, shift, n, d);
        shift := shift - 1;
      }
      DivEnd(num.V(), V(), d, n);
      return true;
    }

    method EqualTo(b: nat) returns (r: bool)
      requires Valid() && b < B * B
      ensures r <==> V() == b
    {
      hide LVal;
      SmallIs(b);
      ghost var other := Small(b);
      var i := WIDTH - 1;
      while i >= 2
        invariant 1 <= i < WIDTH && forall j :: i < j < WIDTH ==> pn[j] == 0
      {
        if pn[i] != 0 { LimbDiffers(pn[..], other, i); return false; }
        i := i - 1;
      }
      if pn[1] != b / B { LimbDiffers(pn[..], other, 1); return false; }
      if pn[0] != b % B { LimbDiffers(pn[..], other, 0); return false; }
      assert pn[..] == other;
      return true;
    }

    method SetCompact(c: nat) returns (negative: bool, overflow: bool)
      requires Valid() && c < B
      modifies pn
      ensures Valid() && V() == Target(c) % M
      ensures overflow <==> Target(c) >= M
      ensures negative <==> Target(c) != 0 && SignBit(c)
    {
      hide LVal, Two, Pow, Target, Limbs;
      var size, word: nat := c / 0x100_0000, c % 0x80_0000;
      CompactParts(c);
      if size <= 3 {
        word := word / Two(8 * (3 - size));
        AssignSmall(word);
      } else {
        AssignSmall(word);
        ShiftLeft(8 * (size - 3));
      }
      negative := word != 0 && SignBit(c);
      overflow := word != 0 && (size > 34 || (word > 0xff && size > 33) || (word > 0xffff && size > 32));
    }

    function GetLow64(): nat
      requires pn.Length == WIDTH
      reads pn
    {
      pn[0] + B * pn[1]
    }

    /**
     * The compact form keeps the top bytes: at least 15 bits when anything is
     * dropped.  Both asserts of the source are asserts here.
     */
    method GetCompact(negative: bool) returns (c: nat)
      requires Valid()
      ensures c < B && SignBit(c) == (negative && Mantissa(c) != 0)
      ensures Target(c) == V() - V() % Two(8 * Dropped(c))
      ensures Dropped(c) > 0 ==> V() >= Two(8 * Dropped(c) + 15)
    {
      hide LVal, Two, Pow, Limbs, Target;
      ghost var v := V();
      var bits := Bits();
      var size := (bits + 7) / 8;
      var word: nat;
      SizeBounds(v, bits, size);
      if size <= 3 {
        TwoMono(8 * size, 24);
        LowIsValue(pn[..]);
        word := GetLow64() * Two(8 * (3 - size));
      } else {
        var bn := new UInt256.Copy(pn[..]);
        bn.ShiftRight(8 * (size - 3));
        QuotientBounds(v, 8 * (size - 3), 24);
        LowIsValue(bn.pn[..]);
        word := bn.GetLow64();
      }
      WordBounds(v, size, word);
      assert word < 0x100_0000;
      Normalise(v, size, word);
      if word / 0x80_0000 % 2 == 1 {
        word := word / 0x100;
        size := size + 1;
      }
      assert word < 0x80_0000 && size < 256;
      c := word + size * 0x100_0000;
      if negative && word != 0 { c := c + 0x80_0000; }
      CompactValue(v, size, word, c, negative);
    }
  }

  /** Whole bytes that the compact form leaves out. */
  function Dropped(c: nat): nat {
    if Size(c) <= 3 then 0 else Size(c) - 3
  }

  lemma LowIsValue(s: seq<nat>)
    requires IsNumber(s)
    ensures LVal(s) < Two(24) ==> s[0] + B * s[1] == LVal(s)
  {
    hide Pow, Two;
    SmallTwos();
    if LVal(s) < Two(24) {
      SmallIs(LVal(s));
      SameLimbs(s, Small(LVal(s)));
    }
  }

  /** Equal values have equal limbs. */
  lemma SameLimbs(s: seq<nat>, t: seq<nat>)
    requires IsNumber(s) && IsNumber(t) && LVal(s) == LVal(t)
    ensures s == t
  {
    hide LVal;
    var i: nat := WIDTH;
    while i > 0
      invariant i <= WIDTH && forall j :: i <= j < WIDTH ==> s[j] == t[j]
    {
      i := i - 1;
      if s[i] != t[i] { LimbDiffers(s, t, i); }
    }
  }

  lemma SizeBounds(v: nat, bits: nat, size: nat)
    requires v < Two(bits) && (bits > 0 ==> Two(bits - 1) <= v) && size == (bits + 7) / 8 && bits <= 256
    ensures v < Two(8 * size) && (size > 0 ==> v >= Two(8 * size - 8)) && size <= 32
  {
    hide Two;
    TwoMono(bits, 8 * size);
    if size > 0 { TwoMono(8 * size - 8, bits - 1); }
  }

  /** Three bytes: padded with zeros when there are fewer, cut when there are more. */
  ghost predicate TopBytes(v: nat, size: nat, word: nat) {
    if size <= 3 then word == v * Two(8 * (3 - size)) else word == v / Two(8 * (size - 3))
  }

  lemma WordBounds(v: nat, size: nat, word: nat)
    requires v < Two(8 * size) && (size > 0 ==> v >= Two(8 * size - 8)) && TopBytes(v, size, word)
    ensures word < Two(24) == 0x100_0000 && (size > 3 ==> word >= Two(16)) && (size <= 3 ==> v < Two(24))
  {
    hide Two;
    SmallTwos();
    if size <= 3 {
      var p := Two(8 * (3 - size));
      CompareShift(v, 8 * (3 - size), 8 * size);
      TwoMono(8 * size, 24);
    } else {
      QuotientBounds(v, 8 * (size - 3), 24);
      QuotientAtLeast(v, 8 * (size - 3), 16);
    }
  }

  /** The mantissa and size that go into the compact form. */
  ghost predicate Normal(v: nat, size: nat, word: nat) {
    if size <= 3 then word / Two(8 * (3 - size)) == v
    else word == v / Two(8 * (size - 3)) && word >= 0x8000
  }

  lemma Normalise(v: nat, size: nat, word: nat)
    requires TopBytes(v, size, word) && word < 0x100_0000 && (size > 3 ==> word >= Two(16))
    ensures if word / 0x80_0000 % 2 == 1 then Normal(v, size + 1, word / 0x100) else Normal(v, size, word)
  {
    hide Two;
    SmallTwos();
    if size > 3 {
      DivDiv(v, 8 * (size - 3));
    } else if size == 3 {
      assert v * 1 == v;
    } else {
      var p := Two(8 * (2 - size));
      TwoAdd(8 * (2 - size), 8);
      Regroup(v, p, 0x100);
      DivModIs(word, 0x100, v * p, 0);
      DivModIs(v * p, p, v, 0);
    }
    if size <= 3 { DivModIs(word, Two(8 * (3 - size)), v, 0); }
  }

  lemma DivDiv(v: nat, s: nat)
    ensures v / Two(s) / 0x100 == v / Two(s + 8)
  {
    hide Two;
    SmallTwos();
    TwoAdd(s, 8);
    var p := Two(s);
    var q := v / p;
    var h, l := q / 0x100, q % 0x100;
    assert v == p * q + v % p && q == 0x100 * h + l;
    Distribute(p, 0x100 * h, l);
    Regroup(p, 0x100, h);
    MulMono(p, p, l + 1, 0x100);
    Distribute(p, l, 1);
    DivModIs(v, p * 0x100, h, p * l + v % p);
  }

  lemma CompactValue(v: nat, size: nat, word: nat, c: nat, negative: bool)
    requires Normal(v, size, word) && word < 0x80_0000 && size < 256
    requires c == word + size * 0x100_0000 + if negative && word != 0 then 0x80_0000 else 0
    ensures c < B && SignBit(c) == (negative && Mantissa(c) != 0)
    ensures Target(c) == v - v % Two(8 * Dropped(c))
    ensures Dropped(c) > 0 ==> v >= Two(8 * Dropped(c) + 15)
  {
    hide Two;
    assert Size(c) == size && Mantissa(c) == word;
    if size <= 3 {
      SmallTwos();
    } else {
      var p := Two(8 * (size - 3));
      assert v == p * (v / p) + v % p;
      FifteenBits();
      TwoAdd(15, 8 * (size - 3));
      MulMono(0x8000, word, p, p);
    }
  }

  lemma FifteenBits()
    ensures Two(15) == 0x8000
  {
    SmallTwos();
    TwoNext(16);
  }

  lemma QuotientBounds(v: nat, s: nat, t: nat)
    requires v < Two(t + s)
    ensures v / Two(s) < Two(t)
  {
    hide Two;
    var p, q := Two(s), v / Two(s);
    assert v == p * q + v % p;
    CompareShift(q, s, t);
  }

  lemma QuotientAtLeast(v: nat, s: nat, t: nat)
    requires v >= Two(t + s)
    ensures v / Two(s) >= Two(t)
  {
    hide Two;
    var p, q := Two(s), v / Two(s);
    assert v == p * q + v % p;
    TwoAdd(t, s);
    if q < Two(t) {
      MulMono(q + 1, Two(t), p, p);
      Distribute(p, q, 1);
    }
  }

  // ----- the compact format -------------------------------------------------------------------------------

  function Size(c: nat): nat { c / 0x100_0000 }
  function Mantissa(c: nat): nat { c % 0x80_0000 }
  predicate SignBit(c: nat) { c / 0x80_0000 % 2 == 1 }

  /** What a compact number stands for, without any limit on its size. */
  ghost function Target(c: nat): nat {
    if Size(c) <= 3 then Mantissa(c) / Two(8 * (3 - Size(c))) else Mantissa(c) * Two(8 * (Size(c) - 3))
  }

  lemma CompactParts(c: nat)
    ensures var word, size := c % 0x80_0000, c / 0x100_0000;
      && (size <= 3 ==> word / Two(8 * (3 - size)) == Target(c) == Target(c) % M && Target(c) < B && Target(c) < M)
      && (size > 3 ==> word * Two(8 * (size - 3)) == Target(c) && (Target(c) == 0 <==> word == 0))
      && (size > 3 ==> (Target(c) >= M <==>
        word != 0 && (size > 34 || (word > 0xff && size > 33) || (word > 0xffff && size > 32))))
  {
    hide Two, Pow;
    var word, size := c % 0x80_0000, c / 0x100_0000;
    if size <= 3 {
      LimbBelowModulus();
      DivLess(word, Two(8 * (3 - size)));
      DivModIs(Target(c), M, 0, Target(c));
    } else {
      OverflowIff(word, size);
      if word > 0 { MulMono(1, word, 1, Two(8 * (size - 3))); } else { assert 0 * Two(8 * (size - 3)) == 0; }
    }
  }

  lemma LimbBelowModulus()
    ensures B < M
  {
    hide Two, Pow;
    ModulusIs();
    TwoNext(33);
    TwoMono(33, 256);
    TwoLimb();
  }

  lemma DivLess(x: nat, p: nat)
    requires p > 0
    ensures x / p <= x
  {
    assert x == p * (x / p) + x % p;
    MulMono(1, p, x / p, x / p);
  }

  /** Multiplying by a power of two moves a comparison with a power of two. */
  lemma CompareShift(w: nat, s: nat, t: nat)
    ensures w * Two(s) >= Two(t + s) <==> w >= Two(t)
  {
    hide Two;
    TwoAdd(t, s);
    if w >= Two(t) {
      MulMono(Two(t), w, Two(s), Two(s));
    } else {
      StrictMul(w, Two(t), Two(s));
    }
  }

  lemma SmallTwos()
    ensures Two(0) == 1 && Two(8) == 0x100 && Two(16) == 0x1_0000 && Two(24) == 0x100_0000
  {
    assert Pow(2, 8) == 256;
    PowAdd(2, 8, 8);
    PowAdd(2, 8, 16);
  }

  /** The three tests of the overflow flag are exactly the comparison with the modulus. */
  lemma OverflowIff(w: nat, size: nat)
    requires w < 0x80_0000 && size > 3
    ensures w * Two(8 * (size - 3)) >= M <==>
      w != 0 && (size > 34 || (w > 0xff && size > 33) || (w > 0xffff && size > 32))
  {
    hide Two, Pow;
    ModulusIs();
    SmallTwos();
    if size <= 32 {
      CompareShift(w, 8 * (size - 3), 256 - 8 * (size - 3));
      TwoMono(24, 256 - 8 * (size - 3));
    } else if size == 33 {
      CompareShift(w, 240, 16);
    } else if size == 34 {
      CompareShift(w, 248, 8);
    } else {
      TwoMono(256, 8 * (size - 3));
      if w > 0 { MulMono(1, w, Two(256), Two(8 * (size - 3))); } else { assert 0 * Two(8 * (size - 3)) == 0; }
    }
  }

  lemma LimbDiffers(s: seq<nat>, t: seq<nat>, i: nat)
    requires IsNumber(s) && IsNumber(t) && i < WIDTH && s[i] != t[i] && forall j :: i < j < WIDTH ==> s[j] == t[j]
    ensures LVal(s) != LVal(t)
  {
    if s[i] < t[i] { LValCompare(s, t, i); } else { LValCompare(t, s, i); }
  }

  /** The work of a block: the expected number of hashes for its target, or none for a bad target. */
  method GetBlockProof(bits: nat) returns (r: UInt256)
    requires bits < B
    ensures fresh(r.pn) && r.Valid()
    ensures var t := Target(bits);
      r.V() == if t == 0 || t >= M || SignBit(bits) then 0 else M / (t + 1)
  {
    hide LVal, Two, Pow, Limbs, Target;
    var target := new UInt256(0);
    var negative, overflow := target.SetCompact(bits);
    var zero := target.EqualTo(0);
    r := new UInt256(0);
    TargetRange(bits);
    if negative || overflow || zero { return; }
    r := ProofOfTarget(target);
    ProofValue(Target(bits));
  }

  method ProofOfTarget(target: UInt256) returns (r: UInt256)
    requires target.Valid() && target.V() + 1 < M
    ensures fresh(r.pn) && r.Valid() && r.V() == ((M - 1 - target.V()) / (target.V() + 1) + 1) % M
  {
    hide LVal, Pow, Limbs;
    ghost var t := target.V();
    var above := new UInt256.Copy(target.pn[..]);
    var one := new UInt256(1);
    above.AddAssign(one.pn[..]);
    DivModIs(t + 1, M, 0, t + 1);
    r := new UInt256.Copy(target.pn[..]);
    r.Complement();
    var ok := r.DivideAssign(above.pn[..]);
    r.AddAssign(one.pn[..]);
  }

  /** A target in range is never the largest number, so adding one never wraps to zero. */
  lemma TargetRange(c: nat)
    requires c < B
    ensures Target(c) < M ==> Target(c) % M == Target(c) && Target(c) + 1 < M
  {
    hide Two, Pow;
    ModulusIs();
    TwoEven();
    if Target(c) < M {
      DivModIs(Target(c), M, 0, Target(c));
      NotAllOnes(c);
    }
  }

  lemma TwoEven()
    ensures Two(256) == 2 * Two(255)
  {
    TwoNext(256);
  }

  lemma EvenTimes(m: nat, p: nat, q: nat)
    requires p == 2 * q
    ensures m * p % 2 == 0
  {
    Regroup(m, 2, q);
    MultipleMod(2, m * q);
  }

  lemma NotAllOnes(c: nat)
    ensures Target(c) + 1 != M
  {
    CompactParts(c);
    hide Two, Target, Pow;
    ModulusIs();
    TwoEven();
    LimbBelowModulus();
    var size := c / 0x100_0000;
    if size > 3 {
      TwoNext(8 * (size - 3));
      EvenTimes(c % 0x80_0000, Two(8 * (size - 3)), Two(8 * (size - 3) - 1));
    }
  }

  /** (2^256 - 1 - t) / (t + 1) + 1 without the number 2^256. */
  lemma ProofValue(t: nat)
    requires 0 < t && t + 1 < M
    ensures ((M - 1 - t) / (t + 1) + 1) % M == M / (t + 1)
  {
    hide Pow;
    var d := t + 1;
    var q, r := M / d, M % d;
    assert M == d * q + r;
    Distribute(d, q - 1, 1);
    DivModIs(M - d, d, q - 1, r);
    MulMono(2, d, q, q);
    DivModIs(q, M, 0, q);
  }

  /** The n lowest bits are clear. */
  ghost predicate LowClear(s: seq<nat>, n: nat) {
    && |s| == WIDTH && (forall j :: 0 <= j < n / 32 && j < WIDTH ==> s[j] == 0)
    && (n / 32 < WIDTH ==> s[n / 32] % Two(n % 32) == 0)
  }

  lemma LowClearZero(s: seq<nat>, n: nat)
    requires |s| == WIDTH && forall j :: 0 <= j < WIDTH ==> s[j] == 0
    ensures LowClear(s, n)
  {
    hide Two;
    SmallQuotient(0, Two(n % 32));
    DivModIs(0, Two(n % 32), 0, 0);
  }

  lemma FactorMod(x: nat, p: nat)
    requires p > 0 && x % (2 * p) == 0
    ensures x % p == 0
  {
    var q := x / (2 * p);
    assert x == 2 * p * q;
    Regroup(p, 2, q);
    MultipleMod(p, 2 * q);
  }

  lemma NextBit(n: nat)
    ensures if n % 32 < 31 then (n + 1) / 32 == n / 32 && (n + 1) % 32 == n % 32 + 1 else (n + 1) / 32 == n / 32 + 1 && (n + 1) % 32 == 0
  {
  }

  /** The limb that holds bit n. */
  lemma LimbClear(s: seq<nat>, n: nat)
    requires LowClear(s, n + 1) && n < 256
    ensures var x := s[n / 32]; x == 0 || (n % 32 < 31 && x % Two(n % 32 + 1) == 0)
    ensures s[n / 32] % Two(n % 32) == 0 && forall j :: 0 <= j < n / 32 ==> s[j] == 0
  {
    hide Two;
    var x, r := s[n / 32], n % 32;
    NextBit(n);
    if r < 31 {
      TwoNext(r + 1);
      FactorMod(x, Two(r));
    } else {
      DivModIs(0, Two(r), 0, 0);
    }
  }

  lemma LowClearLess(s: seq<nat>, n: nat)
    requires LowClear(s, n + 1) && n < 256
    ensures LowClear(s, n)
  {
    LimbClear(s, n);
  }

  lemma BitIsSet(s: seq<nat>, n: nat)
    requires IsNumber(s) && n < 256 && LowClear(s, n + 1)
    ensures var t := s[n / 32 := BitOr(s[n / 32], Two(n % 32))];
      IsNumber(t) && LowClear(t, n) && LVal(t) == LVal(s) + Two(n)
  {
    hide LVal, Two, Pow, BitOr, LowClear;
    var k, r := n / 32, n % 32;
    var x := s[k];
    LimbClear(s, n);
    BitJoins(x, r);
    LValUpdate(s, k, x + Two(r));
    TwoShift(k, r);
    LowClearAfter(s, n, x + Two(r));
  }

  lemma BitJoins(x: nat, r: nat)
    requires x < B && r < 32 && (x == 0 || (r < 31 && x % Two(r + 1) == 0)) && x % Two(r) == 0
    ensures BitOr(x, Two(r)) == x + Two(r) < B && (x + Two(r)) % Two(r) == 0
  {
    TwoNext(r + 1);
    hide Two;
    if r < 31 {
      DivModIs(0, Two(r + 1), 0, 0);
      BitOrDisjoint(Two(r), x, r + 1);
      SumBelow(Two(r), x, r + 1);
    } else {
      TwoLimb();
    }
    NextMultiple(x, Two(r));
  }

  lemma NextMultiple(x: nat, p: nat)
    requires p > 0 && x % p == 0
    ensures (x + p) % p == 0
  {
    Distribute(p, x / p, 1);
    DivModIs(x + p, p, x / p + 1, 0);
  }

  lemma LowClearAfter(s: seq<nat>, n: nat, v: nat)
    requires LowClear(s, n + 1) && n < 256 && v % Two(n % 32) == 0
    ensures LowClear(s[n / 32 := v], n)
  {
    LimbClear(s, n);
  }

  lemma ZeroValue(s: seq<nat>)
    requires |s| == WIDTH && forall j :: 0 <= j < WIDTH ==> s[j] == 0
    ensures IsNumber(s) && LVal(s) == 0
  {
    LValZero(s);
  }

  lemma BitsZero(d: nat, bits: nat)
    requires d < Two(bits) && (bits > 0 ==> Two(bits - 1) <= d)
    ensures d == 0 <==> bits == 0
  {
    TwoLimb();
  }

  // Products and quotients under names, for proofs that need only the facts below.
  ghost function Scaled(d: nat, s: nat): nat { d * Two(s) }

  ghost function Quotient(n: nat, d: nat): nat
    requires d > 0
  {
    n / d
  }

  /** n is split into what is left and the part already divided; what is left is small. */
  ghost predicate DivState(num: nat, q: nat, d: nat, n: nat, s: nat) {
    num + q * d == n && num < d * Two(s)
  }

  lemma QuotientZero(n: nat, d: nat, nb: nat, db: nat)
    requires n < Two(nb) && db > nb && Two(db - 1) <= d
    ensures d > 0 && Quotient(n, d) == 0
  {
    hide Two;
    TwoMono(nb, db - 1);
    DivModIs(n, d, 0, n);
  }

  lemma ModulusIs()
    ensures M == Two(256)
  {
    PowB(WIDTH);
  }

  lemma AlignedFits(d: nat, nb: nat, db: nat)
    requires 0 < db <= nb <= 256 && d < Two(db)
    ensures Scaled(d, nb - db) % M == Scaled(d, nb - db)
  {
    hide Two, Pow, Scaled;
    ScaledBelow(d, nb - db, db);
    TwoMono(nb, 256);
    ModulusIs();
    SmallMod(Scaled(d, nb - db), M);
  }

  lemma SmallMod(x: nat, m: nat)
    requires x < m
    ensures x % m == x
  {
  }

  lemma ScaledBelow(d: nat, s: nat, t: nat)
    requires d < Two(t)
    ensures Scaled(d, s) < Two(t + s)
  {
    hide Two;
    TwoAdd(t, s);
    StrictMul(d, Two(t), Two(s));
  }

  lemma AlignedBound(n: nat, d: nat, nb: nat, db: nat)
    requires n < Two(nb) && 0 < db <= nb && Two(db - 1) <= d
    ensures DivState(n, 0, d, n, nb - db + 1)
  {
    hide Two;
    TwoAdd(db - 1, nb - db + 1);
    MulMono(Two(db - 1), d, Two(nb - db + 1), Two(nb - db + 1));
  }

  /** One round of the division, whichever way the comparison goes. */
  lemma DivStep(num: nat, q: nat, d: nat, n: nat, shift: nat)
    requires DivState(num, q, d, n, shift + 1)
    ensures if num >= Scaled(d, shift) then DivState(num - Scaled(d, shift), q + Two(shift), d, n, shift)
      else DivState(num, q, d, n, shift)
  {
    TwoNext(shift + 1);
    hide Two;
    Distribute(d, Two(shift), Two(shift));
    Distribute(d, q, Two(shift));
  }

  lemma DivEnd(num: nat, q: nat, d: nat, n: nat)
    requires DivState(num, q, d, n, 0)
    ensures d > 0 && q == Quotient(n, d)
  {
    TwoLimb();
    DivModIs(n, d, q, num);
  }

  lemma ShiftBack(d: nat, shift: nat)
    ensures shift > 0 ==> Quotient(Scaled(d, shift), Two(1)) == Scaled(d, shift - 1)
  {
    if shift > 0 {
      TwoNext(shift);
      TwoLimb();
      assert Two(1) == 2;
      Regroup(d, 2, Two(shift - 1));
      DivModIs(d * Two(shift), 2, d * Two(shift - 1), 0);
    }
  }

  lemma SumStart(s: seq<nat>, a: seq<nat>, b: seq<nat>)
    ensures LVal(s[..0]) == 0 && LVal(a[..0]) == 0 && LVal(b[..0]) == 0
  {
  }

  lemma SumStep(s: seq<nat>, t: seq<nat>, a: seq<nat>, b: seq<nat>, i: nat, carry: nat, n: nat)
    requires i < |s| == |t| == |a| == |b| && n == carry + a[i] + b[i] && t == s[i := n % B]
    requires LVal(s[..i]) + carry * Pow(B, i) == LVal(a[..i]) + LVal(b[..i])
    ensures LVal(t[..i + 1]) + n / B * Pow(B, i + 1) == LVal(a[..i + 1]) + LVal(b[..i + 1])
  {
    hide Pow, LVal;
    LValNext(t, i);
    LValNext(a, i);
    LValNext(b, i);
    assert t[..i] == s[..i];
    PowStep(i);
    SumArithmetic(n, carry, a[i], b[i], Pow(B, i));
  }

  lemma SumArithmetic(n: nat, carry: nat, x: nat, y: nat, p: nat)
    requires n == carry + x + y
    ensures n % B * p + n / B * (B * p) == carry * p + x * p + y * p
  {
    assert n == B * (n / B) + n % B;
    Regroup(n / B, B, p);
    Distribute(p, n % B, n / B * B);
    Distribute(p, carry + x, y);
    Distribute(p, carry, x);
  }

  lemma {:induction false} ComplementSum(a: seq<nat>, c: seq<nat>)
    requires |a| == |c| && Limbs(a) && forall i :: 0 <= i < |a| ==> c[i] == B - 1 - a[i]
    ensures Limbs(c) && LVal(c) == Pow(B, |a|) - 1 - LVal(a)
  {
    if a != [] {
      var n := |a| - 1;
      ComplementSum(a[..n], c[..n]);
      PowStep(n);
      Distribute(Pow(B, n), c[n], a[n] + 1);
      Distribute(Pow(B, n), a[n], 1);
    }
  }

  lemma CarryStart(a: seq<nat>)
    ensures LVal(a) + Pow(B, 0) == LVal(a) + 1
  {
  }

  lemma CarryStep(s: seq<nat>, t: seq<nat>, i: nat)
    requires i < |s| && s[i] < B && t == s[i := (s[i] + 1) % B]
    ensures if t[i] != 0 then LVal(t) == LVal(s) + Pow(B, i) else LVal(t) + Pow(B, i + 1) == LVal(s) + Pow(B, i)
  {
    hide Pow, LVal;
    LValUpdate(s, i, (s[i] + 1) % B);
    PowStep(i);
    if s[i] == B - 1 {
      Distribute(Pow(B, i), B, 1 - B);
      assert (0 - s[i]) * Pow(B, i) == (1 - B) * Pow(B, i);
    }
  }

  lemma NegateValue(v: nat)
    requires v < M
    ensures (M - 1 - v + 1) % M == if v == 0 then 0 else M - v
  {
    hide Pow;
    if v == 0 { DivModIs(M, M, 1, 0); } else { DivModIs(M - v, M, 0, M - v); }
  }

  lemma SubValue(v: nat, b: nat)
    requires v < M && b < M
    ensures (v + if b == 0 then 0 else M - b) % M == (v + M - b) % M
    ensures b <= v ==> (v + M - b) % M == v - b
  {
    hide Pow;
    if b <= v { DivModIs(v + M - b, M, 1, v - b); }
    if b == 0 { DivModIs(v, M, 0, v); }
  }

  // ----- products -------------------------------------------------------------------------------

  ghost function Times(a: nat, b: nat): nat { a * b }

  /** The 64-bit accumulator of a product never overflows. */
  lemma ProductFits(carry: nat, y: nat, a: nat, b: nat)
    requires carry < B && y < B && a < B && b < B
    ensures carry + y + a * b < B * B && (carry + y + a * b) / B < B && (carry + y + a * b) % B < B
  {
    MulMono(a, B - 1, b, B - 1);
    var n := carry + y + a * b;
    assert (B - 1) * (B - 1) == B * B - 2 * B + 1;
    assert n < B * B;
    assert n == B * (n / B) + n % B;
  }

  lemma MulSmallStart(s: seq<nat>, a: seq<nat>, b: nat)
    ensures LVal(s[..0]) == 0 && Times(b, LVal(a[..0])) == 0
  {
  }

  lemma MulSmallStep(s: seq<nat>, t: seq<nat>, a: seq<nat>, b: nat, i: nat, carry: nat, n: nat)
    requires i < |s| == |t| == |a| && n == carry + b * a[i] && t == s[i := n % B]
    requires LVal(s[..i]) + carry * Pow(B, i) == Times(b, LVal(a[..i]))
    ensures LVal(t[..i + 1]) + n / B * Pow(B, i + 1) == Times(b, LVal(a[..i + 1]))
  {
    hide Pow, LVal;
    LValNext(t, i);
    LValNext(a, i);
    assert t[..i] == s[..i];
    PowStep(i);
    var p := Pow(B, i);
    Digits(n, p);
    assert n * p == carry * p + b * (a[i] * p) by { Distribute(p, carry, b * a[i]); Regroup(b, a[i], p); }
    Distribute(b, LVal(a[..i]), a[i] * p);
  }

  /** A digit and its carry. */
  lemma Digits(n: nat, p: nat)
    ensures n % B * p + n / B * (B * p) == n * p
  {
    assert n == B * (n / B) + n % B;
    Regroup(n / B, B, p);
    Distribute(p, n % B, n / B * B);
  }

  /** A digit times the low limbs of b, at limb j. */
  ghost function Part(x: nat, b: seq<nat>, i: nat, j: nat): nat
    requires i <= |b|
  {
    x * LVal(b[..i]) * Pow(B, j)
  }

  lemma PartStart(x: nat, b: seq<nat>, j: nat)
    ensures Part(x, b, 0, j) == 0 && Times(0, Pow(B, 0 + j)) == 0
  {
    assert LVal(b[..0]) == 0;
  }

  lemma PartNext(x: nat, b: seq<nat>, i: nat, j: nat)
    requires i < |b|
    ensures Part(x, b, i + 1, j) == Part(x, b, i, j) + x * b[i] * Pow(B, i + j)
  {
    hide Pow, LVal;
    LValNext(b, i);
    PowAdd(B, i, j);
    PartArithmetic(x, LVal(b[..i]), b[i], Pow(B, i), Pow(B, j));
  }

  lemma PartArithmetic(x: nat, low: nat, d: nat, p: nat, q: nat)
    ensures x * (low + d * p) * q == x * low * q + x * d * (p * q)
  {
    Distribute(x, low, d * p);
    Distribute(q, x * low, x * (d * p));
    Regroup(x, d, p);
    Regroup(x * d, p, q);
  }

  lemma RowStep(s: seq<nat>, x: nat, b: seq<nat>, i: nat, j: nat, carry: nat, n: nat, start: nat)
    requires i + j < |s| && i < |b| && n == carry + s[i + j] + x * b[i]
    requires LVal(s) + Times(carry, Pow(B, i + j)) == start + Part(x, b, i, j)
    ensures LVal(s[i + j := n % B]) + Times(n / B, Pow(B, i + 1 + j)) == start + Part(x, b, i + 1, j)
  {
    hide Pow, LVal, Part;
    var k := i + j;
    var p := Pow(B, k);
    LValUpdate(s, k, n % B);
    PartNext(x, b, i, j);
    PowStep(k);
    Digits(n, p);
    Distribute(p, carry + s[k], x * b[i]);
    Distribute(p, carry, s[k]);
    Distribute(p, n % B - s[k], s[k]);
  }

  lemma {:induction false} LValSplit(s: seq<nat>, k: nat)
    requires k <= |s|
    ensures LVal(s) == LVal(s[..k]) + LVal(s[k..]) * Pow(B, k)
    decreases |s| - k
  {
    hide Pow, LVal;
    LValZero(s[|s|..]);
    if k == |s| {
      assert s[..k] == s;
    } else {
      var n := |s| - 1;
      LValSplit(s[..n], k);
      assert s[..n][..k] == s[..k] && s[..n][k..] == s[k..n] == s[k..][..n - k];
      assert s[..n + 1] == s && s[k..][..n - k + 1] == s[k..];
      LValNext(s, n);
      LValNext(s[k..], n - k);
      PowAdd(B, n - k, k);
      Regroup(s[n], Pow(B, n - k), Pow(B, k));
      Distribute(Pow(B, k), LVal(s[k..n]), s[n] * Pow(B, n - k));
    }
  }

  /** What falls off the top is a multiple of the modulus. */
  lemma RowEnd(x: nat, b: seq<nat>, j: nat, carry: nat) returns (over: nat)
    requires |b| == WIDTH && j <= WIDTH
    ensures Part(x, b, WIDTH, j) + Times(carry, Pow(B, WIDTH - j + j)) == Part(x, b, WIDTH - j, j) + Times(over, M)
  {
    hide Pow, LVal;
    var k := WIDTH - j;
    assert b[..WIDTH] == b;
    LValSplit(b, k);
    PowAdd(B, k, j);
    PartArithmetic(x, LVal(b[..k]), LVal(b[k..]), Pow(B, k), Pow(B, j));
    over := carry + x * LVal(b[k..]);
    Distribute(M, carry, x * LVal(b[k..]));
  }

  lemma ProductStart(p: seq<nat>, b: seq<nat>)
    ensures Times(LVal(p[..0]), LVal(b)) == 0 && Times(0, M) == 0
  {
  }

  lemma ProductRow(p: seq<nat>, b: seq<nat>, j: nat, before: nat, after: nat, q: nat, over: nat)
    requires j < |p| && |b| == WIDTH
    requires before + Times(q, M) == Times(LVal(p[..j]), LVal(b)) && after + Times(over, M) == before + Part(p[j], b, WIDTH, j)
    ensures after + Times(q + over, M) == Times(LVal(p[..j + 1]), LVal(b))
  {
    hide Pow, LVal;
    assert b[..WIDTH] == b;
    LValNext(p, j);
    var v, w := LVal(b), Pow(B, j);
    Distribute(v, LVal(p[..j]), p[j] * w);
    assert p[j] * w * v == p[j] * v * w by { Regroup(p[j], w, v); Regroup(p[j], v, w); }
    Distribute(M, q, over);
  }

  lemma ProductEnd(r: nat, q: nat, x: nat)
    requires r < M && r + Times(q, M) == x
    ensures r == x % M
  {
    hide Pow;
    DivModIs(x, M, q, r);
  }

  lemma BitClear(x: nat, n: nat)
    requires x < Two(n + 1) && x / Two(n) % 2 == 0
    ensures x < Two(n)
  {
    TwoNext(n + 1);
    hide Two;
    var p := Two(n);
    assert x == p * (x / p) + x % p;
    HighPartOf(x, p, x / p);
  }

  lemma HighPartOf(x: nat, p: nat, h: nat)
    requires p > 0 && x < 2 * p && h == x / p && h % 2 == 0
    ensures x < p
  {
    if h >= 2 { MulMono(p, p, 2, h); }
  }

  lemma TopBit(s: seq<nat>, pos: nat, n: nat)
    requires IsNumber(s) && pos < WIDTH && s[pos] != 0 && n < 32 && s[pos] < Two(n + 1) && forall j :: pos < j < WIDTH ==> s[j] == 0
    requires n > 0 ==> s[pos] / Two(n) % 2 != 0
    ensures Two(32 * pos + n) <= LVal(s) < Two(32 * pos + n + 1)
  {
    hide LVal, Pow, Two;
    var x, p, w := s[pos], Two(n), Pow(B, pos);
    TwoLimb();
    if n > 0 && x < p { SmallQuotient(x, p); }
    LowPart(s, pos);
    LValBound(s[..pos]);
    TwoShift(pos, n);
    TwoShift(pos, n + 1);
    MulMono(p, x, w, w);
    MulMono(x + 1, Two(n + 1), w, w);
    Distribute(w, x, 1);
  }

  lemma SmallQuotient(x: nat, p: nat)
    requires x < p
    ensures x / p == 0
  {
    DivModIs(x, p, 0, x);
  }

  /** Zero limbs on top do not count. */
  lemma {:induction false} LowPart(s: seq<nat>, pos: nat)
    requires pos < |s| && forall j :: pos < j < |s| ==> s[j] == 0
    ensures LVal(s) == LVal(s[..pos]) + s[pos] * Pow(B, pos)
    decreases |s|
  {
    hide Pow;
    var n := |s| - 1;
    if pos < n {
      LowPart(s[..n], pos);
      assert s[..n][..pos] == s[..pos];
      assert 0 * Pow(B, n) == 0;
    }
  }

  ghost function Small(b: nat): seq<nat> {
    [b % B, b / B, 0, 0, 0, 0, 0, 0]
  }

  lemma SmallIs(b: nat)
    requires b < B * B
    ensures IsNumber(Small(b)) && LVal(Small(b)) == b
  {
    assert b / B < B;
    var s, z: seq<nat> := Small(b), seq(WIDTH, _ => 0);
    LValZero(z);
    LValUpdate(z, 1, s[1]);
    LValUpdate(z[1 := s[1]], 0, s[0]);
    assert z[1 := s[1]][0 := s[0]] == s;
    assert Pow(B, 1) == B && Pow(B, 0) == 1;
  }

  lemma LeftStart(s: seq<nat>, a: seq<nat>, k: nat, r: nat, shift: nat)
    requires |s| == WIDTH && (forall i :: 0 <= i < WIDTH ==> s[i] == 0) && k == shift / 32 && r == shift % 32
    ensures Room(s, k, r) && LVal(s) == 0 && LVal(a[..0]) == 0
  {
    LValZero(s);
  }

  lemma LeftTotal(s: seq<nat>, a: seq<nat>, i: nat, k: nat, r: nat, q: nat, dq: nat, shift: nat)
    requires i < |a| && r < 32 && shift == 32 * k + r
    requires LVal(s) + q * M == LVal(a[..i]) * Two(shift)
    requires LVal(PushLeft(s, a[i], i + k, r)) + dq * M == LVal(s) + a[i] * Two(r) * Pow(B, i + k)
    ensures LVal(PushLeft(s, a[i], i + k, r)) + (q + dq) * M == LVal(a[..i + 1]) * Two(shift)
  {
    hide Two, Pow, LVal, PushLeft;
    LValNext(a, i);
    ShiftTerm(a[i], i, k, r);
    Distribute(M, q, dq);
    Distribute(Two(shift), LVal(a[..i]), a[i] * Pow(B, i));
  }

  lemma LeftStep(s: seq<nat>, a: seq<nat>, i: nat, k: nat, r: nat, q: nat, shift: nat) returns (q': nat)
    requires i < |a| && Limbs(a) && r < 32 && shift == 32 * k + r && Room(s, i + k, r)
    requires LVal(s) + q * M == LVal(a[..i]) * Two(shift)
    ensures LVal(PushLeft(s, a[i], i + k, r)) + q' * M == LVal(a[..i + 1]) * Two(shift) && Room(PushLeft(s, a[i], i + k, r), i + k + 1, r)
  {
    hide Two, Pow, LVal, PushLeft, Room;
    var dq := PushLeftAdds(s, a[i], i + k, r);
    LeftTotal(s, a, i, k, r, q, dq, shift);
    q' := q + dq;
  }

  lemma PushLeftIs(s: seq<nat>, mid: seq<nat>, t: seq<nat>, x: nat, j: nat, r: nat)
    requires r < 32 && |s| == WIDTH
    requires mid == if j + 1 < WIDTH && r != 0 then s[j + 1 := BitOr(s[j + 1], x / Two(32 - r))] else s
    requires t == if j < WIDTH then mid[j := BitOr(mid[j], x * Two(r) % B)] else mid
    ensures t == PushLeft(s, x, j, r)
  {
  }

  lemma RoomNumber(s: seq<nat>, j: nat, r: nat)
    requires Room(s, j, r)
    ensures IsNumber(s)
  {
  }

  lemma RightStart(s: seq<nat>, a: seq<nat>, k: nat, r: nat, shift: nat)
    requires |s| == WIDTH && (forall i :: 0 <= i < WIDTH ==> s[i] == 0) && r < 32
    ensures RoomRight(s, 0 - k, r) && RightState(LVal(s), 0, LVal(a[..0]), shift)
  {
    hide Two;
    LValZero(s);
  }

  lemma PushRightIs(s: seq<nat>, mid: seq<nat>, t: seq<nat>, x: nat, i: nat, k: nat, r: nat)
    requires r < 32 && |s| == WIDTH && i < WIDTH
    requires mid == if i - k - 1 >= 0 && r != 0 then s[i - k - 1 := BitOr(s[i - k - 1], x * Two(32 - r) % B)] else s
    requires t == if i - k >= 0 then mid[i - k := BitOr(mid[i - k], x / Two(r))] else mid
    ensures t == PushRight(s, x, i, k, r)
  {
  }

  lemma RoomRightNumber(s: seq<nat>, j: int, r: nat)
    requires r < 32 && RoomRight(s, j, r)
    ensures IsNumber(s)
  {
  }
}
