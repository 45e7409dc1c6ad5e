/**
 * The heights that skip links lead to, and how many steps a walk along skip and
 * predecessor links takes.
 */
module SkipHeights {
  import opened Powers

  // ----- skip heights ------------------------------------------------------------------------

  /** Bitwise and of two non-negative integers, digit by digit. */
  function BitAnd(a: nat, b: nat): nat {
    if a == 0 || b == 0 then 0 else 2 * BitAnd(a / 2, b / 2) + (a % 2) * (b % 2)
  }

  function InvertLowestOne(n: nat): nat {
    if n == 0 then 0 else BitAnd(n, n - 1)
  }

  lemma {:induction false} BitAndSame(n: nat)
    ensures BitAnd(n, n) == n
  {
    if n > 0 { BitAndSame(n / 2); }
  }

  /** The lowest one goes, everything above it stays. */
  lemma {:induction false} InvertLowestOneIs(n: nat)
    ensures n > 0 ==> InvertLowestOne(n) < n
    ensures InvertLowestOne(n) == if n % 2 == 1 then n - 1 else 2 * InvertLowestOne(n / 2)
  {
    if n > 0 {
      if n % 2 == 1 {
        assert (n - 1) / 2 == n / 2;
        BitAndSame(n / 2);
        assert n - 1 > 0 ==> BitAnd(n, n - 1) == 2 * BitAnd(n / 2, n / 2);
      } else {
        assert (n - 1) / 2 == n / 2 - 1;
        InvertLowestOneIs(n / 2);
      }
    }
  }

  /** Strictly lower, so a walk along skip links ends. */
  function GetSkipHeight(height: int): (r: nat)
    ensures height > 0 ==> r < height
  {
    if height < 2 then 0
    else if height % 2 == 1 then
      InvertLowestOneIs(height - 1);
      InvertLowestOneIs(InvertLowestOne(height - 1));
      InvertLowestOne(InvertLowestOne(height - 1)) + 1
    else
      InvertLowestOneIs(height);
      InvertLowestOne(height)
  }

  // ----- the walk ------------------------------------------------------------------------------

  /** Where a walk to height t goes from height w: only follow a skip link if the predecessor's is not better. */
  function Next(w: nat, t: nat): (r: nat)
    requires t < w
    ensures t <= r < w
  {
    var skip, skipPrev := GetSkipHeight(w), GetSkipHeight(w - 1);
    if skip == t || (skip > t && !(skipPrev < skip - 2 && skipPrev >= t)) then skip else w - 1
  }

  function Walk(w: nat, t: nat): nat
    requires t <= w
    decreases w
  {
    if w == t then 0 else 1 + Walk(Next(w, t), t)
  }

  function Two(k: nat): (r: nat)
    ensures r > 0
  {
    PowPositive(2, k);
    Pow(2, k)
  }

  lemma TwoNext(k: nat)
    ensures Two(k + 1) == 2 * Two(k) && Two(0) == 1 && Two(1) == 2 && Two(2) == 4 && Two(3) == 8
  {
    assert Pow(2, 1) == 2 && Pow(2, 2) == 4 && Pow(2, 3) == 8;
  }

  lemma {:induction false} TwoMono(j: nat, k: nat)
    requires j <= k
    ensures Two(j) <= Two(k) && (j < k ==> 2 * Two(j) <= Two(k))
  {
    hide Two;
    if j < k {
      TwoNext(k - 1);
      TwoMono(j, k - 1);
    }
  }

  /** w is an odd multiple of 2^k. */
  ghost predicate LowestAt(w: nat, k: nat) {
    w % (2 * Two(k)) == Two(k)
  }

  lemma LowestHalf(w: nat, k: nat)
    requires k > 0 && LowestAt(w, k)
    ensures w % 2 == 0 && LowestAt(w / 2, k - 1)
  {
    hide Two;
    TwoNext(k - 1);
    HalfMod(w, Two(k - 1));
  }

  lemma HalfMod(w: nat, p: nat)
    requires p > 0 && w % (4 * p) == 2 * p
    ensures w % 2 == 0 && w / 2 % (2 * p) == p
  {
    var q := w / (4 * p);
    assert w == q * (4 * p) + 2 * p;
    assert q * (4 * p) == 2 * (q * (2 * p));
    assert w / 2 == q * (2 * p) + p;
    DivModIs(w / 2, 2 * p, q, p);
  }

  /** Inverting the lowest one takes it off. */
  lemma {:induction false} InvertIs(w: nat, k: nat)
    requires LowestAt(w, k)
    ensures w >= Two(k) && InvertLowestOne(w) == w - Two(k)
    decreases k
  {
    InvertLowestOneIs(w);
    hide InvertLowestOne;
    TwoNext(k);
    if k > 0 {
      TwoNext(k - 1);
      LowestHalf(w, k);
      hide Two;
      InvertIs(w / 2, k - 1);
    }
  }

  lemma {:induction false} LowestExists(w: nat) returns (k: nat)
    requires w > 0
    ensures LowestAt(w, k)
  {
    TwoNext(0);
    if w % 2 == 1 {
      k := 0;
    } else {
      var j := LowestExists(w / 2);
      k := j + 1;
      hide Two;
      TwoNext(j);
      DoubleMod(w / 2, Two(j));
    }
  }

  lemma DoubleMod(w: nat, p: nat)
    requires p > 0 && w % (2 * p) == p
    ensures (2 * w) % (2 * (2 * p)) == 2 * p
  {
    var q := w / (2 * p);
    assert w == q * (2 * p) + p;
    assert 2 * w == q * (2 * (2 * p)) + 2 * p;
    DivModIs(2 * w, 2 * (2 * p), q, 2 * p);
  }

  /** Below an odd multiple of 2^k, at distance 2^j with j < k, lies an odd multiple of 2^j. */
  lemma LowestBelow(w: nat, k: nat, j: nat)
    requires LowestAt(w, k) && j < k
    ensures w >= Two(k) >= 2 * Two(j) && LowestAt(w - Two(j), j)
  {
    InvertIs(w, k);
    hide Two, InvertLowestOne;
    TwoMono(j, k);
    TwoDivides(j, k);
    BelowMod(w, Two(k), Two(j));
  }

  lemma {:induction false} TwoDivides(j: nat, k: nat)
    requires j < k
    ensures Two(k) % (2 * Two(j)) == 0
    decreases k
  {
    hide Two;
    TwoNext(k - 1);
    if j < k - 1 {
      TwoDivides(j, k - 1);
      var m := Two(k - 1) / (2 * Two(j));
      assert Two(k - 1) == m * (2 * Two(j));
      assert Two(k) == (2 * m) * (2 * Two(j));
      DivModIs(Two(k), 2 * Two(j), 2 * m, 0);
    } else {
      DivModIs(Two(k), 2 * Two(j), 1, 0);
    }
  }

  lemma BelowMod(w: nat, q: nat, p: nat)
    requires p > 0 && q > 0 && q % (2 * p) == 0 && w % (2 * q) == q && w >= 2 * p
    ensures (w - p) % (2 * p) == p
  {
    var a, m := w / (2 * q), q / (2 * p);
    assert w == a * (2 * q) + q && q == m * (2 * p);
    assert w == (2 * a + 1) * q by { assert a * (2 * q) == (2 * a) * q; }
    assert (2 * a + 1) * q == (2 * a + 1) * m * (2 * p) by { Regroup(2 * a + 1, m, 2 * p); }
    var n := (2 * a + 1) * m;
    assert w == n * (2 * p);
    assert n >= 1;
    assert w - p == (n - 1) * (2 * p) + p;
    DivModIs(w - p, 2 * p, n - 1, p);
  }

  // ----- skip heights by the lowest one -------------------------------------------------------------

  lemma SkipEven(w: nat, k: nat)
    requires LowestAt(w, k) && k > 0
    ensures w % 2 == 0 && w >= 2 && GetSkipHeight(w) == w - Two(k)
  {
    InvertIs(w, k);
    LowestHalf(w, k);
    hide InvertLowestOne;
  }

  /** From just above a distance of 2^j below w, the skip goes to just above a distance of 2^(j+2). */
  lemma SkipOdd(w: nat, k: nat, j: nat)
    requires LowestAt(w, k) && 0 < j < k
    ensures var z := w - Two(j) + 1;
      && z >= 3 && z % 2 == 1 && GetSkipHeight(z - 1) == w - 2 * Two(j) >= 0
      && (j + 1 < k ==> w >= 4 * Two(j) && GetSkipHeight(z) == w - 4 * Two(j) + 1)
      && (j + 1 == k ==> w >= Two(k) && GetSkipHeight(z) <= if w == Two(k) then 1 else w - Two(k))
  {
    hide InvertLowestOne, Two;
    var y := w - Two(j);
    LowestBelow(w, k, j);
    SkipEven(y, j);
    InvertIs(y, j);
    TwoNext(j);
    if j + 1 < k {
      LowestBelow(w, k, j + 1);
      InvertIs(y - Two(j), j + 1);
    } else {
      InvertLowestOneIs(w - Two(k));
      InvertZero();
    }
  }

  lemma InvertZero()
    ensures InvertLowestOne(0) == 0
  {
  }

  lemma WalkStep(w: nat, t: nat)
    requires t < w
    ensures Walk(w, t) == 1 + Walk(Next(w, t), t)
  {
  }

  /** Steps left when the next skip overshoots and the distance is below 2^l. */
  function Cost(l: nat): nat {
    if l == 0 then 0 else Cost(l - 1) + l + 2
  }

  lemma {:induction false} CostMono(a: nat, b: nat)
    requires a <= b
    ensures Cost(a) <= Cost(b)
    decreases b
  {
    if a < b { CostMono(a, b - 1); }
  }

  /**
   * The skip from w overshoots and the distance to go is below 2^l.  The walk
   * steps back once and then down by odd skips of growing length.
   */
  lemma {:induction false} Phase(w: nat, k: nat, t: nat, l: nat)
    requires LowestAt(w, k) && 0 < k && l <= k && t <= w < t + Two(l)
    ensures Walk(w, t) <= Cost(l)
    decreases l, 1, 0
  {
    hide Two, LowestAt, Walk, GetSkipHeight, Next, Cost;
    TwoNext(0);
    if w == t {
      WalkEnd(t);
    } else {
      CostNext(l);
      TwoNext(l - 1);
      if w < t + Two(l - 1) {
        Phase(w, k, t, l - 1);
      } else {
        TwoMono(l, k);
        SkipEven(w, k);
        StepBack(w, t);
        if l == 1 {
          WalkEnd(t);
        } else {
          Chain(w, k, t, 1, l);
        }
      }
    }
  }

  lemma WalkEnd(t: nat)
    ensures Walk(t, t) == 0
  {
  }

  lemma CostNext(l: nat)
    ensures l > 0 ==> Cost(l) == Cost(l - 1) + l + 2
  {
  }

  /** The skip overshoots. */
  lemma StepBack(w: nat, t: nat)
    requires t < w && GetSkipHeight(w) < t
    ensures Next(w, t) == w - 1 && Walk(w, t) == 1 + Walk(w - 1, t)
  {
    hide GetSkipHeight;
  }

  /** The skip does not, and the predecessor's is not better. */
  lemma StepSkip(w: nat, t: nat)
    requires t < w && GetSkipHeight(w) >= t
    requires GetSkipHeight(w - 1) >= GetSkipHeight(w) - 2 || GetSkipHeight(w - 1) < t
    ensures Next(w, t) == GetSkipHeight(w) && Walk(w, t) == 1 + Walk(GetSkipHeight(w), t)
  {
    hide GetSkipHeight;
  }

  /** Odd skips: from just above 2^j below w. */
  lemma {:induction false} Chain(w: nat, k: nat, t: nat, j: nat, l: nat)
    requires LowestAt(w, k) && j % 2 == 1 && 0 < j < l <= k && t + Two(l - 1) <= w < t + Two(l)
    ensures w - Two(j) + 1 > t && Walk(w - Two(j) + 1, t) <= l - 1 - j + 3 + Cost(l - 1)
    decreases l, 0, l - j
  {
    hide Two, LowestAt, Walk, GetSkipHeight, Next, Cost;
    TwoMono(j, l - 1);
    TwoMono(l, k);
    SkipOdd(w, k, j);
    TwoNext(j);
    TwoNext(j + 1);
    var z := w - Two(j) + 1;
    if w - 4 * Two(j) + 1 >= t {
      LongerThan(w, t, l, j + 2);
      StepSkip(z, t);
      if w - 4 * Two(j) + 1 == t {
        WalkEnd(t);
      } else {
        Chain(w, k, t, j + 2, l);
      }
    } else if j + 1 == k && GetSkipHeight(z) == t {
      StepSkip(z, t);
      WalkEnd(t);
    } else {
      StepBack(z, t);
      Turn(w, k, t, j, l);
    }
  }

  /** At least 2^m - 1 away with m > 0, the distance has room for m binary digits. */
  lemma LongerThan(w: nat, t: nat, l: nat, m: nat)
    requires m > 0 && w < t + Two(l) && w - Two(m) + 1 >= t
    ensures m <= l && (w - Two(m) >= t ==> m < l)
  {
    hide Two;
    if m > l { TwoMono(l, m); }
    if m == l { TwoNext(0); }
  }

  /** One step back from the odd chain: at most one even skip, then the next overshooting skip. */
  lemma {:induction false} Turn(w: nat, k: nat, t: nat, j: nat, l: nat)
    requires LowestAt(w, k) && j % 2 == 1 && 0 < j < l <= k && t + Two(l - 1) <= w < t + Two(l)
    requires w - 4 * Two(j) + 1 < t
    ensures w - Two(j) >= t && Walk(w - Two(j), t) <= 1 + Cost(l - 1)
    decreases l, 0, 0
  {
    hide Two, LowestAt, Walk, GetSkipHeight, Next, Cost;
    var y := w - Two(j);
    TwoMono(j, l - 1);
    TwoMono(l, k);
    LowestBelow(w, k, j);
    SkipEven(y, j);
    TwoNext(j);
    CostMono(j, l - 1);
    if y == t {
      WalkEnd(t);
    } else if y - Two(j) < t {
      Phase(y, j, t, j);
    } else {
      NotBetter(w, k, t, j);
      StepSkip(y, t);
      if y - Two(j) == t {
        WalkEnd(t);
      } else {
        LongerThan(w, t, l, j + 1);
        LowestBelow(w, k, j + 1);
        CostMono(j + 1, l - 1);
        Phase(y - Two(j), j + 1, t, j + 1);
      }
    }
  }

  /** After an even number the predecessor's skip falls short or overshoots. */
  lemma NotBetter(w: nat, k: nat, t: nat, j: nat)
    requires LowestAt(w, k) && j % 2 == 1 && 0 < j < k && w < t + Two(k)
    requires w - 4 * Two(j) + 1 < t <= w - 2 * Two(j)
    ensures var y := w - Two(j);
      y >= 1 && (GetSkipHeight(y - 1) >= y - Two(j) - 2 || GetSkipHeight(y - 1) < t)
  {
    hide Two, LowestAt, GetSkipHeight;
    var y := w - Two(j);
    LowestBelow(w, k, j);
    TwoNext(0);
    if j == 1 {
      if k <= 2 { TwoMono(k, 2); }
      SkipOdd(w, k, 2);
      if k == 3 { TwoNext(2); }
    } else {
      TwoMono(3, j);
      SkipOdd(y, j, 1);
    }
  }

  // ----- the beginning of a walk ----------------------------------------------------------------------

  /** Number of binary ones. */
  function Ones(n: nat): nat {
    if n == 0 then 0 else n % 2 + Ones(n / 2)
  }

  lemma {:induction false} OnesInvert(n: nat)
    requires n > 0
    ensures Ones(InvertLowestOne(n)) == Ones(n) - 1
  {
    InvertLowestOneIs(n);
    if n % 2 == 1 {
      assert (n - 1) / 2 == n / 2;
    } else {
      OnesInvert(n / 2);
      hide InvertLowestOne;
      var m := InvertLowestOne(n / 2);
      assert 2 * m / 2 == m && 2 * m % 2 == 0;
    }
  }

  lemma {:induction false} OnesBound(n: nat, l: nat)
    requires n < Two(l)
    ensures Ones(n) <= l
  {
    TwoNext(0);
    if n > 0 {
      if l > 0 {
        TwoNext(l - 1);
        hide Two;
        OnesBound(n / 2, l - 1);
      }
    }
  }

  lemma LowestInside(w: nat, k: nat, l: nat)
    requires LowestAt(w, k) && w < Two(l)
    ensures k < l
  {
    InvertIs(w, k);
    hide Two, InvertLowestOne;
    if l <= k { TwoMono(l, k); }
  }

  /** From an even height: every skip takes off a one, sometimes from the predecessor. */
  lemma {:induction false} FromEven(w: nat, t: nat, l: nat)
    requires w % 2 == 0 && t <= w < Two(l)
    ensures Walk(w, t) <= 3 * Ones(w) + Cost(l)
    decreases w, 0
  {
    hide Two, LowestAt, Walk, GetSkipHeight, Next, Cost, Ones, InvertLowestOne;
    if w == t {
      WalkEnd(t);
    } else {
      var k := LowestExists(w);
      LowestInside(w, k, l);
      EvenLowest(w, k);
      SkipEven(w, k);
      InvertIs(w, k);
      OnesInvert(w);
      CostMono(k, l);
      var skip := w - Two(k);
      if skip < t {
        Phase(w, k, t, k);
      } else if GetSkipHeight(w - 1) >= skip - 2 || GetSkipHeight(w - 1) < t {
        StepSkip(w, t);
        InvertEven(w);
        FromEven(skip, t, l);
      } else {
        Better(w, k, t);
        StepBetter(w, t);
        FromOdd(GetSkipHeight(w - 1), t, l);
      }
    }
  }

  lemma EvenLowest(w: nat, k: nat)
    requires LowestAt(w, k) && w % 2 == 0
    ensures k > 0
  {
    TwoNext(0);
  }

  lemma InvertEven(w: nat)
    requires w > 0 && w % 2 == 0
    ensures InvertLowestOne(w) % 2 == 0
  {
    InvertLowestOneIs(w);
  }

  /** Back one and then along the predecessor's skip, which is never worse than its own predecessor's. */
  lemma StepBetter(w: nat, t: nat)
    requires w % 2 == 0 && t < w && t < GetSkipHeight(w) && t <= GetSkipHeight(w - 1) < GetSkipHeight(w) - 2
    ensures Walk(w, t) == 2 + Walk(GetSkipHeight(w - 1), t)
  {
    OddNotBetter(w - 1);
    hide GetSkipHeight;
    StepSkip(w - 1, t);
    assert Next(w, t) == w - 1;
  }

  lemma OddNotBetter(z: nat)
    requires z % 2 == 1
    ensures GetSkipHeight(z - 1) >= GetSkipHeight(z) - 2
  {
    if z >= 3 {
      InvertLowestOneIs(z - 1);
      InvertLowestOneIs(InvertLowestOne(z - 1));
      InvertZero();
    }
  }

  /** A better predecessor's skip takes off at least one of the ones of w. */
  lemma Better(w: nat, k: nat, t: nat)
    requires LowestAt(w, k) && 0 < k && w >= 4 && GetSkipHeight(w - 1) < w - Two(k) - 2
    ensures GetSkipHeight(w - 1) % 2 == 1 && Ones(GetSkipHeight(w - 1) - 1) <= Ones(w) - 1
  {
    hide Two, LowestAt, Ones;
    TwoNext(0);
    SkipEven(w, k);
    InvertIs(w, k);
    OnesInvert(w);
    if k >= 3 {
      TwoMono(3, k);
      SkipOdd(w, k, 1);
    } else {
      BetterLow(w, k);
    }
  }

  lemma BetterLow(w: nat, k: nat)
    requires LowestAt(w, k) && (k == 1 || k == 2) && w >= 4
    ensures GetSkipHeight(w - 1) % 2 == 1 && Ones(GetSkipHeight(w - 1) - 1) <= Ones(w) - 1
  {
    hide Ones, InvertLowestOne, GetSkipHeight, Two, LowestAt;
    TwoNext(0);
    SkipEven(w, k);
    SkipBeforeEven(w);
    InvertIs(w, k);
    OnesInvert(w);
    var a := InvertLowestOne(w);
    InvertEven(w);
    InvertDown(a);
    InvertDown(InvertLowestOne(a));
    if k == 2 {
      LowestBelow(w, 2, 1);
      InvertIs(w - 2, 1);
    }
  }

  lemma SkipBeforeEven(w: nat)
    requires w >= 4 && w % 2 == 0
    ensures GetSkipHeight(w - 1) == InvertLowestOne(InvertLowestOne(w - 2)) + 1
  {
  }

  lemma InvertDown(n: nat)
    requires n % 2 == 0
    ensures InvertLowestOne(n) % 2 == 0 && Ones(InvertLowestOne(n)) <= Ones(n)
  {
    hide Ones, InvertLowestOne;
    InvertZero();
    if n > 0 {
      InvertEven(n);
      OnesInvert(n);
    }
  }

  /** From an odd height: every skip takes off two ones. */
  lemma {:induction false} FromOdd(z: nat, t: nat, l: nat)
    requires z % 2 == 1 && t <= z < Two(l)
    ensures Walk(z, t) <= 3 * Ones(z - 1) + 1 + Cost(l)
    decreases z, 1
  {
    if z == t {
      WalkEnd(t);
    } else if GetSkipHeight(z) < t {
      StepBack(z, t);
      hide Two, Walk, GetSkipHeight, Next, Cost, Ones;
      FromEven(z - 1, t, l);
    } else {
      OddNotBetter(z);
      StepSkip(z, t);
      OddSkip(z);
      hide Two, Walk, GetSkipHeight, Next, Cost, Ones;
      if z == 1 {
        WalkEnd(t);
      } else {
        FromOdd(GetSkipHeight(z), t, l);
      }
    }
  }

  lemma OddSkip(z: nat)
    requires z % 2 == 1
    ensures z == 1 ==> GetSkipHeight(z) == 0
    ensures z > 1 ==> GetSkipHeight(z) % 2 == 1 && Ones(GetSkipHeight(z) - 1) <= Ones(z - 1) - 1
  {
    if z > 1 {
      var a := InvertLowestOne(z - 1);
      OnesInvert(z - 1);
      InvertEven(z - 1);
      InvertZero();
      if a > 0 { OnesInvert(a); InvertEven(a); }
    }
  }

  /** Quadratic in the number of binary digits of the height. */
  function StepBound(l: nat): nat {
    l * (l + 11) / 2 + 1
  }

  lemma {:induction false} CostIs(l: nat)
    ensures 2 * Cost(l) == l * (l + 5)
  {
    if l > 0 {
      CostIs(l - 1);
      assert (l - 1) * (l + 4) + 2 * l + 4 == l * (l + 5);
    }
  }

  /** A walk from any height below 2^l to any lower one takes at most l(l+11)/2 + 1 steps. */
  lemma WalkIsShort(w: nat, t: nat, l: nat)
    requires t <= w < Two(l)
    ensures Walk(w, t) <= StepBound(l)
  {
    hide Two, Walk, Cost, Ones;
    CostIs(l);
    assert l * (l + 11) == l * (l + 5) + 6 * l;
    if w % 2 == 0 {
      OnesBound(w, l);
      FromEven(w, t, l);
    } else {
      OnesBound(w - 1, l);
      FromOdd(w, t, l);
    }
  }
}
