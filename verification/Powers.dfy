/** Powers of natural numbers, and numbers as lists of digits. */
module Powers {

  function Pow(b: nat, n: nat): nat {
    if n == 0 then 1 else b * Pow(b, n - 1)
  }

  lemma {:induction false} PowAdd(b: nat, m: nat, n: nat)
    ensures Pow(b, m + n) == Pow(b, m) * Pow(b, n)
  {
    if m > 0 {
      PowAdd(b, m - 1, n);
      Regroup(b, Pow(b, m - 1), Pow(b, n));
    }
  }

  lemma Regroup(a: int, b: int, c: int)
    ensures a * (b * c) == a * b * c
  {
  }

  lemma {:induction false} PowMul(b: nat, m: nat, n: nat)
    ensures Pow(b, m * n) == Pow(Pow(b, m), n)
    decreases n
  {
    if n > 0 {
      PowMul(b, m, n - 1);
      assert m * n == m + m * (n - 1);
      PowAdd(b, m, m * (n - 1));
    } else {
      assert m * n == 0;
    }
  }

  lemma {:induction false} PowPositive(b: nat, n: nat)
    requires b > 0
    ensures Pow(b, n) > 0
  {
    if n > 0 {
      PowPositive(b, n - 1);
      MulMono(1, b, Pow(b, n - 1), Pow(b, n - 1));
    }
  }

  lemma MulMono(a: nat, b: nat, c: nat, d: nat)
    requires a <= b && c <= d
    ensures a * c <= b * d
  {
    assert a * c <= b * c <= b * d;
  }

  lemma {:induction false} PowMono(b: nat, m: nat, n: nat)
    requires b > 0 && m <= n
    ensures Pow(b, m) <= Pow(b, n)
  {
    PowAdd(b, m, n - m);
    PowPositive(b, n - m);
    MulMono(Pow(b, m), Pow(b, m), 1, Pow(b, n - m));
  }

  lemma {:induction false} PowBaseMono(a: nat, b: nat, n: nat)
    requires a <= b
    ensures Pow(a, n) <= Pow(b, n)
  {
    if n > 0 {
      PowBaseMono(a, b, n - 1);
      MulMono(a, b, Pow(a, n - 1), Pow(b, n - 1));
    }
  }

  /** Roots keep order. */
  lemma {:induction false} PowBaseStrict(a: nat, b: nat, n: nat)
    requires a < b && n > 0
    ensures Pow(a, n) < Pow(b, n)
  {
    PowBaseMono(a, b, n - 1);
    PowPositive(b, n - 1);
    MulMono(a, a, Pow(a, n - 1), Pow(b, n - 1));
    StrictMul(a, b, Pow(b, n - 1));
  }

  lemma StrictMul(a: nat, b: nat, c: nat)
    requires a < b && c > 0
    ensures a * c < b * c
  {
  }

  lemma PowSwap(b: nat, m: nat, n: nat)
    ensures Pow(Pow(b, m), n) == Pow(Pow(b, n), m)
  {
    hide Pow;
    PowMul(b, m, n);
    PowMul(b, n, m);
    assert m * n == n * m;
  }

  lemma RootMono(x: nat, y: nat, k: nat)
    requires k > 0 && Pow(x, k) <= Pow(y, k)
    ensures x <= y
  {
    hide Pow;
    if y < x { PowBaseStrict(y, x, k); }
  }

  lemma RaisedBy(a: nat, b: nat, k: nat, l: nat, n: nat)
    requires Pow(a, k) <= Pow(b, l)
    ensures Pow(Pow(a, n), k) <= Pow(b, l * n)
  {
    hide Pow;
    PowSwap(a, n, k);
    PowBaseMono(Pow(a, k), Pow(b, l), n);
    PowMul(b, l, n);
  }

  /** a^k <= b^l turns a^n into at most b^m for the rounded-up proportion m. */
  lemma Proportion(a: nat, b: nat, k: nat, l: nat, n: nat, m: nat, p: nat, q: nat)
    requires b > 0 && k > 0 && Pow(a, k) <= Pow(b, l) && p == l * n && q == m * k && p <= q
    ensures Pow(a, n) <= Pow(b, m)
  {
    hide Pow;
    RaisedBy(a, b, k, l, n);
    PowMono(b, p, q);
    PowMul(b, m, k);
    RootMono(Pow(a, n), Pow(b, m), k);
  }

  // ----- digits, most significant first -------------------------------------------------------

  function Val(base: nat, s: seq<nat>): nat {
    if s == [] then 0 else base * Val(base, s[..|s| - 1]) + s[|s| - 1]
  }

  predicate Digits(base: nat, s: seq<nat>) {
    forall i :: 0 <= i < |s| ==> s[i] < base
  }

  predicate Canonical(base: nat, s: seq<nat>) {
    Digits(base, s) && (s == [] || s[0] != 0)
  }

  lemma {:induction false} ValBound(base: nat, s: seq<nat>)
    requires Digits(base, s)
    ensures Val(base, s) < Pow(base, |s|)
  {
    if s != [] {
      var t := s[..|s| - 1];
      ValBound(base, t);
      MulMono(base, base, Val(base, t) + 1, Pow(base, |t|));
      Distribute(base, Val(base, t), 1);
    }
  }

  lemma Distribute(a: int, b: int, c: int)
    ensures a * (b + c) == a * b + a * c
  {
  }

  lemma {:induction false} ValCons(base: nat, d: nat, s: seq<nat>)
    ensures Val(base, [d] + s) == d * Pow(base, |s|) + Val(base, s)
  {
    if s == [] {
      assert ([d] + s)[..0] == [];
    } else {
      var t := s[..|s| - 1];
      assert ([d] + s)[..|s|] == [d] + t;
      ValCons(base, d, t);
      Distribute(base, d * Pow(base, |t|), Val(base, t));
      Regroup(base, d, Pow(base, |t|));
      Regroup(d, base, Pow(base, |t|));
      assert base * d == d * base;
    }
  }

  lemma {:induction false} ValLeadingZeros(base: nat, s: seq<nat>, n: nat)
    requires n <= |s| && forall i :: 0 <= i < n ==> s[i] == 0
    ensures Val(base, s) == Val(base, s[n..])
    decreases n
  {
    if n > 0 {
      assert s == [0] + s[1..];
      ValCons(base, 0, s[1..]);
      ValLeadingZeros(base, s[1..], n - 1);
      assert s[1..][n - 1..] == s[n..];
    } else {
      assert s[0..] == s;
    }
  }

  /** Without leading zeros a number is written in one way only. */
  lemma {:induction false} CanonicalUnique(base: nat, s: seq<nat>, t: seq<nat>)
    requires base > 1 && Canonical(base, s) && Canonical(base, t) && Val(base, s) == Val(base, t)
    ensures s == t
    decreases |s| + |t|
  {
    hide Canonical;
    if s == [] || t == [] {
      ZeroOnlyEmpty(base, s);
      ZeroOnlyEmpty(base, t);
    } else {
      var a, b := s[..|s| - 1], t[..|t| - 1];
      LastDigit(base, Val(base, a), s[|s| - 1], Val(base, b), t[|t| - 1]) by { DropDigit(base, s); DropDigit(base, t); }
      DropDigit(base, s);
      DropDigit(base, t);
      CanonicalUnique(base, a, b);
      assert s == a + [s[|s| - 1]] && t == b + [t[|t| - 1]];
    }
  }

  lemma DropDigit(base: nat, s: seq<nat>)
    requires Canonical(base, s) && s != []
    ensures Canonical(base, s[..|s| - 1]) && s[|s| - 1] < base
  {
  }

  lemma LastDigit(base: nat, a: nat, x: nat, b: nat, y: nat)
    requires x < base && y < base && base * a + x == base * b + y
    ensures a == b && x == y
  {
    if a < b { MulMono(base, base, a + 1, b); Distribute(base, a, 1); }
    if b < a { MulMono(base, base, b + 1, a); Distribute(base, b, 1); }
  }

  /** Quotient and remainder are determined by their equation. */
  lemma DivModIs(x: nat, p: nat, q: nat, r: nat)
    requires x == p * q + r && r < p
    ensures x / p == q && x % p == r
  {
    LastDigit(p, x / p, x % p, q, r);
  }

  lemma ZeroOnlyEmpty(base: nat, s: seq<nat>)
    requires base > 1 && Canonical(base, s)
    ensures Val(base, s) == 0 <==> s == []
  {
    if s != [] {
      assert s == [s[0]] + s[1..];
      ValCons(base, s[0], s[1..]);
      PowPositive(base, |s| - 1);
      MulMono(1, s[0], 1, Pow(base, |s| - 1));
    }
  }
}
