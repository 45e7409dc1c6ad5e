/**
 * Bech32: a checksum of six five-bit symbols, and the text form of a
 * human-readable part with data.  Strings are of bytes, so characters have
 * codes below 256; five-bit values are bit vectors.
 */
module Bech32 {

  type Symbol = bv5

  // Exclusive or under names, for proofs that need only its laws.
  function Add(a: bv32, b: bv32): bv32 { a ^ b }
  function Plus(a: Symbol, b: Symbol): Symbol { a ^ b }

  lemma XorZero(a: bv32, b: bv32)
    ensures a ^ b == 0 <==> a == b
  {
  }

  lemma XorTwice(a: bv32, b: bv32)
    ensures a ^ 0 == a && a ^ b ^ b == a
  {
  }

  lemma AddLaws(a: bv32, b: bv32)
    ensures Add(a, b) == 0 <==> a == b
    ensures Add(a, 0) == a && Add(Add(a, b), b) == a
  {
    XorZero(a, b);
    XorTwice(a, b);
  }

  lemma PlusLaws(a: Symbol, b: Symbol)
    ensures Plus(a, b) == 0 <==> a == b
    ensures Plus(a, 0) == a
  {
  }

  // ----- one step of the checksum -------------------------------------------------------------

  /** The multiple of k(x) that c0 selects, bit by bit. */
  function Mix(c0: bv5): bv32 {
    (if c0 & 1 != 0 then 0x3b6a57b2 else 0) ^ (if c0 & 2 != 0 then 0x26508e6d else 0) ^
    (if c0 & 4 != 0 then 0x1ea119fa else 0) ^ (if c0 & 8 != 0 then 0x3d4233dd else 0) ^
    (if c0 & 16 != 0 then 0x2a1462b3 else 0)
  }

  predicate Fits(c: bv32) {
    c & 0xC000_0000 == 0
  }

  function Top(c: bv32): bv5 {
    ((c >> 25) & 31) as bv5
  }

  /** c1*x^5 + ... + c5*x + v */
  function Shifted(c: bv32, v: Symbol): bv32 {
    ((c & 0x1ffffff) << 5) ^ (v as bv32)
  }

  function Step(c: bv32, v: Symbol): bv32 {
    Add(Shifted(c, v), Mix(Top(c)))
  }

  lemma MixFits(c0: bv5)
    ensures Fits(Mix(c0))
  {
  }

  lemma MixLinear(a: bv5, b: bv5)
    ensures Mix(Plus(a, b)) == Add(Mix(a), Mix(b))
  {
  }

  lemma StepFits(c: bv32, v: Symbol)
    ensures Fits(Step(c, v))
  {
    MixFits(Top(c));
    hide Mix;
  }

  lemma TopLinear(c: bv32, d: bv32)
    ensures Top(Add(c, d)) == Plus(Top(c), Top(d))
  {
  }

  lemma ShiftLinear(c: bv32, d: bv32, v: Symbol, w: Symbol)
    ensures Shifted(Add(c, d), Plus(v, w)) == Add(Shifted(c, v), Shifted(d, w))
  {
  }

  lemma Associates(a: bv32, b: bv32, c: bv32)
    ensures Add(Add(a, b), c) == Add(a, Add(b, c)) && Add(b, c) == Add(c, b)
  {
  }

  lemma Exchange(a: bv32, b: bv32, c: bv32, d: bv32)
    ensures Add(Add(a, b), Add(c, d)) == Add(Add(a, c), Add(b, d))
  {
    hide Add;
    Associates(a, b, Add(c, d));
    Associates(b, c, d);
    Associates(c, b, d);
    Associates(a, c, Add(b, d));
    Associates(c, b, c);
  }

  lemma StepLinear(c: bv32, d: bv32, v: Symbol, w: Symbol)
    ensures Step(Add(c, d), Plus(v, w)) == Add(Step(c, v), Step(d, w))
  {
    hide Mix, Top, Shifted, Add, Plus;
    TopLinear(c, d);
    ShiftLinear(c, d, v, w);
    MixLinear(Top(c), Top(d));
    Exchange(Shifted(c, v), Shifted(d, w), Mix(Top(c)), Mix(Top(d)));
  }

  /** x is invertible modulo g(x): a step loses nothing. */
  lemma StepInjective(d: bv32)
    requires Fits(d) && Step(d, 0) == 0
    ensures d == 0
  {
  }

  // ----- over the field of 32 elements ----------------------------------------------------------

  function Double(a: bv5): bv5 {
    (a << 1) ^ (if a & 16 != 0 then 9 else 0)
  }

  /** Product modulo a^5 + a^3 + 1. */
  function Mul(a: bv5, b: bv5): bv5 {
    (if b & 1 != 0 then a else 0) ^ (if b & 2 != 0 then Double(a) else 0) ^
    (if b & 4 != 0 then Double(Double(a)) else 0) ^ (if b & 8 != 0 then Double(Double(Double(a))) else 0) ^
    (if b & 16 != 0 then Double(Double(Double(Double(a)))) else 0)
  }

  /** The coefficient of x^i. */
  function Coeff(c: bv32, i: nat): bv5
    requires i < 6
  {
    if i == 0 then (c & 31) as bv5 else if i == 1 then ((c >> 5) & 31) as bv5
    else if i == 2 then ((c >> 10) & 31) as bv5 else if i == 3 then ((c >> 15) & 31) as bv5
    else if i == 4 then ((c >> 20) & 31) as bv5 else ((c >> 25) & 31) as bv5
  }

  /** x^6 mod g(x), lowest coefficient first. */
  const K: seq<bv5> := [18, 29, 21, 20, 22, 29]

  lemma MixIsProduct(c0: bv5, i: nat)
    requires i < 6
    ensures Coeff(Mix(c0), i) == Mul(K[i], c0)
  {
    if i == 0 { } else if i == 1 { } else if i == 2 { } else if i == 3 { } else if i == 4 { } else { }
  }

  /** A step is c(x) * x + v modulo g(x), coefficient by coefficient. */
  lemma StepIsRemainder(c: bv32, v: Symbol, i: nat)
    requires i < 6 && Fits(c)
    ensures Coeff(Step(c, v), i) == (if i == 0 then v else Coeff(c, i - 1)) ^ Mul(K[i], Coeff(c, 5))
  {
    MixIsProduct(Top(c), i);
    StepCoeff(c, v, i);
  }

  lemma StepCoeff(c: bv32, v: Symbol, i: nat)
    requires i < 6 && Fits(c)
    ensures Coeff(Step(c, v), i) == (if i == 0 then v else Coeff(c, i - 1)) ^ Coeff(Mix(Top(c)), i) && Top(c) == Coeff(c, 5)
  {
    hide Mix;
    CoeffShift(c, v, Mix(Top(c)), i);
  }

  lemma CoeffShift(c: bv32, v: Symbol, m: bv32, i: nat)
    requires i < 6
    ensures Coeff(Add(Shifted(c, v), m), i) == (if i == 0 then v else Coeff(c, i - 1)) ^ Coeff(m, i)
  {
    if i == 0 { } else if i == 1 { } else if i == 2 { } else if i == 3 { } else if i == 4 { } else { }
  }

  // ----- the checksum of a list -------------------------------------------------------------------

  function Run(c: bv32, v: seq<Symbol>): bv32 {
    if v == [] then c else Step(Run(c, v[..|v| - 1]), v[|v| - 1])
  }

  function Remainder(v: seq<Symbol>): bv32 {
    Run(1, v)
  }

  function Zeros(n: nat): seq<Symbol> {
    seq(n, _ => 0)
  }

  function Diff(v: seq<Symbol>, w: seq<Symbol>): (r: seq<Symbol>)
    requires |v| == |w|
    ensures |r| == |v|
  {
    seq(|v|, i requires 0 <= i < |v| => Plus(v[i], w[i]))
  }

  lemma {:induction false} RunFits(c: bv32, v: seq<Symbol>)
    requires Fits(c)
    ensures Fits(Run(c, v))
  {
    if v != [] { StepFits(Run(c, v[..|v| - 1]), v[|v| - 1]); }
  }

  lemma {:induction false} RunAppend(c: bv32, v: seq<Symbol>, w: seq<Symbol>)
    ensures Run(c, v + w) == Run(Run(c, v), w)
    decreases |w|
  {
    if w == [] {
      assert v + w == v;
    } else {
      assert (v + w)[..|v + w| - 1] == v + w[..|w| - 1];
      RunAppend(c, v, w[..|w| - 1]);
    }
  }

  lemma {:induction false} RunLinear(c: bv32, d: bv32, v: seq<Symbol>, w: seq<Symbol>)
    requires |v| == |w|
    ensures Run(Add(c, d), Diff(v, w)) == Add(Run(c, v), Run(d, w))
    decreases |v|
  {
    hide Step, Add, Plus;
    if v != [] {
      var n := |v| - 1;
      assert Diff(v, w)[..n] == Diff(v[..n], w[..n]);
      RunLinear(c, d, v[..n], w[..n]);
      StepLinear(Run(c, v[..n]), Run(d, w[..n]), v[n], w[n]);
    }
  }

  /** A difference once there is never lost. */
  lemma {:induction false} RunInjective(d: bv32, n: nat)
    requires Fits(d) && Run(d, Zeros(n)) == 0
    ensures d == 0
    decreases n
  {
    hide Step;
    if n > 0 {
      assert Zeros(n)[..n - 1] == Zeros(n - 1);
      RunFits(d, Zeros(n - 1));
      StepInjective(Run(d, Zeros(n - 1)));
      RunInjective(d, n - 1);
    }
  }

  /** The mask of the lowest n five-bit groups. */
  function LowMask(n: nat): bv32
    requires n <= 6
  {
    if n == 0 then 0 else if n == 1 then 0x1F else if n == 2 then 0x3FF else if n == 3 then 0x7FFF
    else if n == 4 then 0xFFFFF else if n == 5 then 0x1FFFFFF else 0x3FFFFFFF
  }

  predicate Within(c: bv32, mask: bv32) {
    c & mask == c
  }

  lemma TopZero(c: bv32)
    requires Within(c, 0x1FFFFFF)
    ensures Mix(Top(c)) == 0
  {
    assert Top(c) == 0;
  }

  lemma SmallShift(c: bv32, mask: bv32, v: Symbol)
    requires Within(c, mask) && Within(mask, 0x1FFFFFF)
    ensures Within(c, 0x1FFFFFF) && Within(Shifted(c, v), (mask << 5) | 31)
    ensures Shifted(c, v) == 0 <==> c == 0 && v == 0
  {
  }

  lemma NextMask(n: nat)
    requires n < 6
    ensures (LowMask(n) << 5) | 31 == LowMask(n + 1) && Within(LowMask(n), 0x1FFFFFF)
  {
  }

  lemma SmallStep(c: bv32, n: nat, v: Symbol)
    requires n < 6 && Within(c, LowMask(n))
    ensures Within(Step(c, v), LowMask(n + 1))
    ensures Step(c, v) == 0 <==> c == 0 && v == 0
  {
    hide Mix, Top, Add, Shifted, LowMask, Within;
    NextMask(n);
    SmallShift(c, LowMask(n), v);
    TopZero(c);
    AddLaws(Shifted(c, v), 0);
  }

  /** From nothing, up to six symbols are simply packed: nothing wraps. */
  lemma {:induction false} SixFromZero(v: seq<Symbol>)
    requires |v| <= 6
    ensures Within(Run(0, v), LowMask(|v|))
    ensures Run(0, v) == 0 <==> v == Zeros(|v|)
  {
    hide Step, Within, LowMask;
    if v == [] {
      NoneWithin();
    } else {
      var n := |v| - 1;
      SixFromZero(v[..n]);
      SmallStep(Run(0, v[..n]), n, v[n]);
      assert v == v[..n] + [v[n]];
      assert Zeros(n + 1) == Zeros(n) + [0];
    }
  }

  lemma NoneWithin()
    ensures Within(0, LowMask(0)) && Fits(0) && Fits(1)
  {
  }

  lemma ZeroDiff(v: seq<Symbol>, w: seq<Symbol>)
    requires |v| == |w|
    ensures Diff(v, w) == Zeros(|v|) <==> v == w
  {
    hide Plus;
    forall i | 0 <= i < |v| ensures Diff(v, w)[i] == Zeros(|v|)[i] <==> v[i] == w[i] { PlusLaws(v[i], w[i]); }
  }

  /** Any change confined to six consecutive symbols changes the remainder, at any length. */
  lemma BurstDetected(prefix: seq<Symbol>, a: seq<Symbol>, b: seq<Symbol>, suffix: seq<Symbol>)
    requires |a| == |b| <= 6 && a != b
    ensures Remainder(prefix + a + suffix) != Remainder(prefix + b + suffix)
  {
    hide Step, Run, Within, LowMask, Fits, Add, Plus, Zeros;
    var c := Run(1, prefix);
    RunAppend(1, prefix, a);
    RunAppend(1, prefix + a, suffix);
    RunAppend(1, prefix, b);
    RunAppend(1, prefix + b, suffix);
    WindowDiffers(c, a, b);
    SameSuffix(Run(c, a), Run(c, b), suffix);
  }

  lemma WindowDiffers(c: bv32, a: seq<Symbol>, b: seq<Symbol>)
    requires |a| == |b| <= 6 && a != b
    ensures Fits(Add(Run(c, a), Run(c, b))) && Run(c, a) != Run(c, b)
  {
    hide Step, Run, Within, LowMask, Fits, Add, Plus, Zeros, Diff;
    RunLinear(c, c, a, b);
    AddLaws(c, c);
    SixFromZero(Diff(a, b));
    ZeroDiff(a, b);
    NoneWithin();
    RunFits(0, Diff(a, b));
    AddLaws(Run(c, a), Run(c, b));
  }

  lemma SameSuffix(c: bv32, d: bv32, suffix: seq<Symbol>)
    requires Fits(Add(c, d)) && c != d
    ensures Run(c, suffix) != Run(d, suffix)
  {
    hide Step, Run, Fits, Add, Plus, Zeros, Diff;
    RunLinear(c, d, suffix, suffix);
    ZeroDiff(suffix, suffix);
    AddLaws(c, d);
    AddLaws(Run(c, suffix), Run(d, suffix));
    if Run(Add(c, d), Zeros(|suffix|)) == 0 { RunInjective(Add(c, d), |suffix|); }
  }

  // ----- checksum symbols ----------------------------------------------------------------------------

  lemma {:induction false} PackedCoeff(v: seq<Symbol>, i: nat)
    requires |v| <= 6 && i < 6
    ensures Coeff(Run(0, v), i) == if i < |v| then v[|v| - 1 - i] else 0
  {
    hide Step, Coeff, Mix, Top, Within, LowMask;
    CoeffZero(i);
    if v != [] {
      var n := |v| - 1;
      SixFromZero(v[..n]);
      FitsWithin(Run(0, v[..n]), n);
      StepCoeff(Run(0, v[..n]), v[n], i);
      TopZero(Run(0, v[..n]));
      if i > 0 {
        PackedCoeff(v[..n], i - 1);
        PlusLaws(Coeff(Run(0, v[..n]), i - 1), 0);
      } else {
        PlusLaws(v[n], 0);
      }
    }
  }

  lemma CoeffZero(i: nat)
    requires i < 6
    ensures Coeff(0, i) == 0
  {
  }

  lemma FitsWithin(c: bv32, n: nat)
    requires n < 6 && Within(c, LowMask(n))
    ensures Fits(c) && Within(c, 0x1FFFFFF)
  {
  }

  lemma SameCoeffs(a: bv32, b: bv32)
    requires Fits(a) && Fits(b) && forall i :: 0 <= i < 6 ==> Coeff(a, i) == Coeff(b, i)
    ensures a == b
  {
    assert Coeff(a, 0) == Coeff(b, 0) && Coeff(a, 1) == Coeff(b, 1) && Coeff(a, 2) == Coeff(b, 2);
    assert Coeff(a, 3) == Coeff(b, 3) && Coeff(a, 4) == Coeff(b, 4) && Coeff(a, 5) == Coeff(b, 5);
  }

  function Groups(c: bv32): (r: seq<Symbol>)
    ensures |r| == 6 && forall i :: 0 <= i < 6 ==> r[i] == Coeff(c, 5 - i)
  {
    [Coeff(c, 5), Coeff(c, 4), Coeff(c, 3), Coeff(c, 2), Coeff(c, 1), Coeff(c, 0)]
  }

  /** Six symbols and a 30-bit word are the same thing. */
  lemma PackIff(v: seq<Symbol>, c: bv32)
    requires |v| == 6 && Fits(c)
    ensures Run(0, v) == c <==> v == Groups(c)
  {
    hide Run, Coeff, Fits;
    NoneWithin();
    RunFits(0, v);
    forall i: nat | i < 6 ensures Coeff(Run(0, v), i) == v[5 - i] { PackedCoeff(v, i); }
    assert forall i :: 0 <= i < 6 ==> v[i] == Coeff(Run(0, v), 5 - i);
    if v == Groups(c) { SameCoeffs(Run(0, v), c); }
  }

  ghost function Checksum(e: seq<Symbol>): (r: seq<Symbol>)
    ensures |r| == 6
  {
    Groups(Add(Remainder(e + Zeros(6)), 1))
  }

  /** Exactly one choice of the six symbols passes. */
  lemma ChecksumIff(e: seq<Symbol>, v: seq<Symbol>)
    requires |v| == 6
    ensures Remainder(e + v) == 1 <==> v == Checksum(e)
  {
    hide Step, Run, Fits, Add, Plus, Groups, Diff;
    var c := Run(1, e);
    RunAppend(1, e, v);
    RunAppend(1, e, Zeros(6));
    RunLinear(c, 0, Zeros(6), v);
    AddLaws(c, 0);
    DiffZeros(v);
    var z := Run(c, Zeros(6));
    NoneWithin();
    RunFits(1, e + Zeros(6));
    AddFits(z, 1);
    PackIff(v, Add(z, 1));
    Solve(z, Run(0, v));
  }

  lemma DiffZeros(v: seq<Symbol>)
    ensures Diff(Zeros(|v|), v) == v
  {
    hide Plus;
    forall i | 0 <= i < |v| ensures Diff(Zeros(|v|), v)[i] == v[i] { PlusZero(v[i]); }
  }

  lemma PlusZero(a: Symbol)
    ensures Plus(0, a) == a
  {
  }

  lemma AddFits(a: bv32, b: bv32)
    requires Fits(a) && Fits(b)
    ensures Fits(Add(a, b))
  {
  }

  lemma Solve(z: bv32, p: bv32)
    ensures Add(z, p) == 1 <==> p == Add(z, 1)
  {
    hide Add;
    Associates(z, z, p);
    Associates(z, z, 1);
    AddLaws(z, z);
    AddLaws(p, 0);
    AddLaws(1, 0);
    Associates(z, 0, p);
    Associates(z, 0, 1);
  }

  // ----- characters --------------------------------------------------------------------------------

  const CHARSET: string := "qpzry9x8gf2tvdw0s3jn54khce6mua7l"

  function CharOf(v: Symbol): char {
    CHARSET[v as nat]
  }

  function Lower(c: char): char {
    if 'A' <= c <= 'Z' then ((c as int) + 32) as char else c
  }

  function RevLower(c: char): int {
    if c == 'q' then 0 else if c == 'p' then 1 else if c == 'z' then 2 else if c == 'r' then 3 else
    if c == 'y' then 4 else if c == '9' then 5 else if c == 'x' then 6 else if c == '8' then 7 else
    if c == 'g' then 8 else if c == 'f' then 9 else if c == '2' then 10 else if c == 't' then 11 else
    if c == 'v' then 12 else if c == 'd' then 13 else if c == 'w' then 14 else if c == '0' then 15 else
    if c == 's' then 16 else if c == '3' then 17 else if c == 'j' then 18 else if c == 'n' then 19 else
    if c == '5' then 20 else if c == '4' then 21 else if c == 'k' then 22 else if c == 'h' then 23 else
    if c == 'c' then 24 else if c == 'e' then 25 else if c == '6' then 26 else if c == 'm' then 27 else
    if c == 'u' then 28 else if c == 'a' then 29 else if c == '7' then 30 else if c == 'l' then 31 else -1
  }

  /** The reverse table, which reads both cases of a letter alike. */
  function CharsetRev(c: char): int {
    RevLower(Lower(c))
  }

  lemma RevOfChar(i: nat)
    requires i < 32
    ensures RevLower(CHARSET[i]) == i
  {
  }

  lemma CharOfRev(c: char)
    ensures RevLower(c) != -1 ==> 0 <= RevLower(c) < 32 && CHARSET[RevLower(c)] == c
  {
  }

  lemma CharPlain(i: nat)
    requires i < 32
    ensures CHARSET[i] != '1' && Lower(CHARSET[i]) == CHARSET[i] && 33 <= CHARSET[i] as int <= 126
  {
  }

  /** What one data character stands for. */
  lemma SymbolIff(c: char, v: Symbol)
    ensures CharOf(v) == Lower(c) <==> CharsetRev(c) == v as int
    ensures CharsetRev(c) == v as int ==> CharsetRev(c) as bv5 == v
  {
    hide RevLower;
    RevOfChar(v as nat);
    CharOfRev(Lower(c));
  }

  // ----- the text form ---------------------------------------------------------------------------------

  function Text(v: seq<Symbol>): (r: string)
    ensures |r| == |v|
  {
    seq(|v|, i requires 0 <= i < |v| => CharOf(v[i]))
  }

  function LowerAll(s: string): (r: string)
    ensures |r| == |s|
  {
    seq(|s|, i requires 0 <= i < |s| => Lower(s[i]))
  }

  function High(c: char): Symbol { (c as int / 32 % 8) as bv5 }
  function Low(c: char): Symbol { (c as int % 32) as bv5 }

  function Expanded(hrp: string): seq<Symbol> {
    seq(|hrp|, i requires 0 <= i < |hrp| => High(hrp[i])) + [0] + seq(|hrp|, i requires 0 <= i < |hrp| => Low(hrp[i]))
  }

  /** The two halves of the expansion give every character back, so different prefixes have different ones. */
  lemma ExpandedBack(hrp: string, i: nat)
    requires i < |hrp| && hrp[i] as int < 256
    ensures |Expanded(hrp)| == 2 * |hrp| + 1 && Expanded(hrp)[|hrp|] == 0
    ensures 32 * (Expanded(hrp)[i] as int) + (Expanded(hrp)[|hrp| + 1 + i] as int) == hrp[i] as int
  {
    var c := hrp[i] as int;
    var e := Expanded(hrp);
    assert e[i] == High(hrp[i]) && e[|hrp| + 1 + i] == Low(hrp[i]);
    assert c / 32 % 8 == c / 32;
    SymbolBack(c / 32);
    SymbolBack(c % 32);
  }

  lemma SymbolBack(n: int)
    requires 0 <= n < 32
    ensures (n as bv5) as int == n
  {
  }

  ghost function Encoded(hrp: string, values: seq<Symbol>): (r: string)
    ensures |r| == |hrp| + 1 + |values| + 6
  {
    hrp + "1" + Text(values + Checksum(Expanded(hrp) + values))
  }

  // ----- a known string -----------------------------------------------------------------------------------

  lemma KnownSteps()
    ensures Step(1, 3) == 0x23 && Step(0x23, 0) == 0x460 && Step(0x460, 1) == 0x8c01
    ensures Step(0x8c01, 10) == 0x11802a && Step(0x11802a, 28) == 0x230055c && Step(0x230055c, 25) == 0x3d6afc2b
    ensures Step(0x3d6afc2b, 31) == 0x2f84386 && Step(0x2f84386, 20) == 0x24622766 && Step(0x24622766, 31) == 1
  {
  }

  lemma RunAt(v: seq<Symbol>, i: nat)
    requires i < |v|
    ensures Run(1, v[..i + 1]) == Step(Run(1, v[..i]), v[i])
  {
    assert v[..i + 1][..i] == v[..i];
  }

  lemma KnownChecksum()
    ensures Checksum([3, 0, 1]) == [10, 28, 25, 31, 20, 31]
  {
    hide Step, Checksum, Run;
    KnownSteps();
    RunNothing(1);
    var e: seq<Symbol>, v: seq<Symbol> := [3, 0, 1], [10, 28, 25, 31, 20, 31];
    var all := e + v;
    assert all[..0] == [] && all[..9] == all;
    RunAt(all, 0);
    RunAt(all, 1);
    RunAt(all, 2);
    RunAt(all, 3);
    RunAt(all, 4);
    RunAt(all, 5);
    RunAt(all, 6);
    RunAt(all, 7);
    RunAt(all, 8);
    ChecksumIff(e, v);
  }

  lemma RunNothing(c: bv32)
    ensures Run(c, []) == c
  {
  }

  lemma KnownCharacters()
    ensures High('a') == 3 && Low('a') == 1
    ensures CharOf(10) == '2' && CharOf(28) == 'u' && CharOf(25) == 'e' && CharOf(31) == 'l' && CharOf(20) == '5'
  {
    assert 'a' as int == 97;
  }

  /** The shortest valid string of the BIP 173 test vectors. */
  lemma KnownString()
    ensures Encoded("a", []) == "a12uel5l"
  {
    hide Checksum, High, Low, CharOf;
    KnownChecksum();
    KnownCharacters();
    var none: seq<Symbol>, v: seq<Symbol>, e: seq<Symbol> := [], [10, 28, 25, 31, 20, 31], [3, 0, 1];
    assert Expanded("a") + none == e && none + v == v;
    assert Text(v) == "2uel5l";
  }

  predicate IsLower(c: char) { 'a' <= c <= 'z' }
  predicate IsUpper(c: char) { 'A' <= c <= 'Z' }

  /** Printable, in one case, and not too long. */
  ghost predicate Acceptable(s: string) {
    && |s| <= 90
    && (forall i :: 0 <= i < |s| ==> 33 <= s[i] as int <= 126)
    && ((forall i :: 0 <= i < |s| ==> !IsLower(s[i])) || (forall i :: 0 <= i < |s| ==> !IsUpper(s[i])))
  }

  datatype Decoded = Invalid | Valid(hrp: string, values: seq<Symbol>)

  /** What a string means, without reference to how it is read. */
  ghost predicate Means(s: string, hrp: string, values: seq<Symbol>) {
    Acceptable(s) && hrp != [] && LowerAll(s) == Encoded(hrp, values)
  }

  // ----- the procedures -----------------------------------------------------------------------------------

  method PolyMod(v: seq<Symbol>) returns (c: bv32)
    ensures c == Remainder(v)
  {
    hide Step;
    c := 1;
    for i := 0 to |v|
      invariant c == Run(1, v[..i])
    {
      assert v[..i + 1][..i] == v[..i];
      c := Step(c, v[i]);
    }
    assert v[..|v|] == v;
  }

  method ExpandHRP(hrp: string) returns (r: seq<Symbol>)
    ensures r == Expanded(hrp)
  {
    var a := new bv5[2 * |hrp| + 1](_ => 0);
    for i := 0 to |hrp|
      invariant a[|hrp|] == 0
      invariant forall j :: 0 <= j < i ==> a[j] == High(hrp[j]) && a[j + |hrp| + 1] == Low(hrp[j])
    {
      a[i] := High(hrp[i]);
      a[i + |hrp| + 1] := Low(hrp[i]);
    }
    a[|hrp|] := 0;
    r := a[..];
  }

  method VerifyChecksum(hrp: string, values: seq<Symbol>) returns (ok: bool)
    ensures ok <==> Remainder(Expanded(hrp) + values) == 1
  {
    var e := ExpandHRP(hrp);
    var c := PolyMod(e + values);
    ok := c == 1;
  }

  method CreateChecksum(hrp: string, values: seq<Symbol>) returns (r: seq<Symbol>)
    ensures r == Checksum(Expanded(hrp) + values)
  {
    hide Run, Coeff;
    var e := ExpandHRP(hrp);
    var c := PolyMod(e + values + Zeros(6));
    var mod := Add(c, 1);
    r := [];
    for i := 0 to 6
      invariant |r| == i && forall j :: 0 <= j < i ==> r[j] == Coeff(mod, 5 - j)
    {
      r := r + [Coeff(mod, 5 - i)];
    }
    assert r == Groups(mod);
  }

  method Encode(hrp: string, values: seq<Symbol>) returns (s: string)
    ensures s == Encoded(hrp, values)
  {
    var checksum := CreateChecksum(hrp, values);
    var combined := values + checksum;
    s := hrp + "1";
    for i := 0 to |combined|
      invariant s == hrp + "1" + Text(combined)[..i]
    {
      s := s + [CharOf(combined[i])];
    }
  }

  /** The parts found by reading: the last '1' and the symbols after it. */
  ghost predicate Split(s: string, n: nat, data: seq<Symbol>) {
    && 0 < n && n + 1 + |data| == |s| && |data| >= 6 && s[n] == '1' && (forall i :: n < i < |s| ==> s[i] != '1')
    && (forall i :: 0 <= i < |data| ==> CharsetRev(s[n + 1 + i]) == data[i] as int)
  }

  ghost function Sealed(hrp: string, values: seq<Symbol>): (r: seq<Symbol>)
    ensures |r| == |values| + 6
  {
    values + Checksum(Expanded(hrp) + values)
  }

  lemma LowerOne(c: char)
    ensures Lower(c) == '1' <==> c == '1'
  {
  }

  lemma MeansIff(s: string, hrp: string, values: seq<Symbol>)
    ensures Means(s, hrp, values) <==>
      Acceptable(s) && |hrp| < |s| && hrp == LowerAll(s[..|hrp|]) && Split(s, |hrp|, Sealed(hrp, values))
  {
    hide CharOf, Lower, CharsetRev, Checksum, Acceptable, Expanded;
    var n, data := |hrp|, Sealed(hrp, values);
    var e := Encoded(hrp, values);
    if |s| == |e| {
      forall i | 0 <= i < |s| ensures LowerAll(s)[i] == Lower(s[i]) && (Lower(s[i]) == '1' <==> s[i] == '1') { LowerOne(s[i]); }
      forall i | 0 <= i < |data|
        ensures CharOf(data[i]) != '1' && e[n + 1 + i] == CharOf(data[i])
        ensures CharOf(data[i]) == Lower(s[n + 1 + i]) <==> CharsetRev(s[n + 1 + i]) == data[i] as int
      {
        SymbolIff(s[n + 1 + i], data[i]);
        CharNotOne(data[i]);
      }
      SplitText(s, hrp, data);
    }
  }

  lemma CharNotOne(v: Symbol)
    ensures CharOf(v) != '1' && Lower(CharOf(v)) == CharOf(v) && 33 <= CharOf(v) as int <= 126
  {
    CharPlain(v as nat);
  }

  /** Equality with the encoded text, part by part. */
  lemma SplitText(s: string, hrp: string, data: seq<Symbol>)
    requires |s| == |hrp| + 1 + |data|
    ensures LowerAll(s) == hrp + "1" + Text(data) <==>
      && LowerAll(s[..|hrp|]) == hrp && Lower(s[|hrp|]) == '1'
      && forall i :: 0 <= i < |data| ==> Lower(s[|hrp| + 1 + i]) == CharOf(data[i])
  {
    hide CharOf, Lower;
    var n := |hrp|;
    var e := hrp + "1" + Text(data);
    assert LowerAll(s)[..n] == LowerAll(s[..n]) && e[..n] == hrp && e[n] == '1';
    forall i | 0 <= i < |data| ensures e[n + 1 + i] == CharOf(data[i]) && LowerAll(s)[n + 1 + i] == Lower(s[n + 1 + i]) { }
    if LowerAll(s[..n]) == hrp && Lower(s[n]) == '1' && forall i :: 0 <= i < |data| ==> Lower(s[n + 1 + i]) == CharOf(data[i]) {
      forall i | 0 <= i < |s| ensures LowerAll(s)[i] == e[i] {
        if i > n { assert LowerAll(s)[n + 1 + (i - n - 1)] == e[n + 1 + (i - n - 1)]; }
      }
    }
  }

  /** There is only one way to split a string. */
  lemma SplitUnique(s: string, n: nat, data: seq<Symbol>, m: nat, other: seq<Symbol>)
    requires Split(s, n, data) && Split(s, m, other)
    ensures n == m && data == other
  {
    hide CharsetRev;
    assert n == m;
    forall i | 0 <= i < |data| ensures data[i] == other[i] {
      assert CharsetRev(s[n + 1 + i]) == data[i] as int;
      assert CharsetRev(s[m + 1 + i]) == other[i] as int;
      SameIndex(data[i], other[i]);
    }
  }

  lemma SameIndex(a: Symbol, b: Symbol)
    requires a as int == b as int
    ensures a == b
  {
    assert (a as int) as bv5 == a && (b as int) as bv5 == b;
  }

  method CheckCharacters(s: string) returns (ok: bool)
    ensures ok && |s| <= 90 <==> Acceptable(s)
  {
    var lower, upper := false, false;
    for i := 0 to |s|
      invariant forall j :: 0 <= j < i ==> 33 <= s[j] as int <= 126
      invariant lower <==> exists j :: 0 <= j < i && IsLower(s[j])
      invariant upper <==> exists j :: 0 <= j < i && IsUpper(s[j])
    {
      var c := s[i];
      if IsLower(c) { lower := true; }
      else if IsUpper(c) { upper := true; }
      else if c as int < 33 || c as int > 126 { return false; }
    }
    return !(lower && upper);
  }

  /** Index of the last '1', or -1. */
  method FindSeparator(s: string) returns (pos: int)
    ensures -1 <= pos < |s| && (pos >= 0 ==> s[pos] == '1') && forall i :: pos < i < |s| ==> s[i] != '1'
  {
    pos := |s| - 1;
    while pos >= 0 && s[pos] != '1'
      invariant -1 <= pos < |s| && forall i :: pos < i < |s| ==> s[i] != '1'
    {
      pos := pos - 1;
    }
  }

  method ReadSymbols(s: string) returns (ok: bool, values: seq<Symbol>)
    ensures ok ==> |values| == |s| && forall i :: 0 <= i < |s| ==> CharsetRev(s[i]) == values[i] as int
    ensures !ok ==> exists i :: 0 <= i < |s| && CharsetRev(s[i]) == -1
  {
    hide CharsetRev;
    values := [];
    for i := 0 to |s|
      invariant |values| == i && forall j :: 0 <= j < i ==> CharsetRev(s[j]) == values[j] as int
    {
      var rev := CharsetRev(s[i]);
      if rev == -1 { return false, values; }
      RevRange(s[i]);
      values := values + [rev as bv5];
    }
    return true, values;
  }

  lemma RevRange(c: char)
    ensures CharsetRev(c) != -1 ==> 0 <= CharsetRev(c) < 32 && (CharsetRev(c) as bv5) as int == CharsetRev(c)
  {
    hide RevLower;
    CharOfRev(Lower(c));
    if CharsetRev(c) != -1 { IndexBack(CharsetRev(c)); }
  }

  lemma IndexBack(i: nat)
    requires i < 32
    ensures (i as bv5) as int == i
  {
  }

  method LowerCase(s: string) returns (r: string)
    ensures r == LowerAll(s)
  {
    r := [];
    for i := 0 to |s|
      invariant r == LowerAll(s)[..i]
    {
      r := r + [Lower(s[i])];
    }
  }

  /** The checksum test, seen from the data before it. */
  lemma SealedIff(hrp: string, data: seq<Symbol>)
    requires |data| >= 6
    ensures Remainder(Expanded(hrp) + data) == 1 <==> data == Sealed(hrp, data[..|data| - 6])
  {
    hide Run, Checksum, Expanded;
    var n := |data| - 6;
    var v := data[..n];
    assert Expanded(hrp) + data == (Expanded(hrp) + v) + data[n..];
    ChecksumIff(Expanded(hrp) + v, data[n..]);
    assert data == v + data[n..];
  }

  lemma SealedPrefix(hrp: string, values: seq<Symbol>)
    ensures Sealed(hrp, values)[..|values|] == values
  {
  }

  /** Reads exactly the strings that mean something, and reads them as what they mean. */
  method Decode(s: string) returns (r: Decoded)
    ensures r.Valid? ==> Means(s, r.hrp, r.values)
    ensures forall hrp, values :: Means(s, hrp, values) ==> r == Valid(hrp, values)
  {
    hide Means, Acceptable, Sealed, LowerAll, Run, Expanded, CharsetRev;
    forall hrp, values | Means(s, hrp, values)
      ensures Acceptable(s) && |hrp| < |s| && hrp == LowerAll(s[..|hrp|]) && Split(s, |hrp|, Sealed(hrp, values))
      ensures Sealed(hrp, values)[..|values|] == values
    {
      MeansIff(s, hrp, values);
      SealedPrefix(hrp, values);
    }
    var ok := CheckCharacters(s);
    if !ok { return Invalid; }
    var pos := FindSeparator(s);
    if |s| > 90 || pos < 0 || pos == 0 || pos + 7 > |s| { return Invalid; }
    var data;
    ok, data := ReadSymbols(s[pos + 1..]);
    if !ok { NotSplit(s, pos, s[pos + 1..]); return Invalid; }
    assert Split(s, pos, data);
    var hrp := LowerCase(s[..pos]);
    ok := VerifyChecksum(hrp, data);
    SealedIff(hrp, data);
    forall h, v | Means(s, h, v) ensures h == hrp && Sealed(h, v) == data && v == data[..|data| - 6] {
      SplitUnique(s, |h|, Sealed(h, v), pos, data);
    }
    if !ok { return Invalid; }
    r := Valid(hrp, data[..|data| - 6]);
    MeansIff(s, r.hrp, r.values);
  }

  lemma NotSplit(s: string, pos: nat, tail: string)
    requires pos < |s| && s[pos] == '1' && (forall i :: pos < i < |s| ==> s[i] != '1')
    requires tail == s[pos + 1..] && exists i :: 0 <= i < |tail| && CharsetRev(tail[i]) == -1
    ensures forall n: nat, data :: !Split(s, n, data)
  {
    hide CharsetRev;
    var k :| 0 <= k < |tail| && CharsetRev(tail[k]) == -1;
    forall n: nat, data ensures !Split(s, n, data) {
      SplitReads(s, pos, tail, n, data, k);
    }
  }

  lemma SplitReads(s: string, pos: nat, tail: string, n: nat, data: seq<Symbol>, k: nat)
    requires pos < |s| && s[pos] == '1' && (forall i :: pos < i < |s| ==> s[i] != '1') && tail == s[pos + 1..] && k < |tail|
    ensures Split(s, n, data) ==> CharsetRev(tail[k]) != -1
  {
    hide CharsetRev;
    if Split(s, n, data) {
      assert n == pos;
      assert CharsetRev(s[n + 1 + k]) == data[k] as int;
    }
  }

  // ----- round trips ---------------------------------------------------------------------------------------

  /** A human-readable part that survives: not empty, printable, no capitals. */
  ghost predicate PlainHrp(hrp: string) {
    hrp != [] && forall i :: 0 <= i < |hrp| ==> 33 <= hrp[i] as int <= 126 && !IsUpper(hrp[i])
  }

  lemma EncodedMeans(hrp: string, values: seq<Symbol>)
    ensures Means(Encoded(hrp, values), hrp, values) <==> PlainHrp(hrp) && |hrp| + |values| + 7 <= 90
  {
    hide CharOf, Checksum, Expanded;
    var s := Encoded(hrp, values);
    var n, data := |hrp|, values + Checksum(Expanded(hrp) + values);
    forall i | n < i < |s| ensures 33 <= s[i] as int <= 126 && Lower(s[i]) == s[i] && !IsUpper(s[i]) {
      assert s[i] == CharOf(data[i - n - 1]);
      CharNotOne(data[i - n - 1]);
    }
    assert s[n] == '1';
    forall i | 0 <= i < n ensures s[i] == hrp[i] && (Lower(s[i]) == s[i] <==> !IsUpper(hrp[i])) { }
    assert forall i :: 0 <= i < |s| ==> LowerAll(s)[i] == Lower(s[i]);
    if Means(s, hrp, values) {
      forall i | 0 <= i < n ensures 33 <= hrp[i] as int <= 126 && !IsUpper(hrp[i]) { assert LowerAll(s)[i] == s[i]; }
    } else if PlainHrp(hrp) {
      assert LowerAll(s) == s;
    }
  }

  /** Decoding what was encoded gives it back exactly for the plain, short ones. */
  method EncodeDecode(hrp: string, values: seq<Symbol>) returns (r: Decoded)
    ensures r == Valid(hrp, values) <==> PlainHrp(hrp) && |hrp| + |values| + 7 <= 90
  {
    hide Means;
    var s := Encode(hrp, values);
    r := Decode(s);
    EncodedMeans(hrp, values);
  }

  /** Encoding what was decoded gives the string back in lower case. */
  method DecodeEncode(s: string) returns (t: string, ok: bool)
    ensures ok <==> exists hrp, values :: Means(s, hrp, values)
    ensures ok ==> t == LowerAll(s)
  {
    var r := Decode(s);
    ok, t := r.Valid?, "";
    if ok { t := Encode(r.hrp, r.values); }
  }

  /** A change of up to six neighbouring symbols of a valid list is always noticed. */
  lemma ChangeNoticed(hrp: string, before: seq<Symbol>, a: seq<Symbol>, b: seq<Symbol>, after: seq<Symbol>)
    requires |a| == |b| <= 6 && a != b && Remainder(Expanded(hrp) + (before + a + after)) == 1
    ensures Remainder(Expanded(hrp) + (before + b + after)) != 1
  {
    hide Run, Expanded;
    BurstDetected(Expanded(hrp) + before, a, b, after);
    assert Expanded(hrp) + before + a + after == Expanded(hrp) + (before + a + after);
    assert Expanded(hrp) + before + b + after == Expanded(hrp) + (before + b + after);
  }
}
