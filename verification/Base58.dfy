/**
 * Base 58 text: big-endian digits with one leading '1' for every leading zero
 * byte.  Both conversions run in place over a buffer whose size is a fixed
 * proportion of the input.
 */
module Base58 {
  import opened Powers

  // ----- buffer sizes ------------------------------------------------------------------------

  lemma EncodeBufferSuffices(n: nat)
    ensures Pow(256, n) <= Pow(58, n * 138 / 100 + 1)
  {
    hide Pow;
    SmallPowers();
    var m := n * 138 / 100 + 1;
    assert 11 * n <= m * 8;
    Proportion(256, 58, 8, 11, n, m, 11 * n, m * 8);
  }

  lemma DecodeBufferSuffices(n: nat)
    ensures Pow(58, n) <= Pow(256, n * 733 / 1000 + 1)
  {
    hide Pow;
    BigPowers();
    var m := n * 733 / 1000 + 1;
    assert 52 * n <= m * 71;
    Proportion(58, 256, 71, 52, n, m, 52 * n, m * 71);
  }

  lemma SmallPowers()
    ensures Pow(256, 8) <= Pow(58, 11)
  {
  }

  lemma BigPowers()
    ensures Pow(58, 71) <= Pow(256, 52)
  {
    hide Pow;
    EighthPower();
    PowAdd(58, 8, 8);
    PowAdd(58, 16, 16);
    PowAdd(58, 32, 32);
    PowAdd(58, 64, 7);
    PowAdd(256, 13, 13);
    PowAdd(256, 26, 26);
  }

  lemma EighthPower()
    ensures Pow(58, 8) == 128063081718016 && Pow(58, 7) == 2207984167552 && Pow(256, 13) == 20282409603651670423947251286016
  {
  }

  // ----- multiply by one base and add, in the other --------------------------------------------------

  /** The buffer holds digits, and only zeros above the given length. */
  ghost predicate Buffer(base: nat, s: seq<nat>, length: nat) {
    Digits(base, s) && length <= |s| && forall i :: 0 <= i < |s| - length ==> s[i] == 0
  }

  /** The low i digits after i rounds. */
  ghost predicate Round(base: nat, mul: nat, digit: nat, was: seq<nat>, now: seq<nat>, i: nat, carry: nat) {
    && |was| == |now| && i <= |was| && Digits(base, now)
    && now[..|was| - i] == was[..|was| - i]
    && Val(base, now[|was| - i..]) + carry * Pow(base, i) == mul * Val(base, was[|was| - i..]) + digit
  }

  lemma RoundStep(base: nat, mul: nat, digit: nat, was: seq<nat>, now: seq<nat>, i: nat, carry: nat)
    requires base > 0 && i < |was| == |now| && Round(base, mul, digit, was, now, i, carry)
    ensures var k := |was| - 1 - i;
      var c := carry + mul * now[k];
      Round(base, mul, digit, was, now[k := c % base], i + 1, c / base)
  {
    hide Pow, Val;
    var k := |was| - 1 - i;
    var c := carry + mul * now[k];
    var next := now[k := c % base];
    var lowWas, lowNow := was[k + 1..], now[k + 1..];
    assert now[k] == now[..k + 1][k] == was[..k + 1][k] == was[k];
    assert next[k..] == [c % base] + lowNow && was[k..] == [was[k]] + lowWas;
    ValCons(base, c % base, lowNow);
    ValCons(base, was[k], lowWas);
    PowNext(base, i);
    RoundArithmetic(base, mul, digit, was[k], Val(base, lowWas), Val(base, lowNow), Pow(base, i), carry, c);
    assert next[..k] == now[..k] == now[..k + 1][..k] == was[..k];
  }

  lemma PowNext(base: nat, i: nat)
    ensures Pow(base, i + 1) == base * Pow(base, i)
  {
  }

  lemma RoundArithmetic(base: nat, mul: nat, digit: nat, d: nat, was: nat, now: nat, p: nat, carry: nat, c: nat)
    requires base > 0 && now + carry * p == mul * was + digit && c == carry + mul * d
    ensures c % base * p + now + c / base * (base * p) == mul * (d * p + was) + digit
  {
    assert c == base * (c / base) + c % base;
    calc {
      c % base * p + now + c / base * (base * p);
      { Regroup(c / base, base, p); }
      c % base * p + now + c / base * base * p;
      { Distribute(p, c % base, c / base * base); }
      c * p + now;
      { Distribute(p, carry, mul * d); }
      carry * p + mul * d * p + now;
      mul * was + digit + mul * d * p;
      { Regroup(mul, d, p); Distribute(mul, d * p, was); }
      mul * (d * p + was) + digit;
    }
  }

  /** The loop stops early once the carry is used up and only zeros remain. */
  lemma RoundDone(base: nat, mul: nat, digit: nat, was: seq<nat>, now: seq<nat>, i: nat, carry: nat, length: nat)
    requires base > 1 && Buffer(base, was, length) && Round(base, mul, digit, was, now, i, carry)
    requires (carry == 0 && i >= length) || i == |was|
    requires mul * Val(base, was) + digit < Pow(base, |was|)
    ensures carry == 0 && Val(base, now) == mul * Val(base, was) + digit && Buffer(base, now, i)
  {
    hide Pow, Val;
    var k := |was| - i;
    forall j | 0 <= j < k ensures now[j] == 0 && was[j] == 0 {
      assert i >= length;
      assert now[j] == now[..k][j] == was[..k][j];
    }
    ValLeadingZeros(base, was, k);
    ValLeadingZeros(base, now, k);
    if carry > 0 { MulMono(1, carry, Pow(base, i), Pow(base, i)); }
  }

  /** Buffer * mul + digit; the room is enough, so nothing is carried out. */
  method MulAdd(base: nat, mul: nat, digit: nat, a: array<nat>, length: nat) returns (newLength: nat)
    requires base > 1 && Buffer(base, a[..], length)
    requires mul * Val(base, a[..]) + digit < Pow(base, a.Length)
    modifies a
    ensures Buffer(base, a[..], newLength) && Val(base, a[..]) == mul * old(Val(base, a[..])) + digit
  {
    hide Val, Pow, Round, Buffer;
    ghost var was := a[..];
    var carry: nat, i: nat := digit, 0;
    RoundStart(base, mul, digit, was, length);
    while (carry != 0 || i < length) && i < a.Length
      invariant i <= a.Length && Round(base, mul, digit, was, a[..], i, carry)
      decreases a.Length - i
    {
      RoundStep(base, mul, digit, was, a[..], i, carry);
      var k := a.Length - 1 - i;
      ghost var before := a[..];
      carry := carry + mul * a[k];
      var low: nat := carry % base;
      a[k] := low;
      assert a[..] == before[k := low];
      carry := carry / base;
      i := i + 1;
    }
    LengthFits(base, was, length);
    RoundDone(base, mul, digit, was, a[..], i, carry, length);
    assert carry == 0;
    newLength := i;
  }

  lemma RoundStart(base: nat, mul: nat, digit: nat, was: seq<nat>, length: nat)
    requires Buffer(base, was, length)
    ensures Round(base, mul, digit, was, was, 0, digit)
  {
    assert was[|was|..] == [];
    assert mul * 0 == 0;
  }

  lemma LengthFits(base: nat, was: seq<nat>, length: nat)
    requires Buffer(base, was, length)
    ensures length <= |was|
  {
  }

  // ----- conversion between bases as a function --------------------------------------------------------

  function Zeros(n: nat): seq<nat> { seq(n, _ => 0) }

  function Lead(s: seq<nat>): (n: nat)
    ensures n <= |s| && (forall i :: 0 <= i < n ==> s[i] == 0) && (n < |s| ==> s[n] != 0)
  {
    if s == [] || s[0] != 0 then 0 else 1 + Lead(s[1..])
  }

  /** A number without leading zeros. */
  function Written(base: nat, n: nat): seq<nat>
    requires base > 1
  {
    if n == 0 then []
    else
      DivMod(n, base);
      Written(base, n / base) + [n % base]
  }

  lemma DivMod(n: nat, base: nat)
    requires base > 1
    ensures n == base * (n / base) + n % base && 0 <= n % base < base && 0 <= n / base
    ensures n > 0 ==> n / base < n
  {
    if n > 0 && n / base >= n { MulMono(2, base, n, n / base); }
  }

  /** Leading zeros one for one, the rest as a number. */
  function Convert(from: nat, to: nat, s: seq<nat>): seq<nat>
    requires to > 1
  {
    Zeros(Lead(s)) + Written(to, Val(from, s))
  }

  lemma {:induction false} WrittenIs(base: nat, n: nat)
    requires base > 1
    ensures Canonical(base, Written(base, n)) && Val(base, Written(base, n)) == n
  {
    if n > 0 {
      var high, w := Written(base, n / base), Written(base, n);
      DivMod(n, base);
      WrittenIs(base, n / base);
      ZeroOnlyEmpty(base, high);
      AppendDigit(base, high, n % base);
      if n / base == 0 { assert base * 0 == 0; }
    }
  }

  lemma AppendDigit(base: nat, high: seq<nat>, d: nat)
    requires Canonical(base, high) && d < base && (high == [] ==> d != 0)
    ensures Canonical(base, high + [d]) && Val(base, high + [d]) == base * Val(base, high) + d
  {
    assert (high + [d])[..|high|] == high;
  }

  lemma LeadIs(s: seq<nat>, z: nat, t: seq<nat>)
    requires s == Zeros(z) + t && (t == [] || t[0] != 0)
    ensures Lead(s) == z && s[z..] == t
  {
    if t != [] { assert s[z] == t[0]; }
  }

  lemma ValStripped(base: nat, s: seq<nat>)
    ensures Val(base, s) == Val(base, s[Lead(s)..])
  {
    ValLeadingZeros(base, s, Lead(s));
  }

  /** Converting there and back gives the same list, leading zeros and all. */
  lemma ConvertBack(from: nat, to: nat, s: seq<nat>)
    requires from > 1 && to > 1 && Digits(from, s)
    ensures Digits(to, Convert(from, to, s)) && Convert(to, from, Convert(from, to, s)) == s
  {
    hide Written, Val, Lead;
    var z, n := Lead(s), Val(from, s);
    var t := Convert(from, to, s);
    WrittenIs(to, n);
    LeadIs(t, z, Written(to, n));
    ValStripped(to, t);
    ValStripped(from, s);
    WrittenIs(from, n);
    CanonicalUnique(from, Written(from, n), s[z..]);
    assert s == Zeros(z) + s[z..];
  }

  /** What the buffer holds after the last round, without its leading zeros. */
  lemma StrippedIs(from: nat, to: nat, s: seq<nat>, z: nat, buffer: seq<nat>, k: nat)
    requires to > 1 && z == Lead(s) && Digits(to, buffer) && Val(to, buffer) == Val(from, s[z..])
    requires k <= |buffer| && (forall i :: 0 <= i < k ==> buffer[i] == 0) && (k < |buffer| ==> buffer[k] != 0)
    ensures Zeros(z) + buffer[k..] == Convert(from, to, s)
  {
    hide Written, Val, Lead;
    ValLeadingZeros(to, buffer, k);
    ValStripped(from, s);
    WrittenIs(to, Val(from, s));
    CanonicalUnique(to, buffer[k..], Written(to, Val(from, s)));
  }

  lemma NextValue(base: nat, s: seq<nat>, i: nat)
    requires i < |s|
    ensures Val(base, s[..0]) == 0 && Val(base, s[..i + 1]) == base * Val(base, s[..i]) + s[i]
  {
    assert s[..i + 1][..i] == s[..i];
  }

  /** A prefix is small enough for a buffer that is big enough for the whole. */
  lemma PrefixFits(from: nat, to: nat, s: seq<nat>, i: nat, n: nat, size: nat)
    requires from > 0 && Digits(from, s) && i <= |s| <= n && Pow(from, n) <= Pow(to, size)
    ensures Val(from, s[..i]) < Pow(to, size)
  {
    hide Val, Pow;
    ValBound(from, s[..i]);
    PowMono(from, i, n);
  }

  // ----- the two procedures ----------------------------------------------------------------------------

  /** The alphabet by its runs: alphanumeric without "0", "I", "O" and "l". */
  function CharOf(d: nat): char
    requires d < 58
  {
    if d < 9 then ('1' as int + d) as char
    else if d < 17 then ('A' as int + d - 9) as char
    else if d < 22 then ('J' as int + d - 17) as char
    else if d < 33 then ('P' as int + d - 22) as char
    else if d < 44 then ('a' as int + d - 33) as char
    else ('m' as int + d - 44) as char
  }

  /** The map from characters back to digits. */
  function DigitOf(c: char): int {
    if '1' <= c <= '9' then c as int - '1' as int
    else if 'A' <= c <= 'H' then c as int - 'A' as int + 9
    else if 'J' <= c <= 'N' then c as int - 'J' as int + 17
    else if 'P' <= c <= 'Z' then c as int - 'P' as int + 22
    else if 'a' <= c <= 'k' then c as int - 'a' as int + 33
    else if 'm' <= c <= 'z' then c as int - 'm' as int + 44
    else -1
  }

  lemma DigitOfChar(d: nat)
    requires d < 58
    ensures DigitOf(CharOf(d)) == d
  {
  }

  lemma CharOfDigit(c: char)
    ensures DigitOf(c) != -1 ==> 0 <= DigitOf(c) < 58 && CharOf(DigitOf(c)) == c
  {
  }

  predicate IsSpace(c: char) {
    c == ' ' || 9 <= c as int <= 13
  }

  function Text(s: seq<nat>): (t: string)
    requires Digits(58, s)
    ensures |t| == |s|
  {
    seq(|s|, i requires 0 <= i < |s| => CharOf(s[i]))
  }

  ghost function Encoded(v: seq<nat>): string
    requires Digits(256, v)
  {
    ConvertBack(256, 58, v);
    Text(Convert(256, 58, v))
  }

  /** Skip the zeros at the front of what is in use. */
  method SkipZeros(a: array<nat>, base: nat, length: nat) returns (k: nat)
    requires Buffer(base, a[..], length)
    ensures k <= a.Length && (forall i :: 0 <= i < k ==> a[i] == 0) && (k < a.Length ==> a[k] != 0)
  {
    assert forall i :: 0 <= i < a.Length ==> a[..][i] == a[i];
    k := a.Length - length;
    while k < a.Length && a[k] == 0
      invariant k <= a.Length && forall i :: 0 <= i < k ==> a[i] == 0
    {
      k := k + 1;
    }
  }

  method EncodeBase58(v: seq<nat>) returns (s: string)
    requires Digits(256, v)
    ensures s == Encoded(v)
  {
    hide Val, Pow, Buffer, Convert, CharOf;
    ConvertBack(256, 58, v);
    var zeroes := 0;
    while zeroes < |v| && v[zeroes] == 0
      invariant zeroes <= |v| && forall i :: 0 <= i < zeroes ==> v[i] == 0
    {
      zeroes := zeroes + 1;
    }
    var w := v[zeroes..];
    var size := |w| * 138 / 100 + 1;
    EncodeBufferSuffices(|w|);
    var b58 := new nat[size](_ => 0);
    var length := 0;
    EmptyBuffer(58, b58[..], w);
    for i := 0 to |w|
      invariant Buffer(58, b58[..], length) && Val(58, b58[..]) == Val(256, w[..i])
    {
      NextValue(256, w, i);
      PrefixFits(256, 58, w, i + 1, |w|, size);
      length := MulAdd(58, 256, w[i], b58, length);
    }
    assert w[..|w|] == w;
    var k := SkipZeros(b58, 58, length);
    BufferDigits(58, b58[..], length);
    assert zeroes == Lead(v);
    StrippedIs(256, 58, v, zeroes, b58[..], k);
    s := WriteDigits(zeroes, b58[k..]);
  }

  method WriteDigits(zeroes: nat, d: seq<nat>) returns (s: string)
    requires Digits(58, d)
    ensures Digits(58, Zeros(zeroes) + d) && s == Text(Zeros(zeroes) + d)
  {
    s := seq(zeroes, _ => '1');
    assert s == Text(Zeros(zeroes));
    for i := 0 to |d|
      invariant s == Text(Zeros(zeroes) + d[..i])
    {
      s := s + [CharOf(d[i])];
    }
    assert d[..|d|] == d;
  }

  lemma EmptyBuffer(base: nat, s: seq<nat>, w: seq<nat>)
    requires base > 0 && forall i :: 0 <= i < |s| ==> s[i] == 0
    ensures Buffer(base, s, 0) && Val(base, s) == 0 && Val(256, w[..0]) == 0 && Val(58, w[..0]) == 0
  {
    ValLeadingZeros(base, s, |s|);
  }

  lemma BufferDigits(base: nat, s: seq<nat>, length: nat)
    requires Buffer(base, s, length)
    ensures Digits(base, s)
  {
  }

  datatype Result = Failure | Success(v: seq<nat>)

  /** From i on: the first character that is not a space, the first that is. */
  function SkipSpaces(s: string, i: nat): (k: nat)
    requires i <= |s|
    ensures i <= k <= |s|
    decreases |s| - i
  {
    if i < |s| && IsSpace(s[i]) then SkipSpaces(s, i + 1) else i
  }

  function SkipWord(s: string, i: nat): (k: nat)
    requires i <= |s|
    ensures i <= k <= |s| && forall j :: i <= j < k ==> !IsSpace(s[j])
    ensures k < |s| ==> IsSpace(s[k])
    decreases |s| - i
  {
    if i < |s| && !IsSpace(s[i]) then SkipWord(s, i + 1) else i
  }

  /** The string is the given word, with spaces only before and after it. */
  ghost predicate IsWord(s: string, word: string) {
    var a := SkipSpaces(s, 0);
    var b := SkipWord(s, a);
    word == s[a..b] && SkipSpaces(s, b) == |s|
  }

  /** The digits of a word, all characters being in the alphabet. */
  ghost predicate Reads(word: string, d: seq<nat>) {
    |d| == |word| && Digits(58, d) && forall i :: 0 <= i < |d| ==> DigitOf(word[i]) == d[i]
  }

  lemma ReadsText(word: string, d: seq<nat>)
    ensures Reads(word, d) <==> Digits(58, d) && Text(d) == word
  {
    hide DigitOf, CharOf;
    if |word| == |d| && Digits(58, d) {
      forall i | 0 <= i < |d| ensures DigitOf(word[i]) == d[i] <==> CharOf(d[i]) == word[i] {
        DigitOfChar(d[i]);
        CharOfDigit(word[i]);
      }
      if Reads(word, d) {
        assert forall i :: 0 <= i < |d| ==> Text(d)[i] == word[i];
      }
    }
  }

  /** A word read as digits is the encoding of exactly one byte string. */
  lemma EncodedIff(word: string, d: seq<nat>, v: seq<nat>)
    requires Reads(word, d) && Digits(256, v)
    ensures Encoded(v) == word <==> v == Convert(58, 256, d)
  {
    hide Convert, Text, DigitOf;
    ReadsText(word, d);
    ConvertBack(256, 58, v);
    ConvertBack(58, 256, d);
    ReadsText(word, Convert(256, 58, v));
    if Encoded(v) == word { SameReading(word, d, Convert(256, 58, v)); }
  }

  lemma SameReading(word: string, d: seq<nat>, e: seq<nat>)
    requires Reads(word, d) && Reads(word, e)
    ensures d == e
  {
  }

  /** Encodings contain only characters of the alphabet. */
  lemma EncodedReads(v: seq<nat>)
    requires Digits(256, v)
    ensures Reads(Encoded(v), Convert(256, 58, v))
  {
    ConvertBack(256, 58, v);
    ReadsText(Encoded(v), Convert(256, 58, v));
  }

  /** The index after the leading '1's. */
  lemma LeadOnes(word: string, d: seq<nat>, z: nat)
    requires Reads(word, d) && z <= |word| && (forall i :: 0 <= i < z ==> word[i] == '1') && (z < |word| ==> word[z] != '1')
    ensures Lead(d) == z
  {
    forall i | 0 <= i < |d| ensures word[i] == '1' <==> d[i] == 0 { }
  }

  /** Succeeds exactly on the spaced encodings, and undoes them. */
  method DecodeBase58(s: string) returns (r: Result)
    ensures r.Success? ==> Digits(256, r.v) && IsWord(s, Encoded(r.v))
    ensures forall v :: Digits(256, v) && IsWord(s, Encoded(v)) ==> r == Success(v)
  {
    hide Val, Pow, Buffer, Convert, DigitOf, Encoded, Lead;
    var p := 0;
    while p < |s| && IsSpace(s[p])
      invariant p <= |s| && SkipSpaces(s, p) == SkipSpaces(s, 0)
    {
      p := p + 1;
    }
    ghost var a, b := p, SkipWord(s, p);
    ghost var word := s[a..b];
    var zeroes := 0;
    while p < |s| && s[p] == '1'
      invariant p == a + zeroes <= b && SkipWord(s, p) == b && forall i :: a <= i < p ==> s[i] == '1'
    {
      zeroes := zeroes + 1;
      p := p + 1;
    }
    var size := (|s| - p) * 733 / 1000 + 1;
    DecodeBufferSuffices(|s| - p);
    var ok, b256, length, end := DecodeWord(s, p, size);
    if !ok {
      BadCharacter(s, a, b);
      return Failure;
    }
    p := end;
    while p < |s| && IsSpace(s[p])
      invariant p <= |s| && SkipSpaces(s, p) == SkipSpaces(s, b)
    {
      p := p + 1;
    }
    if p != |s| { return Failure; }
    var k := SkipZeros(b256, 256, length);
    BufferDigits(256, b256[..], length);
    r := Success(Zeros(zeroes) + b256[k..]);
    DecodedIs(s, a, b, zeroes, b256[..], k);
  }

  lemma BadCharacter(s: string, a: nat, b: nat)
    requires a == SkipSpaces(s, 0) && b == SkipWord(s, a) && exists i :: a <= i < b && DigitOf(s[i]) == -1
    ensures forall v :: Digits(256, v) ==> !IsWord(s, Encoded(v))
  {
    hide DigitOf, Encoded, Convert;
    var k :| a <= k < b && DigitOf(s[k]) == -1;
    forall v | Digits(256, v) ensures !IsWord(s, Encoded(v)) {
      EncodedReads(v);
      assert s[k] == s[a..b][k - a];
    }
  }

  /** The buffer and the counted ones are the one byte string whose encoding is the word. */
  lemma DecodedIs(s: string, a: nat, b: nat, z: nat, buffer: seq<nat>, k: nat)
    requires a + z <= b <= |s| && (forall i :: a <= i < a + z ==> s[i] == '1') && (a + z < b ==> s[a + z] != '1')
    requires forall i :: a + z <= i < b ==> DigitOf(s[i]) != -1
    requires Digits(256, buffer) && Val(256, buffer) == Val(58, DigitsOf(s[a + z..b]))
    requires k <= |buffer| && (forall i :: 0 <= i < k ==> buffer[i] == 0) && (k < |buffer| ==> buffer[k] != 0)
    ensures Digits(256, Zeros(z) + buffer[k..])
    ensures forall v :: Digits(256, v) ==> (Encoded(v) == s[a..b] <==> v == Zeros(z) + buffer[k..])
  {
    hide Val, Convert, DigitOf, Encoded, Lead;
    var word := s[a..b];
    OneIsZero();
    forall i | 0 <= i < |word| ensures DigitOf(word[i]) != -1 && word[i] == s[a + i] { }
    var d := DigitsOf(word);
    LeadOnes(word, d, z);
    assert d[z..] == DigitsOf(s[a + z..b]);
    StrippedIs(58, 256, d, z, buffer, k);
    ConvertBack(58, 256, d);
    forall v | Digits(256, v) ensures Encoded(v) == word <==> v == Zeros(z) + buffer[k..] { EncodedIff(word, d, v); }
  }

  lemma OneIsZero()
    ensures DigitOf('1') == 0
  {
  }

  ghost function DigitsOf(word: string): (d: seq<nat>)
    requires forall i :: 0 <= i < |word| ==> DigitOf(word[i]) != -1
    ensures Reads(word, d)
  {
    seq(|word|, i requires 0 <= i < |word| => CharOfDigit(word[i]); DigitOf(word[i]) as nat)
  }

  /** The characters up to the next space, as a number in the buffer. */
  method DecodeWord(s: string, start: nat, size: nat) returns (ok: bool, b256: array<nat>, length: nat, p: nat)
    requires start <= |s| && Pow(58, |s| - start) <= Pow(256, size)
    ensures ok ==> p == SkipWord(s, start) && (forall i :: start <= i < p ==> DigitOf(s[i]) != -1)
    ensures ok ==> Buffer(256, b256[..], length) && Val(256, b256[..]) == Val(58, DigitsOf(s[start..p]))
    ensures !ok ==> exists i :: start <= i < SkipWord(s, start) && DigitOf(s[i]) == -1
  {
    hide Val, Pow, Buffer, DigitOf;
    b256 := new nat[size](_ => 0);
    length, p := 0, start;
    EmptyBuffer(256, b256[..], []);
    assert DigitsOf(s[start..start]) == [];
    while p < |s| && !IsSpace(s[p])
      invariant start <= p <= |s| && SkipWord(s, p) == SkipWord(s, start) && (forall i :: start <= i < p ==> DigitOf(s[i]) != -1)
      invariant b256.Length == size && Buffer(256, b256[..], length) && Val(256, b256[..]) == Val(58, DigitsOf(s[start..p]))
      decreases |s| - p
    {
      var digit := DigitOf(s[p]);
      if digit == -1 { ok := false; return; }
      CharOfDigit(s[p]);
      ghost var d, e := DigitsOf(s[start..p]), DigitsOf(s[start..p + 1]);
      assert e[..p - start] == d && e[p - start] == digit;
      NextValue(58, e, p - start);
      PrefixFits(58, 256, e, p + 1 - start, |s| - start, size);
      assert e[..p + 1 - start] == e;
      length := MulAdd(256, 58, digit, b256, length);
      p := p + 1;
    }
    ok := true;
  }

  /** Both directions in one statement. */
  method RoundTrip(v: seq<nat>) returns (r: Result)
    requires Digits(256, v)
    ensures r == Success(v)
  {
    var s := EncodeBase58(v);
    EncodedReads(v);
    WordOfItself(s, Convert(256, 58, v));
    r := DecodeBase58(s);
  }

  lemma WordOfItself(s: string, d: seq<nat>)
    requires Reads(s, d)
    ensures IsWord(s, s)
  {
    forall i | 0 <= i < |s| ensures !IsSpace(s[i]) { assert DigitOf(s[i]) == d[i]; }
    assert SkipSpaces(s, 0) == 0 && SkipWord(s, 0) == |s| && SkipSpaces(s, |s|) == |s|;
  }

  // ----- with four check bytes ---------------------------------------------------------------------------

  ghost predicate IsHash(hash: seq<nat> -> seq<nat>) {
    forall v {:trigger hash(v)} :: |hash(v)| == 32 && Digits(256, hash(v))
  }

  ghost function Checked(hash: seq<nat> -> seq<nat>, v: seq<nat>): (r: seq<nat>)
    requires IsHash(hash) && Digits(256, v)
    ensures Digits(256, r) && |r| == |v| + 4
  {
    v + hash(v)[..4]
  }

  lemma CheckedIff(hash: seq<nat> -> seq<nat>, d: seq<nat>, w: seq<nat>)
    requires IsHash(hash) && Digits(256, w) && |d| >= 4
    ensures d == Checked(hash, w) <==> w == d[..|d| - 4] && hash(w)[..4] == d[|d| - 4..]
  {
    assert d == d[..|d| - 4] + d[|d| - 4..];
  }

  method EncodeBase58Check(hash: seq<nat> -> seq<nat>, v: seq<nat>) returns (s: string)
    requires IsHash(hash) && Digits(256, v)
    ensures s == Encoded(Checked(hash, v))
  {
    s := EncodeBase58(v + hash(v)[..4]);
  }

  method DecodeBase58Check(hash: seq<nat> -> seq<nat>, s: string) returns (r: Result)
    requires IsHash(hash)
    ensures r.Success? ==> Digits(256, r.v) && IsWord(s, Encoded(Checked(hash, r.v)))
    ensures forall v :: Digits(256, v) && IsWord(s, Encoded(Checked(hash, v))) ==> r == Success(v)
  {
    hide IsWord, Encoded, Checked;
    var d := DecodeBase58(s);
    if d.Failure? || |d.v| < 4 { return Failure; }
    var v := d.v[..|d.v| - 4];
    forall w | Digits(256, w) ensures d.v == Checked(hash, w) <==> w == v && hash(v)[..4] == d.v[|d.v| - 4..] {
      CheckedIff(hash, d.v, w);
    }
    if hash(v)[..4] != d.v[|d.v| - 4..] { return Failure; }
    return Success(v);
  }
}
