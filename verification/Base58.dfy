/** Base58 text of byte strings, converted in place (src/base58.cpp:19-133). Characters are their
    codes. */
module Base58 {
  import opened Options
  import opened Sequences
  import opened LimbNumbers
  import opened Radix

  // ---------------------------------------------------------------------------------------
  // The alphabet

  /** The character of a digit: letters and figures without 0, I, O and l. */
  function CharOf(d: nat): nat
    requires d < 58
  {
    if d < 9 then 49 + d else if d < 17 then 56 + d else if d < 22 then 57 + d
    else if d < 33 then 58 + d else if d < 44 then 64 + d else 65 + d
  }

  /** The digit of a character, or -1. */
  function DigitOf(c: nat): int {
    if 49 <= c <= 57 then c - 49 else if 65 <= c <= 72 then c - 56 else if 74 <= c <= 78 then c - 57
    else if 80 <= c <= 90 then c - 58 else if 97 <= c <= 107 then c - 64 else if 109 <= c <= 122 then c - 65
    else -1
  }

  lemma AlphabetRoundTrip(d: nat)
    requires d < 58
    ensures DigitOf(CharOf(d)) == d && CharOf(d) != 0 && !IsSpace(CharOf(d)) && (CharOf(d) == ONE <==> d == 0)
  {
  }

  const ONE: nat := 49

  predicate IsSpace(c: nat) {
    c == 32 || 9 <= c <= 13
  }

  // ---------------------------------------------------------------------------------------
  // The buffers are large enough

  lemma {:induction false} SmallPowers()
    ensures Pow(58, 1) == 58 && Pow(58, 2) == 3364 && Pow(58, 3) == 195112 && Pow(58, 4) == 11316496
    ensures Pow(58, 5) == 656356768
    ensures Pow(58, 6) == 38068692544 && Pow(58, 7) == 2207984167552 && Pow(58, 8) == 128063081718016
    ensures Pow(256, 1) == 0x100 && Pow(256, 2) == 0x1_0000 && Pow(256, 3) == 0x100_0000 && Pow(256, 4) == 0x1_0000_0000
    ensures Pow(256, 8) == 0x1_0000_0000_0000_0000
  {
    assert Pow(58, 0) == 1 && Pow(256, 0) == 1;
    assert Pow(58, 1) == Pow(58, 0) * 58 && Pow(256, 1) == Pow(256, 0) * 256;
    assert Pow(58, 2) == Pow(58, 1) * 58 && Pow(256, 2) == Pow(256, 1) * 256;
    assert Pow(58, 3) == Pow(58, 2) * 58 && Pow(256, 3) == Pow(256, 2) * 256;
    assert Pow(58, 4) == Pow(58, 3) * 58 && Pow(256, 4) == Pow(256, 3) * 256;
    PowAdd(58, 4, 1);
    PowAdd(58, 4, 2);
    PowAdd(58, 4, 3);
    PowAdd(58, 4, 4);
    PowAdd(256, 4, 4);
  }

  /** Products of bounds. */
  lemma {:induction false} BoundProduct(a: nat, m: nat, n: nat, b: nat, p: nat, q: nat)
    requires b >= 1 && Pow(a, m) <= Pow(b, p) && Pow(a, n) <= Pow(b, q)
    ensures Pow(a, m + n) <= Pow(b, p + q)
  {
    PowAdd(a, m, n);
    PowAdd(b, p, q);
    hide Pow;
    MulMono(Pow(a, m), Pow(b, p), Pow(a, n));
    MulMono(Pow(a, n), Pow(b, q), Pow(b, p));
    assert Pow(b, p) * Pow(a, n) == Pow(a, n) * Pow(b, p) && Pow(b, p) * Pow(b, q) == Pow(b, q) * Pow(b, p);
  }

  lemma {:induction false} EncodeTable(r: nat)
    requires r < 8
    ensures Pow(256, r) <= Pow(58, r * 138 / 100 + 1)
  {
    SmallPowers();
    hide Pow;
    PowAdd(256, 4, 1);
    PowAdd(256, 4, 2);
    PowAdd(256, 4, 3);
    PowAdd(58, 8, 1);
    PowAdd(58, 8, 2);
    Zeroth();
  }

  lemma Zeroth()
    ensures Pow(256, 0) == 1 && Pow(58, 0) == 1
  {
  }

  /** 138 base58 digits for every 100 bytes, plus one, always suffice. */
  lemma {:induction false} EncodeFits(n: nat)
    ensures Pow(256, n) <= Pow(58, n * 138 / 100 + 1)
  {
    hide Pow;
    if n < 8 {
      EncodeTable(n);
    } else {
      EncodeFits(n - 8);
      SmallPowers();
      PowAdd(58, 8, 3);
      BoundProduct(256, n - 8, 8, 58, (n - 8) * 138 / 100 + 1, 11);
      PowMono(58, (n - 8) * 138 / 100 + 12, n * 138 / 100 + 1);
    }
  }

  lemma {:induction false} DecodeTable(r: nat)
    requires r < 15
    ensures Pow(58, r) <= Pow(256, r * 733 / 1000 + 1)
  {
    SmallPowers();
    hide Pow;
    PowAdd(58, 8, 1);
    PowAdd(58, 8, 2);
    PowAdd(58, 8, 3);
    PowAdd(58, 8, 4);
    PowAdd(58, 8, 5);
    PowAdd(58, 8, 6);
    PowAdd(256, 4, 1);
    PowAdd(256, 4, 2);
    PowAdd(256, 4, 3);
    PowAdd(256, 8, 1);
    PowAdd(256, 8, 2);
    PowAdd(256, 8, 3);
    Zeroth();
  }

  /** The two approximations of log(58) / log(256) that the estimate rests on. */
  lemma {:induction false} DecodeSteps()
    ensures Pow(58, 15) <= Pow(256, 11) && Pow(58, 71) <= Pow(256, 52)
  {
    SmallPowers();
    hide Pow;
    PowAdd(58, 8, 7);
    PowAdd(58, 8, 8);
    PowAdd(58, 16, 16);
    PowAdd(58, 32, 32);
    PowAdd(58, 64, 7);
    PowAdd(256, 8, 3);
    PowAdd(256, 8, 8);
    PowAdd(256, 16, 16);
    PowAdd(256, 32, 16);
    PowAdd(256, 48, 4);
    assert Pow(58, 16) == 16400152899115243850138976256;
    assert Pow(58, 32) == 268965015114358137726910587140455987105619365599731777536;
    assert Pow(58, 64) ==
        72342179355466901471258927612150153907721848234316445933056526044582001260898145151856420451025374266490194231296;
    assert Pow(58, 71) ==
        159730386663078066345306447337161584696769904898410078913243029577507397293846405390982563136983769384625594118558891106107392;
  }

  lemma {:induction false} ResidueSmall(m: nat)
    requires 15 < m < 71
    ensures (m - 15) * 733 / 1000 + 12 <= m * 733 / 1000 + 1
  {
    var a := if m < 30 then 1 else if m < 45 then 2 else if m < 60 then 3 else 4;
    var b := m - 15 * a;
    FloorAt(a, b);
    FloorAt(a - 1, b);
  }

  lemma {:induction false} FloorAt(a: nat, b: nat)
    requires a <= 4 && b < 15
    ensures (15 * a + b) * 733 / 1000 == 11 * a + 733 * b / 1000 - (if a > 0 && b == 0 then 1 else 0)
  {
    LargeFraction(b);
    var q, f := 733 * b / 1000, 733 * b % 1000;
    assert (15 * a + b) * 733 == 1000 * (11 * a + q) + (f - 5 * a);
  }

  lemma LargeFraction(b: nat)
    requires b < 15
    ensures b > 0 ==> 733 * b % 1000 >= 20
  {
    if b == 1 {} else if b == 2 {} else if b == 3 {} else if b == 4 {} else if b == 5 {} else if b == 6 {}
        else if b == 7 {}
    else if b == 8 {} else if b == 9 {} else if b == 10 {} else if b == 11 {} else if b == 12 {} else if b == 13 {}
        else if b == 14 {}
  }

  /** 733 bytes for every 1000 base58 digits, plus one, always suffice. */
  lemma {:induction false} DecodeFits(m: nat)
    ensures Pow(58, m) <= Pow(256, m * 733 / 1000 + 1)
  {
    hide Pow;
    DecodeSteps();
    if m < 15 {
      DecodeTable(m);
    } else if 15 < m < 71 {
      DecodeFits(m - 15);
      BoundProduct(58, m - 15, 15, 256, (m - 15) * 733 / 1000 + 1, 11);
      ResidueSmall(m);
      PowMono(256, (m - 15) * 733 / 1000 + 12, m * 733 / 1000 + 1);
    } else if m >= 71 {
      DecodeFits(m - 71);
      BoundProduct(58, m - 71, 71, 256, (m - 71) * 733 / 1000 + 1, 52);
      PowMono(256, (m - 71) * 733 / 1000 + 53, m * 733 / 1000 + 1);
    }
  }

  // ---------------------------------------------------------------------------------------
  // Numbers and their digits

  /** The number with these digits, highest first. */
  ghost function Number(base: nat, s: seq<nat>): nat {
    Value(base, Reverse(s))
  }

  lemma {:induction false} ValueCons(base: nat, x: nat, s: seq<nat>)
    ensures Value(base, [x] + s) == x + base * Value(base, s)
  {
    if s == [] {
      assert [x] + s == [x] && [x][..0] == [];
    } else {
      var n := |s| - 1;
      ValueCons(base, x, s[..n]);
      assert ([x] + s)[..|s|] == [x] + s[..n];
      assert Pow(base, n + 1) == Pow(base, n) * base;
      hide Value, Pow;
      Distribute(Value(base, s[..n]), s[n] * Pow(base, n), base);
      Reorder(s[n], Pow(base, n), base);
      ValueTake(base, s, n);
      ValueTake(base, [x] + s, n + 1);
      assert s[..n + 1] == s && ([x] + s)[..n + 2] == [x] + s && ([x] + s)[..n + 1] == [x] + s[..n];
      assert base * Value(base, s) == Value(base, s) * base && base * Value(base, s[..n]) == Value(base, s[..n]) * base;
    }
  }

  lemma {:induction false} NumberMore(base: nat, s: seq<nat>, x: nat)
    ensures Number(base, s + [x]) == base * Number(base, s) + x
  {
    assert Reverse(s + [x]) == [x] + Reverse(s);
    ValueCons(base, x, Reverse(s));
  }

  lemma {:induction false} NumberBound(base: nat, s: seq<nat>)
    requires base >= 1 && Digits(base, s)
    ensures Number(base, s) < Pow(base, |s|)
  {
    ValueBound(base, Reverse(s));
  }

  /** The digits of a number, lowest first, without superfluous zeros. */
  ghost function DigitsOf(base: nat, v: nat): seq<nat>
    requires base >= 2
    decreases v
  {
    if v == 0 then [] else
      Shrinks(v, base);
      [v % base] + DigitsOf(base, v / base)
  }

  lemma Shrinks(v: nat, base: nat)
    requires base >= 2 && v > 0
    ensures 0 <= v / base < v
  {
    QuotientBelow(v, base, v) by { MulMono(2, base, v); }
  }

  lemma {:induction false} DigitsOfAre(base: nat, v: nat)
    requires base >= 2
    ensures Digits(base, DigitsOf(base, v)) && Minimal(DigitsOf(base, v)) && Value(base, DigitsOf(base, v)) == v
    decreases v
  {
    if v > 0 {
      Shrinks(v, base);
      DigitsOfAre(base, v / base);
      var d := DigitsOf(base, v / base);
      ValueCons(base, v % base, d);
      DivMod(v, base);
      hide Value;
      if d == [] {
        assert Value(base, d) == 0 by { NoDigits(base); }
      }
    }
  }

  lemma NoDigits(base: nat)
    ensures Value(base, []) == 0
  {
  }

  // ---------------------------------------------------------------------------------------
  // Converting in place

  /** The low digits of the buffer are used, and the rest is zero. */
  ghost predicate Uses(base: nat, b: seq<nat>, length: nat) {
    && length <= |b| && Digits(base, b)
    && (forall i :: length <= i < |b| ==> Reverse(b)[i] == 0)
    && Minimal(Reverse(b)[..length])
  }

  lemma ReverseSet(b: seq<nat>, i: nat, x: nat)
    requires i < |b|
    ensures Reverse(b[|b| - 1 - i := x]) == Reverse(b)[i := x]
  {
  }

  lemma FactorStep(v: int, x: int, p: int, factor: int, add: int, u: int, c: int)
    requires u + c * p == factor * v + add
    ensures factor * (v + x * p) + add == u + c * p + factor * x * p
  {
    Distribute(v, x * p, factor);
    Reorder(factor, x, p);
    assert factor * (v + x * p) == factor * v + factor * (x * p);
  }

  /** Multiplies the number in the buffer by a factor and adds to it. */
  method MultiplyAdd(b: array<nat>, base: nat, factor: nat, add: nat, length: nat) returns (used: nat)
    requires base >= 2 && factor >= 1 && Uses(base, b[..], length)
    requires factor * Number(base, b[..]) + add < Pow(base, b.Length)
    modifies b
    ensures Uses(base, b[..], used) && length <= used && Number(base, b[..]) == factor * old(Number(base, b[..])) + add
  {
    hide Value, Pow;
    ghost var s := Reverse(b[..]);
    var size, carry, i := b.Length, add, 0;
    assert s[..0] == [] && Reverse(b[..])[..0] == [];
    NoDigits(base);
    OnePow(base);
    while (carry != 0 || i < length) && i < size
      invariant 0 <= i <= size && 0 <= carry && Digits(base, b[..])
      invariant forall j :: i <= j < size ==> Reverse(b[..])[j] == s[j]
      invariant Value(base, Reverse(b[..])[..i]) + carry * Pow(base, i) == factor * Value(base, s[..i]) + add
      invariant i > 0 && i >= length ==> carry != 0 || Reverse(b[..])[i - 1] != 0
      decreases size - i
    {
      ghost var r := Reverse(b[..]);
      NotNegative(factor, b[size - 1 - i]);
      var n: nat := carry + factor * b[size - 1 - i];
      DigitDone(base, r, s, i, carry, factor, add, n);
      PutDigit(b, base, i, n % base);
      assert Reverse(b[..])[..i + 1] == r[..i] + [n % base];
      Topmost(factor, s, length, i, carry, n, base);
      carry := n / base;
      i := i + 1;
    }
    Fits(base, b[..], s, i, carry, factor, add);
    assert carry == 0;
    used := i;
    ValueZeros(base, Reverse(b[..]), i);
    ValueZeros(base, s, i);
  }

  method PutDigit(b: array<nat>, base: nat, i: nat, digit: nat)
    requires i < b.Length && Digits(base, b[..]) && digit < base
    modifies b
    ensures Digits(base, b[..]) && Reverse(b[..]) == Reverse(old(b[..]))[i := digit]
  {
    ghost var t := b[..];
    b[b.Length - 1 - i] := digit;
    assert b[..] == t[b.Length - 1 - i := digit];
    ReverseSet(t, i, digit);
  }

  lemma {:induction false} DigitDone(base: nat, r: seq<nat>, s: seq<nat>, i: nat, carry: nat, factor: nat, add: nat,
      n: nat)
    requires base >= 2 && i < |s| == |r| && n == carry + factor * s[i]
    requires Value(base, r[..i]) + carry * Pow(base, i) == factor * Value(base, s[..i]) + add
    ensures n % base < base
    ensures Value(base, r[..i] + [n % base]) + (n / base) * Pow(base, i + 1) == factor * Value(base, s[..i + 1]) + add
  {
    hide Value, Pow;
    DivMod(n, base);
    DigitStep(Value(base, r[..i]), carry, Pow(base, i), base, factor * Value(base, s[..i]) + add, n);
    FactorStep(Value(base, s[..i]), s[i], Pow(base, i), factor, add, Value(base, r[..i]), carry);
    ValueTake(base, s, i);
    ValueNext(base, r[..i], n % base);
    NextPow(base, i);
  }

  lemma OnePow(base: nat)
    ensures Pow(base, 0) == 1
  {
  }

  lemma NextPow(base: nat, i: nat)
    ensures Pow(base, i + 1) == Pow(base, i) * base
  {
  }

  lemma NotNegative(x: nat, y: nat)
    ensures x * y >= 0
  {
  }

  /** The highest digit written is not zero, unless there is a carry. */
  lemma {:induction false} Topmost(factor: nat, s: seq<nat>, length: nat, i: nat, carry: nat, n: nat, base: nat)
    requires base >= 2 && factor >= 1 && i < |s| && length <= |s| && n == carry + factor * s[i]
    requires (carry != 0 || i < length)
    requires Minimal(s[..length]) && forall j :: length <= j < |s| ==> s[j] == 0
    ensures 0 <= n / base
    ensures i + 1 >= length ==> n / base != 0 || n % base != 0
  {
    DivMod(n, base);
    SignOf(-1 - n / base, base);
    Distribute(-1 - n / base, n / base, base);
    if i + 1 == length {
      assert s[..length][i] != 0;
      MulMono(1, s[i], factor);
      assert s[i] * factor == factor * s[i];
    }
  }

  /** At the end of the buffer there is no carry left. */
  lemma {:induction false} Fits(base: nat, b: seq<nat>, s: seq<nat>, i: nat, carry: nat, factor: nat, add: nat)
    requires base >= 2 && i <= |s| == |b| && (i < |s| ==> carry == 0) && factor * Value(base, s) + add < Pow(base, |s|)
    requires Value(base, Reverse(b)[..i]) + carry * Pow(base, i) == factor * Value(base, s[..i]) + add
    ensures carry == 0
  {
    hide Value, Pow;
    if i == |s| {
      assert s[..i] == s;
      if carry >= 1 {
        MulMono(1, carry, Pow(base, i));
      }
    }
  }

  // ---------------------------------------------------------------------------------------
  // Text

  /** How many times s starts with c. */
  function Leading(s: seq<nat>, c: nat): (n: nat)
    ensures n <= |s| && (n < |s| ==> s[n] != c) && forall i :: 0 <= i < n ==> s[i] == c
  {
    if s != [] && s[0] == c then 1 + Leading(s[1..], c) else 0
  }

  lemma {:induction false} LeadingIs(s: seq<nat>, c: nat, n: nat)
    requires n <= |s| && (n < |s| ==> s[n] != c) && forall i :: 0 <= i < n ==> s[i] == c
    ensures Leading(s, c) == n
  {
  }

  function Fill(c: nat, n: nat): (r: seq<nat>)
    ensures |r| == n && forall i :: 0 <= i < n ==> r[i] == c
  {
    seq(n, i => c)
  }

  function Chars(d: seq<nat>): (r: seq<nat>)
    requires Digits(58, d)
    ensures |r| == |d| && forall i :: 0 <= i < |d| ==> r[i] == CharOf(d[i])
  {
    seq(|d|, i requires 0 <= i < |d| => CharOf(d[i]))
  }

  /** The minimal digits of a number, highest first. */
  ghost function HighFirst(base: nat, v: nat): (r: seq<nat>)
    requires base >= 2
    ensures Digits(base, r) && Number(base, r) == v && (r != [] ==> r[0] != 0)
  {
    DigitsOfAre(base, v);
    ReverseTwice(DigitsOf(base, v));
    Reverse(DigitsOf(base, v))
  }

  lemma {:induction false} HighFirstUnique(base: nat, s: seq<nat>)
    requires base >= 2 && Digits(base, s) && (s != [] ==> s[0] != 0)
    ensures HighFirst(base, Number(base, s)) == s
  {
    var v := Number(base, s);
    DigitsOfAre(base, v);
    ReverseTwice(s);
    MinimalUnique(base, Reverse(s), DigitsOf(base, v));
  }

  /** A one for every leading zero byte, then the number in base 58. */
  ghost function Encoded(x: seq<nat>): seq<nat> {
    var z := Leading(x, 0);
    Fill(ONE, z) + Chars(HighFirst(58, Number(256, x[z..])))
  }

  lemma {:induction false} EmptyBuffer(base: nat, b: seq<nat>)
    requires base >= 2 && forall i :: 0 <= i < |b| ==> b[i] == 0
    ensures Uses(base, b, 0) && Number(base, b) == 0 && Number(base, []) == 0
  {
    assert Reverse(b)[..0] == [] && Reverse<nat>([]) == [];
    ValueZeros(base, Reverse(b), 0);
  }

  /** The buffer from any place before which it is zero. */
  lemma {:induction false} BufferTail(base: nat, b: seq<nat>, at: nat)
    requires at <= |b| && forall i :: 0 <= i < at ==> b[i] == 0
    ensures Number(base, b[at..]) == Number(base, b)
  {
    var t := Reverse(b);
    ValueZeros(base, t, |b| - at);
    assert Reverse(b[at..]) == t[..|b| - at];
  }

  lemma {:induction false} RoomFor(x: seq<nat>, z: nat, p: nat, size: nat)
    requires Digits(256, x) && z <= p < |x| && size == (|x| - z) * 138 / 100 + 1
    ensures x[z..p + 1] == x[z..p] + [x[p]]
    ensures Number(256, x[z..p + 1]) == 256 * Number(256, x[z..p]) + x[p] < Pow(58, size)
  {
    hide Pow, Value;
    NumberMore(256, x[z..p], x[p]);
    assert x[z..p + 1] == x[z..p] + [x[p]];
    NumberBound(256, x[z..p + 1]);
    PowMono(256, p + 1 - z, |x| - z);
    EncodeFits(|x| - z);
  }

  method EncodeBase58(input: seq<nat>) returns (str: seq<nat>)
    requires Digits(256, input)
    ensures str == Encoded(input)
  {
    hide Value, Pow, Uses;
    var zeroes := 0;
    while zeroes < |input| && input[zeroes] == 0
      invariant 0 <= zeroes <= |input| && forall i :: 0 <= i < zeroes ==> input[i] == 0
    {
      zeroes := zeroes + 1;
    }
    LeadingIs(input, 0, zeroes);
    var size := (|input| - zeroes) * 138 / 100 + 1;
    var b58 := new nat[size](i => 0);
    EmptyBuffer(58, b58[..]);
    EmptyBuffer(256, []);
    var length, p := 0, zeroes;
    assert input[p..p] == [];
    while p < |input|
      invariant zeroes <= p <= |input| && Uses(58, b58[..], length)
      invariant Number(58, b58[..]) == Number(256, input[zeroes..p])
    {
      RoomFor(input, zeroes, p, size);
      length := MultiplyAdd(b58, 58, 256, input[p], length);
      p := p + 1;
    }
    assert input[zeroes..|input|] == input[zeroes..];
    str := Translate(b58, length, zeroes);
  }

  /** The text of the number in the buffer. */
  method Translate(b58: array<nat>, length: nat, zeroes: nat) returns (str: seq<nat>)
    requires Uses(58, b58[..], length)
    ensures str == Fill(ONE, zeroes) + Chars(HighFirst(58, Number(58, b58[..])))
  {
    hide Value, Uses, Number, HighFirst;
    UsesIs(58, b58[..], length);
    var size, at := b58.Length, b58.Length - length;
    while at < size && b58[at] == 0
      invariant size - length <= at <= size && forall i :: 0 <= i < at ==> b58[i] == 0
    {
      at := at + 1;
    }
    BufferTail(58, b58[..], at);
    HighFirstUnique(58, b58[at..]);
    str := Fill(ONE, zeroes);
    ghost var start := at;
    while at < size
      invariant start <= at <= size && Digits(58, b58[start..at]) && str == Fill(ONE, zeroes) + Chars(b58[start..at])
    {
      assert b58[start..at + 1] == b58[start..at] + [b58[at]];
      str := str + [CharOf(b58[at])];
      at := at + 1;
    }
    assert b58[start..size] == b58[start..];
  }

  lemma UsesIs(base: nat, b: seq<nat>, length: nat)
    requires Uses(base, b, length)
    ensures length <= |b| && Digits(base, b) && forall i :: 0 <= i < |b| - length ==> b[i] == 0
  {
    forall i | 0 <= i < |b| - length
      ensures b[i] == 0
    {
      assert Reverse(b)[|b| - 1 - i] == 0;
    }
  }

  // ---------------------------------------------------------------------------------------
  // Reading text

  /** How many spaces s starts with. */
  function SpaceCount(s: seq<nat>): (n: nat)
    ensures n <= |s| && (n < |s| ==> !IsSpace(s[n])) && forall i :: 0 <= i < n ==> IsSpace(s[i])
  {
    if s != [] && IsSpace(s[0]) then 1 + SpaceCount(s[1..]) else 0
  }

  /** How many characters come before the next space. */
  function WordLength(s: seq<nat>): (n: nat)
    ensures n <= |s| && (n < |s| ==> IsSpace(s[n])) && forall i :: 0 <= i < n ==> !IsSpace(s[i])
  {
    if s != [] && !IsSpace(s[0]) then 1 + WordLength(s[1..]) else 0
  }

  predicate InAlphabet(s: seq<nat>) {
    forall i :: 0 <= i < |s| ==> DigitOf(s[i]) != -1
  }

  predicate AllSpaces(s: seq<nat>) {
    forall i :: 0 <= i < |s| ==> IsSpace(s[i])
  }

  function DigitsIn(s: seq<nat>): (d: seq<nat>)
    requires InAlphabet(s)
    ensures |d| == |s| && Digits(58, d) && forall i :: 0 <= i < |s| ==> d[i] == DigitOf(s[i])
  {
    seq(|s|, i requires 0 <= i < |s| => DigitOf(s[i]) as nat)
  }

  /** A zero byte for every leading one of the word, then the bytes of its number; spaces around
      the word do not matter. Nothing if there is anything else, or if it is too long. */
  ghost function Decoded(str: seq<nat>, maxLen: int): Option<seq<nat>> {
    var s := str[SpaceCount(str)..];
    var z := Leading(s, ONE);
    var t := s[z..];
    var n := WordLength(t);
    if 0 in str || !InAlphabet(t[..n]) || !AllSpaces(t[n..]) then None
    else
      var bytes := Fill(0, z) + HighFirst(256, Number(58, DigitsIn(t[..n])));
      if bytes != [] && |bytes| > maxLen then None else Some(bytes)
  }

  lemma {:induction false} SpaceCountIs(s: seq<nat>, n: nat)
    requires n <= |s| && (n < |s| ==> !IsSpace(s[n])) && forall i :: 0 <= i < n ==> IsSpace(s[i])
    ensures SpaceCount(s) == n
  {
  }

  lemma {:induction false} WordLengthIs(s: seq<nat>, n: nat)
    requires n <= |s| && (n < |s| ==> IsSpace(s[n])) && forall i :: 0 <= i < n ==> !IsSpace(s[i])
    ensures WordLength(s) == n
  {
  }

  /** More digits never make the number smaller. */
  lemma {:induction false} NumberGrows(d: seq<nat>, k: nat)
    requires k <= |d|
    ensures Number(58, d[..k]) <= Number(58, d)
  {
    if k < |d| {
      var n := |d| - 1;
      NumberGrows(d[..n], k);
      assert d[..n][..k] == d[..k] && d == d[..n] + [d[n]];
      NumberMore(58, d[..n], d[n]);
    } else {
      assert d[..k] == d;
    }
  }

  lemma {:induction false} NumberPositive(d: seq<nat>)
    requires d != [] && d[0] != 0 && Digits(58, d)
    ensures Number(58, d) > 0
  {
    NumberGrows(d, 1);
    NumberMore(58, [], d[0]);
    assert d[..1] == [] + [d[0]];
  }

  lemma {:induction false} HighFirstGrows(v: nat, w: nat)
    requires v <= w
    ensures |HighFirst(256, v)| <= |HighFirst(256, w)|
  {
    DigitsOfAre(256, v);
    DigitsOfAre(256, w);
    MinimalLength(256, DigitsOf(256, v), DigitsOf(256, w));
  }

  /** The used part of the buffer holds the minimal digits. */
  lemma {:induction false} UsedDigits(b: seq<nat>, length: nat)
    requires Uses(256, b, length)
    ensures HighFirst(256, Number(256, b)) == b[|b| - length..]
  {
    hide Value;
    UsesIs(256, b, length);
    BufferTail(256, b, |b| - length);
    assert length > 0 ==> Reverse(b)[..length][length - 1] == b[|b| - length];
    HighFirstUnique(256, b[|b| - length..]);
  }

  lemma {:induction false} RoomForDigit(d: seq<nat>, x: nat, m: nat, size: nat)
    requires Digits(58, d) && x < 58 && |d| < m && size == m * 733 / 1000 + 1
    ensures Number(58, d + [x]) == 58 * Number(58, d) + x < Pow(256, size)
  {
    hide Pow, Value;
    NumberMore(58, d, x);
    NumberBound(58, d + [x]);
    PowMono(58, |d| + 1, m);
    DecodeFits(m);
  }

  /** After spaces, z ones and then t, which starts with a word of length n. */
  ghost predicate Parsed(str: seq<nat>, z: nat, t: seq<nat>, n: nat) {
    z == Leading(str[SpaceCount(str)..], ONE) && t == str[SpaceCount(str)..][z..] && n == WordLength(t)
  }

  /** Once the length so far is over the limit, so is the final one. */
  lemma {:induction false} TooLong(str: seq<nat>, maxLen: int, z: nat, t: seq<nat>, n: nat, k: nat, b: seq<nat>,
      length: nat)
    requires Parsed(str, z, t, n)
    requires 0 < k <= n && InAlphabet(t[..k]) && Uses(256, b, length) && Number(256, b) == Number(58, DigitsIn(t[..k]))
    requires length + z > maxLen
    ensures Decoded(str, maxLen) == None
  {
    hide Value, HighFirst, Number;
    if InAlphabet(t[..n]) {
      var d := DigitsIn(t[..n]);
      assert d[..k] == DigitsIn(t[..k]);
      NumberGrows(d, k);
      UsedDigits(b, length);
      HighFirstGrows(Number(58, d[..k]), Number(58, d));
      FirstDigit(str, z, t, n);
    }
  }

  lemma {:induction false} FirstDigit(str: seq<nat>, z: nat, t: seq<nat>, n: nat)
    requires Parsed(str, z, t, n)
    requires 0 < n && InAlphabet(t[..n])
    ensures HighFirst(256, Number(58, DigitsIn(t[..n]))) != []
  {
    hide Value;
    var d := DigitsIn(t[..n]);
    assert t[0] == str[SpaceCount(str)..][z] && t[..n][0] == t[0];
    NumberPositive(d);
    NoDigits(256);
    assert Reverse<nat>([]) == [];
  }

  /** Converts the digits of a word into the buffer. */
  method ReadWord(str: seq<nat>, maxLen: int, zeroes: nat, t: seq<nat>, ghost n: nat, b256: array<nat>)
      returns (ok: bool, p: nat, length: nat)
    requires Parsed(str, zeroes, t, n) && b256.Length == |t| * 733 / 1000 + 1 && forall i :: 0 <= i < b256.Length ==>
        b256[i] == 0
    modifies b256
    ensures !ok ==> Decoded(str, maxLen) == None
    ensures ok ==>
        p == n && InAlphabet(t[..n]) && Uses(256, b256[..], length)
        && Number(256, b256[..]) == Number(58, DigitsIn(t[..n]))
    ensures ok && n > 0 ==> length + zeroes <= maxLen
  {
    hide Value, Pow, Uses, Number, Decoded, Parsed, SpaceCount, Leading, WordLength, CharOf, HighFirst;
    WordIs(str, zeroes, t, n);
    EmptyBuffer(256, b256[..]);
    EmptyBuffer(58, []);
    p, length := 0, 0;
    assert t[..0] == [] && DigitsIn([]) == [];
    while p < |t| && !IsSpace(t[p])
      invariant 0 <= p <= n <= |t| && InAlphabet(t[..p]) && Uses(256, b256[..], length)
      invariant Number(256, b256[..]) == Number(58, DigitsIn(t[..p]))
      invariant p > 0 ==> length + zeroes <= maxLen
    {
      var digit := DigitOf(t[p]);
      if digit == -1 {
        BadCharacter(str, maxLen, zeroes, t, n, p);
        return false, p, length;
      }
      assert t[..p + 1] == t[..p] + [t[p]] && DigitsIn(t[..p + 1]) == DigitsIn(t[..p]) + [digit];
      RoomForDigit(DigitsIn(t[..p]), digit, |t|, b256.Length);
      length := MultiplyAdd(b256, 256, 58, digit, length);
      p := p + 1;
      if length + zeroes > maxLen {
        TooLong(str, maxLen, zeroes, t, n, p, b256[..], length);
        return false, p, length;
      }
    }
    ok := true;
  }

  lemma WordIs(str: seq<nat>, z: nat, t: seq<nat>, n: nat)
    requires Parsed(str, z, t, n)
    ensures n == WordLength(t)
  {
  }

  lemma BadCharacter(str: seq<nat>, maxLen: int, z: nat, t: seq<nat>, n: nat, p: nat)
    requires Parsed(str, z, t, n) && p < n && DigitOf(t[p]) == -1
    ensures Decoded(str, maxLen) == None
  {
    assert t[..n][p] == t[p];
  }

  method DecodeBase58(str: seq<nat>, maxLen: int) returns (r: Option<seq<nat>>)
    ensures r == Decoded(str, maxLen)
  {
    hide Value, Uses, Number, HighFirst, Decoded;
    if 0 in str {
      HasNul(str, maxLen);
      return None;
    }
    var p := 0;
    while p < |str| && IsSpace(str[p])
      invariant 0 <= p <= |str| && forall i :: 0 <= i < p ==> IsSpace(str[i])
    {
      p := p + 1;
    }
    SpaceCountIs(str, p);
    var s := str[p..];
    var zeroes := 0;
    while zeroes < |s| && s[zeroes] == ONE
      invariant 0 <= zeroes <= |s| && (forall i :: 0 <= i < zeroes ==> s[i] == ONE) && (zeroes > 0 ==> zeroes <= maxLen)
    {
      zeroes := zeroes + 1;
      if zeroes > maxLen {
        ManyOnes(s, zeroes);
        OnesTooLong(str, maxLen);
        return None;
      }
    }
    LeadingIs(s, ONE, zeroes);
    r := DecodeRest(str, maxLen, zeroes, s[zeroes..]);
  }

  /** What follows the leading ones. */
  method DecodeRest(str: seq<nat>, maxLen: int, zeroes: nat, t: seq<nat>) returns (r: Option<seq<nat>>)
    requires 0 !in str && Parsed(str, zeroes, t, WordLength(t)) && (zeroes > 0 ==> zeroes <= maxLen)
    ensures r == Decoded(str, maxLen)
  {
    hide Value, Uses, Number, HighFirst, Decoded, Parsed, SpaceCount, Leading;
    ghost var n := WordLength(t);
    var b256 := new nat[|t| * 733 / 1000 + 1](i => 0);
    var ok, at, length := ReadWord(str, maxLen, zeroes, t, n, b256);
    if !ok {
      return None;
    }
    while at < |t| && IsSpace(t[at])
      invariant n <= at <= |t| && forall i :: n <= i < at ==> IsSpace(t[i])
    {
      at := at + 1;
    }
    if at < |t| {
      MoreThanSpaces(str, maxLen, zeroes, t, n, at);
      return None;
    }
    UsesIs(256, b256[..], length);
    UsedDigits(b256[..], length);
    NoWord(t, n, b256[..], length);
    DecodedIs(str, maxLen, zeroes, t, n);
    return Some(Fill(0, zeroes) + b256[b256.Length - length..]);
  }

  lemma HasNul(str: seq<nat>, maxLen: int)
    requires 0 in str
    ensures Decoded(str, maxLen) == None
  {
  }

  lemma OnesTooLong(str: seq<nat>, maxLen: int)
    requires Leading(str[SpaceCount(str)..], ONE) > 0 && Leading(str[SpaceCount(str)..], ONE) > maxLen
    ensures Decoded(str, maxLen) == None
  {
    hide Number, HighFirst;
  }

  lemma MoreThanSpaces(str: seq<nat>, maxLen: int, z: nat, t: seq<nat>, n: nat, at: nat)
    requires Parsed(str, z, t, n) && n <= at < |t| && !IsSpace(t[at])
    ensures Decoded(str, maxLen) == None
  {
    hide Number, HighFirst, DigitsIn, Leading, SpaceCount, WordLength, InAlphabet;
    assert t[n..][at - n] == t[at];
  }

  lemma DecodedIs(str: seq<nat>, maxLen: int, z: nat, t: seq<nat>, n: nat)
    requires 0 !in str && Parsed(str, z, t, n) && InAlphabet(t[..n]) && (forall i :: n <= i < |t| ==> IsSpace(t[i]))
    ensures var bytes := Fill(0, z) + HighFirst(256, Number(58, DigitsIn(t[..n])));
            bytes == [] || |bytes| <= maxLen ==> Decoded(str, maxLen) == Some(bytes)
  {
    hide Number, HighFirst;
  }

  lemma ManyOnes(s: seq<nat>, k: nat)
    requires k <= |s| && forall i :: 0 <= i < k ==> s[i] == ONE
    ensures Leading(s, ONE) >= k
  {
  }

  lemma {:induction false} NoWord(t: seq<nat>, n: nat, b: seq<nat>, length: nat)
    requires n <= |t| && InAlphabet(t[..n]) && Uses(256, b, length) && Number(256, b) == Number(58, DigitsIn(t[..n]))
    ensures n == 0 ==> length == 0
  {
    hide Value;
    if n == 0 {
      assert DigitsIn(t[..n]) == [] && Reverse<nat>([]) == [];
      NoDigits(58);
      UsedDigits(b, length);
      assert DigitsOf(256, 0) == [];
    }
  }

  // ---------------------------------------------------------------------------------------
  // There and back

  /** The characters of digits read back. */
  lemma {:induction false} CharsRead(d: seq<nat>)
    requires Digits(58, d)
    ensures var c := Chars(d);
            && InAlphabet(c) && DigitsIn(c) == d && 0 !in c && WordLength(c) == |c|
            && (c != [] ==> !IsSpace(c[0]) && (c[0] == ONE <==> d[0] == 0))
  {
    var c := Chars(d);
    forall i | 0 <= i < |c|
      ensures DigitOf(c[i]) == d[i] && c[i] != 0 && !IsSpace(c[i]) && (c[i] == ONE <==> d[i] == 0)
    {
      AlphabetRoundTrip(d[i]);
    }
    hide DigitOf, IsSpace, CharOf;
    WordLengthIs(c, |c|);
  }

  lemma {:induction false} EncodedParsed(z: nat, d: seq<nat>)
    requires Digits(58, d) && (d != [] ==> d[0] != 0)
    ensures var str := Fill(ONE, z) + Chars(d); 0 !in str && Parsed(str, z, Chars(d), |d|)
  {
    CharsRead(d);
    var c := Chars(d);
    var str := Fill(ONE, z) + c;
    hide Chars, WordLength, DigitsIn, InAlphabet;
    SpaceCountIs(str, 0);
    assert str[0..] == str;
    LeadingIs(str, ONE, z);
    assert str[z..] == c;
  }

  /** Decoding the text of any bytes, with any limit that they keep, gives them back. */
  lemma {:induction false} RoundTrip(x: seq<nat>, maxLen: int)
    requires Digits(256, x) && |x| <= maxLen
    ensures Decoded(Encoded(x), maxLen) == Some(x)
  {
    hide Number, HighFirst, Decoded, Parsed, Chars, DigitsIn;
    var z := Leading(x, 0);
    var rest := x[z..];
    var d := HighFirst(58, Number(256, rest));
    EncodedParsed(z, d);
    CharsRead(d);
    assert Chars(d)[..|d|] == Chars(d);
    DecodedIs(Encoded(x), maxLen, z, Chars(d), |d|);
    HighFirstUnique(256, rest);
    assert x == Fill(0, z) + rest;
  }

  /** The text without the spaces around it. */
  ghost function Trimmed(str: seq<nat>): seq<nat> {
    var s := str[SpaceCount(str)..];
    s[..WordLength(s)]
  }

  lemma DigitRoundTrip(c: nat)
    requires DigitOf(c) != -1
    ensures 0 <= DigitOf(c) < 58 && CharOf(DigitOf(c)) == c && (DigitOf(c) == 0 <==> c == ONE)
  {
  }

  /** The digits of a word written again. */
  lemma {:induction false} WordWritten(w: seq<nat>)
    requires InAlphabet(w)
    ensures Chars(DigitsIn(w)) == w && (w != [] ==> (DigitsIn(w)[0] == 0 <==> w[0] == ONE))
  {
    forall i | 0 <= i < |w|
      ensures CharOf(DigitsIn(w)[i]) == w[i] && (DigitsIn(w)[i] == 0 <==> w[i] == ONE)
    {
      DigitRoundTrip(w[i]);
    }
  }

  lemma {:induction false} EncodedIs(z: nat, h: seq<nat>)
    requires Digits(256, h) && (h != [] ==> h[0] != 0)
    ensures Encoded(Fill(0, z) + h) == Fill(ONE, z) + Chars(HighFirst(58, Number(256, h)))
  {
    hide Number, HighFirst, Chars;
    var x := Fill(0, z) + h;
    LeadingIs(x, 0, z);
    assert x[z..] == h;
  }

  lemma {:induction false} TrimmedIs(str: seq<nat>, z: nat, t: seq<nat>, n: nat)
    requires Parsed(str, z, t, n)
    ensures Trimmed(str) == Fill(ONE, z) + t[..n] && str[SpaceCount(str) + |Trimmed(str)|..] == t[n..]
  {
    hide SpaceCount, WordLength, Leading;
    var s := str[SpaceCount(str)..];
    assert forall i :: 0 <= i < |t| ==> s[z + i] == t[i];
    WordLengthIs(s, z + n);
    assert s[..z + n] == Fill(ONE, z) + t[..n];
    assert str[SpaceCount(str) + (z + n)..] == t[n..];
  }

  lemma {:induction false} TextOf(z: nat, w: seq<nat>)
    requires InAlphabet(w) && (w != [] ==> w[0] != ONE)
    ensures var h := HighFirst(256, Number(58, DigitsIn(w)));
        Digits(256, h) && Encoded(Fill(0, z) + h) == Fill(ONE, z) + w
  {
    hide Number, HighFirst, Chars, DigitsIn, InAlphabet, Encoded;
    WordWritten(w);
    HighFirstUnique(58, DigitsIn(w));
    EncodedIs(z, HighFirst(256, Number(58, DigitsIn(w))));
  }

  /** Whatever is decoded was written as its text is, up to spaces around it: no bytes have two texts. */
  lemma {:induction false} DecodedBack(str: seq<nat>, maxLen: int, x: seq<nat>)
    requires Decoded(str, maxLen) == Some(x)
    ensures Digits(256, x) && Encoded(x) == Trimmed(str) && (x == [] || |x| <= maxLen)
    ensures AllSpaces(str[SpaceCount(str) + |Trimmed(str)|..])
  {
    hide Number, HighFirst, DigitsIn, Encoded, Trimmed, SpaceCount, WordLength, Leading, InAlphabet, AllSpaces;
    var s := str[SpaceCount(str)..];
    var z := Leading(s, ONE);
    var t := s[z..];
    var n := WordLength(t);
    TrimmedIs(str, z, t, n);
    assert t[..n] != [] ==> t[..n][0] == s[z];
    TextOf(z, t[..n]);
  }
}
