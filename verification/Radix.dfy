/** Digits of numbers in any base, lowest first. */
module Radix {
  import opened LimbNumbers

  function Pow(base: nat, n: nat): nat {
    if n == 0 then 1 else Pow(base, n - 1) * base
  }

  lemma {:induction false} PowAdd(base: nat, m: nat, n: nat)
    ensures Pow(base, m + n) == Pow(base, m) * Pow(base, n)
  {
    if n > 0 {
      PowAdd(base, m, n - 1);
      Reorder(Pow(base, m), Pow(base, n - 1), base);
    }
  }

  lemma {:induction false} PowPositive(base: nat, n: nat)
    requires base >= 1
    ensures Pow(base, n) >= 1
  {
    if n > 0 {
      PowPositive(base, n - 1);
      MulMono(1, Pow(base, n - 1), base);
    }
  }

  lemma {:induction false} PowMono(base: nat, m: nat, n: nat)
    requires base >= 1 && m <= n
    ensures Pow(base, m) <= Pow(base, n)
  {
    if m < n {
      PowMono(base, m, n - 1);
      MulMono(1, base, Pow(base, n - 1));
      assert Pow(base, n - 1) * base == base * Pow(base, n - 1);
    }
  }

  predicate Digits(base: nat, s: seq<nat>) {
    forall i :: 0 <= i < |s| ==> s[i] < base
  }

  ghost function Value(base: nat, s: seq<nat>): nat {
    if s == [] then 0 else Value(base, s[..|s| - 1]) + s[|s| - 1] * Pow(base, |s| - 1)
  }

  lemma {:induction false} ValueTake(base: nat, s: seq<nat>, i: nat)
    requires i < |s|
    ensures Value(base, s[..i + 1]) == Value(base, s[..i]) + s[i] * Pow(base, i)
  {
    assert s[..i + 1][..i] == s[..i];
  }

  lemma {:induction false} ValueNext(base: nat, s: seq<nat>, x: nat)
    ensures Value(base, s + [x]) == Value(base, s) + x * Pow(base, |s|)
  {
    assert (s + [x])[..|s|] == s;
  }

  lemma {:induction false} ValueBound(base: nat, s: seq<nat>)
    requires base >= 1 && Digits(base, s)
    ensures Value(base, s) < Pow(base, |s|)
  {
    if s != [] {
      var n := |s| - 1;
      ValueBound(base, s[..n]);
      hide Value;
      Distribute(s[n], 1, Pow(base, n));
      MulMono(s[n] + 1, base, Pow(base, n));
      assert base * Pow(base, n) == Pow(base, n) * base;
      ValueTake(base, s, n);
      assert s[..n + 1] == s;
    }
  }

  lemma {:induction false} ValueZeros(base: nat, s: seq<nat>, n: nat)
    requires n <= |s| && forall i :: n <= i < |s| ==> s[i] == 0
    ensures Value(base, s) == Value(base, s[..n])
  {
    if n < |s| {
      ValueZeros(base, s[..|s| - 1], n);
      assert s[..|s| - 1][..n] == s[..n];
    } else {
      assert s[..n] == s;
    }
  }

  /** No superfluous zero at the top. */
  predicate Minimal(s: seq<nat>) {
    s == [] || s[|s| - 1] != 0
  }

  lemma {:induction false} MinimalBounds(base: nat, s: seq<nat>)
    requires base >= 1 && Digits(base, s) && Minimal(s)
    ensures Value(base, s) < Pow(base, |s|) && (s != [] ==> Pow(base, |s| - 1) <= Value(base, s))
  {
    ValueBound(base, s);
    if s != [] {
      PowPositive(base, |s| - 1);
      MulMono(1, s[|s| - 1], Pow(base, |s| - 1));
    }
  }

  /** Minimal digits are determined by the value. */
  lemma {:induction false} MinimalUnique(base: nat, s: seq<nat>, t: seq<nat>)
    requires base >= 1 && Digits(base, s) && Digits(base, t) && Minimal(s) && Minimal(t)
    requires Value(base, s) == Value(base, t)
    ensures s == t
  {
    MinimalLength(base, s, t);
    MinimalLength(base, t, s);
    SameDigits(base, s, t);
  }

  lemma {:induction false} MinimalLength(base: nat, s: seq<nat>, t: seq<nat>)
    requires base >= 1 && Digits(base, s) && Digits(base, t) && Minimal(s) && Minimal(t)
    requires Value(base, s) <= Value(base, t)
    ensures |s| <= |t|
  {
    hide Value, Pow;
    MinimalBounds(base, s);
    MinimalBounds(base, t);
    if |s| > |t| {
      PowMono(base, |t|, |s| - 1);
    }
  }

  lemma {:induction false} TopDigit(p: nat, a: nat, x: nat, b: nat, y: nat)
    requires a < p && b < p && a + x * p == b + y * p
    ensures x == y && a == b
  {
    var v := a + x * p;
    ModUnique(v, p, x, a);
    ModUnique(v, p, y, b);
  }

  /** Numbers of one length that are equal have the same top digit and the same rest. */
  lemma {:induction false} SameTop(base: nat, s: seq<nat>, t: seq<nat>, n: nat)
    requires base >= 1 && Digits(base, s) && Digits(base, t) && |s| == |t| == n + 1
    requires Value(base, s) == Value(base, t)
    ensures s[n] == t[n] && Value(base, s[..n]) == Value(base, t[..n])
  {
    ValueBound(base, s[..n]);
    ValueBound(base, t[..n]);
    TopDigit(Pow(base, n), Value(base, s[..n]), s[n], Value(base, t[..n]), t[n]);
  }

  lemma {:induction false} SameDigits(base: nat, s: seq<nat>, t: seq<nat>)
    requires base >= 1 && Digits(base, s) && Digits(base, t) && |s| == |t| && Value(base, s) == Value(base, t)
    ensures s == t
  {
    hide Value;
    if s != [] {
      var n := |s| - 1;
      SameTop(base, s, t, n);
      SameDigits(base, s[..n], t[..n]);
      assert s == s[..n] + [s[n]] && t == t[..n] + [t[n]];
    }
  }

  /** One digit with its carry, as in multiplying by a factor and adding. */
  lemma {:induction false} DigitStep(v: int, c: int, p: int, base: nat, x: int, n: nat)
    requires base >= 1 && v + c * p == x
    ensures v + (n % base) * p + (n / base) * (p * base) == x + (n - c) * p
  {
    DivMod(n, base);
    Reorder(n / base, base, p);
    Distribute(n % base, (n / base) * base, p);
    Distribute(n - c, c, p);
  }
}
