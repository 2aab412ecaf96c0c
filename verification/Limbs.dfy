/** Numbers as little-endian sequences of 32-bit limbs, and the bit operations on limbs. */
module LimbNumbers {

  const BASE: nat := 0x1_0000_0000

  function Pow2(n: nat): (r: nat)
    ensures r >= 1
  {
    if n == 0 then 1 else 2 * Pow2(n - 1)
  }

  lemma {:induction false} Pow2Add(a: nat, b: nat)
    ensures Pow2(a + b) == Pow2(a) * Pow2(b)
  {
    if b > 0 {
      Pow2Add(a, b - 1);
      assert Pow2(a + b) == 2 * Pow2(a + (b - 1));
      assert 2 * (Pow2(a) * Pow2(b - 1)) == Pow2(a) * (2 * Pow2(b - 1));
    }
  }

  lemma Pow2Small()
    ensures Pow2(8) == 0x100 && Pow2(16) == 0x1_0000 && Pow2(32) == BASE
  {
    assert Pow2(4) == 16;
    Pow2Add(4, 4);
    Pow2Add(8, 8);
    Pow2Add(16, 16);
  }

  lemma {:induction false} Pow2Mono(a: nat, b: nat)
    requires a <= b
    ensures Pow2(a) <= Pow2(b)
  {
    if a < b {
      Pow2Mono(a, b - 1);
    }
  }

  /** The weight of limb i. */
  ghost function Weight(i: nat): (r: nat)
    ensures r >= 1
  {
    Pow2(32 * i)
  }

  lemma {:induction false} WeightStep(i: nat)
    ensures Weight(0) == 1 && Weight(i + 1) == Weight(i) * BASE
  {
    Pow2Add(32 * i, 32);
    Pow2Small();
  }

  lemma {:induction false} WeightAdd(i: nat, j: nat)
    ensures Weight(i + j) == Weight(i) * Weight(j)
  {
    Pow2Add(32 * i, 32 * j);
  }

  // ---------------------------------------------------------------------------------------
  // Values

  predicate Limbs(s: seq<nat>) {
    forall i :: 0 <= i < |s| ==> s[i] < BASE
  }

  ghost function Val(s: seq<nat>): nat {
    if s == [] then 0 else Val(s[..|s| - 1]) + s[|s| - 1] * Weight(|s| - 1)
  }

  lemma {:induction false} ValTake(s: seq<nat>, i: nat)
    requires i < |s|
    ensures Val(s[..i + 1]) == Val(s[..i]) + s[i] * Weight(i)
  {
    assert s[..i + 1][..i] == s[..i];
  }

  lemma {:induction false} ValBound(s: seq<nat>)
    requires Limbs(s)
    ensures Val(s) < Weight(|s|)
  {
    if s == [] {
      WeightStep(0);
    } else {
      var r, x, w := s[..|s| - 1], s[|s| - 1], Weight(|s| - 1);
      ValBound(r);
      WeightStep(|s| - 1);
      MulMono(x + 1, BASE, w);
      Distribute(x, 1, w);
    }
  }

  lemma MulMono(a: nat, b: nat, w: nat)
    requires a <= b
    ensures a * w <= b * w
  {
  }

  lemma Distribute(a: int, b: int, w: int)
    ensures (a + b) * w == a * w + b * w
  {
  }

  lemma {:induction false} ValZero(s: seq<nat>)
    requires forall i :: 0 <= i < |s| ==> s[i] == 0
    ensures Val(s) == 0
  {
    if s != [] {
      ValZero(s[..|s| - 1]);
    }
  }

  lemma {:induction false} ValUpdate(s: seq<nat>, i: nat, x: nat)
    requires i < |s|
    ensures Val(s[i := x]) == Val(s) + (x - s[i]) * Weight(i)
  {
    var n := |s| - 1;
    if i < n {
      ValUpdate(s[..n], i, x);
      assert s[i := x][..n] == s[..n][i := x];
    } else {
      assert s[i := x][..n] == s[..n];
      Distribute(x - s[i], s[i], Weight(i));
    }
  }

  lemma AppendStep(a: int, v: int, x: int, w: int, u: int)
    ensures a + v * u + x * (u * w) == a + (v + x * w) * u
  {
    Distribute(v, x * w, u);
    Reorder(x, w, u);
  }

  lemma Reorder(x: int, w: int, u: int)
    ensures x * w * u == x * (u * w) == x * (w * u)
  {
  }

  lemma {:induction false} ValAppend(a: seq<nat>, b: seq<nat>)
    ensures Val(a + b) == Val(a) + Val(b) * Weight(|a|)
  {
    if b == [] {
      assert a + b == a;
    } else {
      var n := |b| - 1;
      ValAppend(a, b[..n]);
      assert (a + b)[..|a + b| - 1] == a + b[..n];
      WeightAdd(|a|, n);
      hide Val, Weight;
      AppendStep(Val(a), Val(b[..n]), b[n], Weight(n), Weight(|a|));
    }
  }

  /** What remains modulo the size of the number. */
  lemma {:induction false} ModIs(v: nat, k: int, w: nat, x: int)
    requires v < w && v + k * w == x
    ensures x % w == v
  {
    assert x - v == k * w;
    ModUnique(x, w, k, v);
  }

  lemma {:induction false} ModUnique(x: int, w: nat, q: int, v: nat)
    requires 0 <= v < w && x == q * w + v
    ensures x % w == v && x / w == q
  {
    var e, m := x / w, x % w;
    DivMod(x, w);
    Distribute(e - q, q, w);
    SmallMultiple(e - q, w, v - m);
  }

  lemma DivMod(x: int, w: nat)
    requires w > 0
    ensures x == (x / w) * w + x % w && 0 <= x % w < w
  {
  }

  lemma SmallMultiple(d: int, w: int, e: int)
    requires w > 0 && d * w == e && 0 - w < e < w
    ensures d == 0
  {
    Distribute(d - 1, 1, w);
    Distribute(d + 1, -1, w);
    SignOf(d - 1, w);
    SignOf(-1 - d, w);
    assert (-1 - d) * w == -((d + 1) * w);
  }

  lemma SignOf(d: int, w: int)
    requires w > 0
    ensures d >= 0 ==> d * w >= 0
  {
  }

  // ---------------------------------------------------------------------------------------
  // Bits of limbs

  /** x | y */
  function Or(x: nat, y: nat): nat {
    if x == 0 then y else if y == 0 then x
    else 2 * Or(x / 2, y / 2) + (if x % 2 == 1 || y % 2 == 1 then 1 else 0)
  }

  /** Where no bit is set in both, or is plus. */
  lemma {:induction false} OrDisjoint(x: nat, y: nat, s: nat)
    requires y < Pow2(s) && x % Pow2(s) == 0
    ensures Or(x, y) == x + y
  {
    if s > 0 && x != 0 && y != 0 {
      var p := Pow2(s - 1);
      HalfMod(x, p);
      OrDisjoint(x / 2, y / 2, s - 1);
    }
  }

  lemma {:induction false} OrCommutes(x: nat, y: nat)
    ensures Or(x, y) == Or(y, x)
  {
    if x != 0 && y != 0 {
      OrCommutes(x / 2, y / 2);
    }
  }

  lemma {:induction false} HalfMod(x: nat, p: nat)
    requires p >= 1 && x % (2 * p) == 0
    ensures x % 2 == 0 && (x / 2) % p == 0
  {
    var q := x / (2 * p);
    assert x == q * (2 * p);
    assert q * (2 * p) == 2 * (q * p);
    assert x / 2 == q * p;
    ModUnique(q * p, p, q, 0);
  }

  /** x << s, in 32 bits */
  function Shl(x: nat, s: nat): nat {
    x * Pow2(s) % BASE
  }

  /** x >> s */
  function Shr(x: nat, s: nat): nat {
    Quotient(x, Pow2(s))
  }

  function Quotient(x: nat, p: nat): nat
    requires p >= 1
  {
    x / p
  }

  /** Bit n of x */
  predicate Bit(x: nat, n: nat) {
    Shr(x, n) % 2 == 1
  }

  /** A limb shifted to the left splits into what stays and what moves to the next limb. */
  lemma {:induction false} ShlSplit(x: nat, s: nat)
    requires x < BASE && s <= 32
    ensures x * Pow2(s) == Shr(x, 32 - s) * BASE + Shl(x, s)
    ensures Shl(x, s) < BASE && Shl(x, s) % Pow2(s) == 0 && Shr(x, 32 - s) < Pow2(s)
  {
    Pow2Small();
    Pow2Add(32 - s, s);
    hide Pow2;
    SplitAt(x, Pow2(s), Pow2(32 - s));
  }

  lemma {:induction false} SplitAt(x: nat, p: nat, q: nat)
    requires p >= 1 && q >= 1 && q * p == BASE && x < BASE
    ensures x * p == (x / q) * BASE + x * p % BASE
    ensures x * p % BASE < BASE && (x * p % BASE) % p == 0 && x / q < p
  {
    var h, l := x / q, x % q;
    DivMod(x, q);
    Distribute(h * q, l, p);
    Reorder(h, q, p);
    MulBelow(l, q, p);
    ModUnique(x * p, BASE, h, l * p);
    ModUnique(l * p, p, l, 0);
    QuotientBelow(x, q, p);
  }

  lemma {:induction false} QuotientBelow(x: nat, q: nat, p: nat)
    requires q >= 1 && x < q * p
    ensures 0 <= x / q < p
  {
    var h := x / q;
    DivMod(x, q);
    SignOf(h - p, q);
    Distribute(h - p, p, q);
    assert q * p == p * q;
    SignOf(-1 - h, q);
    Distribute(-1 - h, h, q);
  }

  lemma MulBelow(l: nat, q: nat, p: nat)
    requires l < q && p >= 1
    ensures l * p < q * p
  {
    assert l * p + p == (l + 1) * p;
    MulMono(l + 1, q, p);
  }
}
