/** Fee and size pairs, and their two orders (src/util/feefrac.h). Sums are unbounded
    integers: the program's callers guarantee that they do not overflow. */
module FeeFracs {

  datatype FeeFrac = FeeFrac(fee: int, size: nat) {
    predicate IsEmpty() { size == 0 }
  }

  const EMPTY := FeeFrac(0, 0)

  function Max(a: int, b: int): int { if a >= b then a else b }

  function Plus(a: FeeFrac, b: FeeFrac): FeeFrac {
    FeeFrac(a.fee + b.fee, a.size + b.size)
  }

  function Minus(a: FeeFrac, b: FeeFrac): FeeFrac
    requires b.size <= a.size
  {
    FeeFrac(a.fee - b.fee, a.size - b.size)
  }

  /** How much more fee `a` carries than a set of its size would at the feerate of `rate`,
      scaled by rate.size. Its sign is the feerate comparison of the program. */
  function Excess(a: FeeFrac, rate: FeeFrac): int {
    a.fee * rate.size - rate.fee * a.size
  }

  /** operator>>: strictly higher feerate. The empty pair is never higher nor lower. */
  predicate Higher(a: FeeFrac, b: FeeFrac) {
    a.fee * b.size > b.fee * a.size
  }

  /** operator>: higher feerate, or the same feerate and a smaller size. */
  predicate Better(a: FeeFrac, b: FeeFrac) {
    || a.fee * b.size > b.fee * a.size
    || (a.fee * b.size == b.fee * a.size && a.size < b.size)
  }

  lemma ExcessPlus(a: FeeFrac, b: FeeFrac, rate: FeeFrac)
    ensures Excess(Plus(a, b), rate) == Excess(a, rate) + Excess(b, rate)
  {
    assert (a.fee + b.fee) * rate.size == a.fee * rate.size + b.fee * rate.size;
    assert rate.fee * (a.size + b.size) == rate.fee * a.size + rate.fee * b.size;
  }

  lemma ExcessMinus(a: FeeFrac, b: FeeFrac, rate: FeeFrac)
    requires b.size <= a.size
    ensures Excess(Minus(a, b), rate) == Excess(a, rate) - Excess(b, rate)
  {
    hide Excess;
    ExcessPlus(Minus(a, b), b, rate);
  }

  lemma HigherIsExcess(a: FeeFrac, b: FeeFrac)
    ensures Higher(a, b) <==> Excess(a, b) > 0
    ensures Excess(b, a) == -Excess(a, b)
    ensures Excess(a, a) == 0
  {
  }

  /** The three-term relation between the feerates of a, b and c. */
  lemma {:induction false} ThreeTerm(a: FeeFrac, b: FeeFrac, c: FeeFrac)
    ensures Excess(a, c) * b.size == Excess(a, b) * c.size + Excess(b, c) * a.size
  {
    var af, az, bf, bz, cf, cz := a.fee, a.size, b.fee, b.size, c.fee, c.size;
    calc {
      (af * bz - bf * az) * cz + (bf * cz - cf * bz) * az;
      af * bz * cz - bf * az * cz + bf * cz * az - cf * bz * az;
      (af * cz - cf * az) * bz;
    }
  }

  /** Feerate comparison is transitive in every strictness. */
  lemma {:induction false} ExcessTransitive(a: FeeFrac, b: FeeFrac, c: FeeFrac)
    requires b.size > 0
    ensures Excess(a, b) <= 0 && Excess(b, c) <= 0 ==> Excess(a, c) <= 0
    ensures Excess(a, b) >= 0 && Excess(b, c) >= 0 ==> Excess(a, c) >= 0
    ensures Excess(a, b) < 0 && Excess(b, c) <= 0 && c.size > 0 ==> Excess(a, c) < 0
    ensures Excess(a, b) <= 0 && Excess(b, c) < 0 && a.size > 0 ==> Excess(a, c) < 0
    ensures Excess(a, b) > 0 && Excess(b, c) >= 0 && c.size > 0 ==> Excess(a, c) > 0
    ensures Excess(a, b) >= 0 && Excess(b, c) > 0 && a.size > 0 ==> Excess(a, c) > 0
  {
    hide *;
    ThreeTerm(a, b, c);
    SignOfSum(Excess(a, b), c.size, Excess(b, c), a.size, Excess(a, c), b.size);
  }

  lemma SignOfSum(x: int, p: nat, y: int, q: nat, z: int, r: nat)
    requires r > 0 && z * r == x * p + y * q
    ensures x <= 0 && y <= 0 ==> z <= 0
    ensures x >= 0 && y >= 0 ==> z >= 0
    ensures x < 0 && y <= 0 && p > 0 ==> z < 0
    ensures x <= 0 && y < 0 && q > 0 ==> z < 0
    ensures x > 0 && y >= 0 && p > 0 ==> z > 0
    ensures x >= 0 && y > 0 && q > 0 ==> z > 0
  {
    SignOfProduct(x, p);
    SignOfProduct(y, q);
    SignOfProduct(z, r);
  }

  lemma SignOfProduct(x: int, p: nat)
    ensures x <= 0 ==> x * p <= 0
    ensures x >= 0 ==> x * p >= 0
    ensures x < 0 && p > 0 ==> x * p < 0
    ensures x > 0 && p > 0 ==> x * p > 0
  {
  }

  /** A part whose feerate is at most that of the whole never has more excess than the whole,
      except where both fall below the rate. */
  lemma {:induction false} PartExcess(part: FeeFrac, whole: FeeFrac, rate: FeeFrac)
    requires part.size <= whole.size && whole.size > 0
    requires Excess(part, whole) <= 0
    ensures Excess(part, rate) <= Max(0, Excess(whole, rate))
    ensures Excess(part, whole) < 0 && rate.size > 0 && Excess(whole, rate) > 0
            ==> Excess(part, rate) < Excess(whole, rate)
  {
    hide *;
    ThreeTerm(part, whole, rate);
    SignOfPart(Excess(part, whole), rate.size, Excess(whole, rate), part.size, Excess(part, rate), whole.size);
    MaxIs(Excess(whole, rate));
  }

  lemma MaxIs(y: int)
    ensures Max(0, y) == if y <= 0 then 0 else y
  {
  }

  lemma {:induction false} SignOfPart(x: int, p: nat, y: int, q: nat, z: int, r: nat)
    requires r > 0 && q <= r && x <= 0 && z * r == x * p + y * q
    ensures z <= if y <= 0 then 0 else y
    ensures x < 0 && p > 0 && y > 0 ==> z < y
  {
    SignOfProduct(x, p);
    if y <= 0 {
      SignOfProduct(y, q);
      SignOfProduct(z, r);
    } else {
      assert y * r - y * q == y * (r - q);
      SignOfProduct(y, r - q);
      assert z * r - y * r == (z - y) * r;
      SignOfProduct(z - y, r);
    }
  }

  lemma BetterIs(a: FeeFrac, b: FeeFrac)
    ensures Better(a, b) <==> Excess(a, b) > 0 || (Excess(a, b) == 0 && a.size < b.size)
    ensures Excess(b, a) == -Excess(a, b)
  {
  }

  /** Being at least as good is transitive among non-empty pairs. */
  lemma {:induction false} NotBetterTransitive(a: FeeFrac, b: FeeFrac, c: FeeFrac)
    requires a.size > 0 && b.size > 0 && c.size > 0 && !Better(a, b) && !Better(b, c)
    ensures !Better(a, c)
  {
    hide Excess, Better;
    BetterIs(a, b);
    BetterIs(b, c);
    BetterIs(a, c);
    ExcessTransitive(a, b, c);
  }
}
