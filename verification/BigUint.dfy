/** Unsigned big integers of a fixed number of 32-bit limbs, changed in place
    (src/arith_uint256.h:24-240, src/arith_uint256.cpp:13-151). */
module BigUint {
  import opened LimbNumbers

  // ---------------------------------------------------------------------------------------
  // Carrying

  /** One limb with its carry: v is the value so far and c the carry at weight w, x stands for
      the exact value so far. */
  lemma {:induction false} CarryStep(v: int, c: int, w: nat, x: int, n: nat)
    requires v + c * w == x
    ensures v + (n % BASE) * w + (n / BASE) * (w * BASE) == x + (n - c) * w
  {
    DivMod(n, BASE);
    Reorder(n / BASE, BASE, w);
    Distribute(n % BASE, (n / BASE) * BASE, w);
    Distribute(n - c, c, w);
  }

  class BaseUint {
    const width: nat
    const pn: array<nat>

    ghost predicate Valid()
      reads pn
    {
      width >= 1 && pn.Length == width && Limbs(pn[..])
    }

    ghost function Value(): nat
      reads pn
    {
      Val(pn[..])
    }

    ghost function Modulus(): nat { Weight(width) }

    constructor (width: nat)
      requires width >= 1
      ensures Valid() && this.width == width && fresh(pn) && Value() == 0
    {
      this.width := width;
      pn := new nat[width](i => 0);
      new;
      ValZero(pn[..]);
    }

    constructor Copy(b: BaseUint)
      requires b.Valid()
      ensures Valid() && width == b.width && fresh(pn) && Value() == b.Value() && pn[..] == b.pn[..]
    {
      width := b.width;
      pn := new nat[b.width];
      new;
      for i := 0 to width
        invariant pn[..i] == b.pn[..i]
      {
        pn[i] := b.pn[i];
      }
      assert pn[..] == b.pn[..];
    }

    /** operator= of a copy */
    method Assign(b: BaseUint)
      requires Valid() && b.Valid() && b.width == width
      modifies pn
      ensures Valid() && Value() == old(b.Value())
    {
      ghost var s := b.pn[..];
      for i := 0 to width
        invariant pn[..i] == s[..i] && (forall j :: i <= j < width ==> b.pn[j] == s[j])
      {
        pn[i] := b.pn[i];
      }
      assert pn[..] == s;
    }

    /** operator= of a 64-bit number */
    method AssignUint64(b: nat)
      requires Valid() && b < BASE * BASE && width >= 2
      modifies pn
      ensures Valid() && Value() == b
    {
      pn[0] := b % BASE;
      DivMod(b, BASE);
      QuotientBelow(b, BASE, BASE);
      pn[1] := b / BASE;
      for i := 2 to width
        invariant pn[0] == b % BASE && pn[1] == b / BASE && forall j :: 2 <= j < i ==> pn[j] == 0
      {
        pn[i] := 0;
      }
      TwoLimbs(pn[..], b);
    }

    /** operator+= */
    method Add(b: BaseUint)
      requires Valid() && b.Valid() && b.width == width
      modifies pn
      ensures Valid() && Value() == (old(Value()) + old(b.Value())) % Modulus()
    {
      hide Val, Weight;
      ghost var s, t := pn[..], b.pn[..];
      var carry: nat := 0;
      assert pn[..0] == [] && s[..0] == [] && t[..0] == [];
      NoValue();
      for i := 0 to width
        invariant carry <= 1
        invariant forall j :: i <= j < width ==> pn[j] == s[j] && b.pn[j] == t[j]
        invariant forall j :: 0 <= j < i ==> pn[j] < BASE
        invariant Val(pn[..i]) + carry * Weight(i) == Val(s[..i]) + Val(t[..i])
      {
        ghost var r := pn[..i];
        var n := carry + pn[i] + b.pn[i];
        CarryStep(Val(r), carry, Weight(i), Val(s[..i]) + Val(t[..i]), n);
        pn[i] := n % BASE;
        assert pn[..i] == r && pn[..i + 1] == r + [n % BASE];
        ValTake(s, i);
        ValTake(t, i);
        ValNext(r, n % BASE);
        WeightStep(i);
        Distribute(s[i], t[i], Weight(i));
        carry := n / BASE;
      }
      Whole(pn[..], s, t);
      ValBound(pn[..]);
      ModIs(Val(pn[..]), carry, Modulus(), Val(s) + Val(t));
    }

    /** operator~ */
    method Not() returns (ret: BaseUint)
      requires Valid()
      ensures ret.Valid() && ret.width == width && fresh(ret) && fresh(ret.pn) && ret.Value() == Modulus() - 1 - Value()
    {
      hide Val, Weight;
      ret := new BaseUint(width);
      NoValue();
      assert pn[..0] == [] && ret.pn[..0] == [];
      for i := 0 to width
        invariant fresh(ret.pn) && ret.pn.Length == width == pn.Length && pn[..] == old(pn[..])
        invariant forall j :: 0 <= j < i ==> ret.pn[j] < BASE
        invariant Val(ret.pn[..i]) + Val(pn[..i]) == Weight(i) - 1
      {
        ghost var r := ret.pn[..i];
        ret.pn[i] := BASE - 1 - pn[i];
        assert ret.pn[..i + 1] == r + [BASE - 1 - pn[i]] && ret.pn[..i] == r;
        ValNext(r, BASE - 1 - pn[i]);
        assert pn[..i + 1] == pn[..i] + [pn[i]];
        ValNext(pn[..i], pn[i]);
        WeightStep(i);
        Distribute(BASE - 1 - pn[i], pn[i], Weight(i));
        Distribute(BASE - 1, 1, Weight(i));
      }
      Whole(pn[..], ret.pn[..], []);
    }

    /** prefix operator++ */
    method Increment()
      requires Valid()
      modifies pn
      ensures Valid() && Value() == (old(Value()) + 1) % Modulus()
    {
      hide Val, Weight;
      ghost var s := pn[..];
      var i := 0;
      NoValue();
      while i < width
        invariant 0 <= i <= width && Valid() && Val(pn[..]) == Val(s) + 1 - Weight(i)
        invariant forall j :: i <= j < width ==> pn[j] == s[j]
      {
        ghost var r, x := pn[..], pn[i];
        var n: nat := (pn[i] + 1) % BASE;
        pn[i] := n;
        assert pn[..] == r[i := n];
        ValUpdate(r, i, n);
        WeightStep(i);
        if pn[i] != 0 {
          ValBound(pn[..]);
          ModIs(Val(pn[..]), 0, Modulus(), Val(s) + 1);
          return;
        }
        DropLimb(x, Weight(i));
        i := i + 1;
      }
      ValBound(pn[..]);
      ModIs(Val(pn[..]), 1, Modulus(), Val(s) + 1);
    }

    /** unary operator- */
    method Negate() returns (ret: BaseUint)
      requires Valid()
      ensures ret.Valid() && ret.width == width && fresh(ret) && fresh(ret.pn)
      ensures ret.Value() == (Modulus() - Value()) % Modulus()
    {
      ret := Not();
      ret.Increment();
    }

    /** operator-= */
    method Subtract(b: BaseUint)
      requires Valid() && b.Valid() && b.width == width
      modifies pn
      ensures Valid() && Value() == (old(Value()) - old(b.Value())) % Modulus()
    {
      hide Val, Weight;
      ghost var x, y := Value(), b.Value();
      var neg := b.Negate();
      Add(neg);
      SubMod(x, y, Modulus());
    }

    /** operator*= with a 32-bit number */
    method MultiplyUint32(b32: nat)
      requires Valid() && b32 < BASE
      modifies pn
      ensures Valid() && Value() == old(Value()) * b32 % Modulus()
    {
      hide Val, Weight;
      ghost var s := pn[..];
      var carry: nat := 0;
      assert pn[..0] == [] && s[..0] == [];
      NoValue();
      for i := 0 to width
        invariant carry < BASE
        invariant forall j :: i <= j < width ==> pn[j] == s[j]
        invariant forall j :: 0 <= j < i ==> pn[j] < BASE
        invariant Val(pn[..i]) + carry * Weight(i) == Val(s[..i]) * b32
      {
        ghost var r := pn[..i];
        ProductFits(carry, 0, b32, pn[i]);
        var n: nat := carry + b32 * pn[i];
        CarryStep(Val(r), carry, Weight(i), Val(s[..i]) * b32, n);
        pn[i] := n % BASE;
        assert pn[..i] == r && pn[..i + 1] == r + [n % BASE];
        ValTake(s, i);
        ValNext(r, n % BASE);
        WeightStep(i);
        Distribute(Val(s[..i]), s[i] * Weight(i), b32);
        Reorder(s[i], Weight(i), b32);
        Reorder(b32, s[i], Weight(i));
        carry := n / BASE;
      }
      Whole(pn[..], s, []);
      ValBound(pn[..]);
      ModIs(Val(pn[..]), carry, Modulus(), Val(s) * b32);
    }

    /** Adds x times b, shifted by j limbs, to this number; d is what goes beyond the last limb. */
    method AddProduct(x: nat, b: BaseUint, j: nat) returns (ghost d: nat)
      requires Valid() && b.Valid() && b.width == width && b.pn != pn && x < BASE && j < width
      modifies pn
      ensures Valid() && Value() + d * Modulus() == old(Value()) + x * Weight(j) * b.Value()
    {
      hide Val, Weight;
      ghost var v, t := Value(), b.pn[..];
      var carry: nat := 0;
      assert t[..0] == [];
      NoValue();
      for i := 0 to width - j
        invariant Valid() && b.pn[..] == t && carry < BASE
        invariant Value() + carry * Weight(i + j) == v + x * Val(t[..i]) * Weight(j)
      {
        ghost var r, w := pn[..], Weight(i + j);
        ProductFits(carry, pn[i + j], x, b.pn[i]);
        var n: nat := carry + pn[i + j] + x * b.pn[i];
        var m: nat := n % BASE;
        ValUpdate(r, i + j, m);
        ValTake(t, i);
        WeightAdd(i, j);
        WeightStep(i + j);
        MulStep(Val(r), carry, v, x, Val(t[..i]), Weight(i), Weight(j), r[i + j], t[i], n);
        pn[i + j] := m;
        assert pn[..] == r[i + j := m];
        carry := n / BASE;
      }
      Whole(t, pn[..], []);
      d := ProductEnd(v, x, t, j, carry, Value());
    }

    /** operator*= */
    method Multiply(b: BaseUint)
      requires Valid() && b.Valid() && b.width == width
      modifies pn
      ensures Valid() && Value() == old(Value()) * old(b.Value()) % Modulus()
    {
      hide Val, Weight;
      ghost var s, t := pn[..], b.pn[..];
      var a := new BaseUint(width);
      ghost var d: nat := 0;
      assert s[..0] == [];
      NoValue();
      for j := 0 to width
        invariant a.Valid() && a.width == width && fresh(a.pn) && pn[..] == s && b.pn[..] == t
        invariant a.Value() + d * Modulus() == Val(s[..j]) * Val(t)
      {
        ghost var more := a.AddProduct(pn[j], b, j);
        ValTake(s, j);
        Distribute(Val(s[..j]), s[j] * Weight(j), Val(t));
        Distribute(d, more, Modulus());
        d := d + more;
      }
      Whole(s, t, []);
      ValBound(a.pn[..]);
      ModIs(a.Value(), d, Modulus(), Val(s) * Val(t));
      Assign(a);
    }

    /** pn[i] |= x, where the limb has no bit of x */
    method OrLimb(i: nat, x: nat)
      requires Valid() && i < width && x < BASE && Or(pn[i], x) == pn[i] + x && pn[i] + x < BASE
      modifies pn
      ensures Valid() && Value() == old(Value()) + x * Weight(i) && pn[i] == old(pn[i]) + x
      ensures forall j :: 0 <= j < width && j != i ==> pn[j] == old(pn[j])
    {
      hide Val, Weight, Or;
      ghost var r := pn[..];
      var m := Or(pn[i], x);
      ValUpdate(r, i, m);
      pn[i] := m;
      assert pn[..] == r[i := m];
    }

    /** Puts a limb, shifted by r bits, at limb i and the next; returns what goes beyond the end. */
    method PutLimb(x: nat, i: nat, r: nat) returns (ghost d: nat)
      requires Valid() && x < BASE && r < 32
      requires i < width ==> pn[i] < Pow2(r)
      requires i + 1 < width ==> pn[i + 1] == 0
      modifies pn
      ensures Valid()
      ensures Value() + d * Modulus() == old(Value()) + Shr(x, 32 - r) * Weight(i + 1) + Shl(x, r) * Weight(i)
      ensures i + 1 < width ==> pn[i + 1] < Pow2(r)
      ensures forall j :: i + 1 < j < width ==> pn[j] == old(pn[j])
    {
      hide Val, Weight, Pow2, Or, Shl, Shr;
      ShlSplit(x, r);
      ghost var hi, lo := Shr(x, 32 - r), Shl(x, r);
      d := 0;
      if i + 1 < width {
        OrFits(0, hi, r);
        if r != 0 {
          OrLimb(i + 1, Shr(x, 32 - r));
        } else {
          NoHigh(x, Weight(i + 1));
          PowPositive(r);
        }
      } else {
        Beyond(hi, i + 1, width);
        d := d + hi * Weight(i + 1 - width);
      }
      if i < width {
        OrFits(lo, pn[i], r);
        OrLimb(i, Shl(x, r));
      } else {
        Beyond(lo, i, width);
        Distribute(d, lo * Weight(i - width), Modulus());
        d := d + lo * Weight(i - width);
      }
    }

    /** operator<<= */
    method ShiftLeft(shift: nat)
      requires Valid()
      modifies pn
      ensures Valid() && Value() == old(Value()) * Pow2(shift) % Modulus()
    {
      hide Val, Weight, Pow2, Or, Shl, Shr;
      ghost var s := pn[..];
      var a := new BaseUint.Copy(this);
      Clear();
      var k, r := shift / 32, shift % 32;
      ghost var d: nat := 0;
      assert s[..0] == [];
      NoValue();
      PowPositive(r);
      for i := 0 to width
        invariant Valid() && a.pn[..] == s && a.width == width && fresh(a.pn)
        invariant forall j :: i + k < j < width ==> pn[j] == 0
        invariant i + k < width ==> pn[i + k] < Pow2(r)
        invariant Value() + d * Modulus() == Val(s[..i]) * Pow2(shift)
      {
        ShlSplit(a.pn[i], r);
        ghost var hi, lo := Shr(s[i], 32 - r), Shl(s[i], r);
        ShiftedLimb(s, i, k, r, hi, lo);
        ghost var more := PutLimb(a.pn[i], i + k, r);
        Distribute(d, more, Modulus());
        d := d + more;
      }
      Whole(s, [], []);
      ValBound(pn[..]);
      ModIs(Value(), d, Modulus(), Val(s) * Pow2(shift));
    }

    method Clear()
      requires Valid()
      modifies pn
      ensures Valid() && Value() == 0 && forall j :: 0 <= j < width ==> pn[j] == 0
    {
      for i := 0 to width
        invariant forall j :: 0 <= j < i ==> pn[j] == 0
      {
        pn[i] := 0;
      }
      ValZero(pn[..]);
    }

    /** operator>>= */
    method ShiftRight(shift: nat)
      requires Valid()
      modifies pn
      ensures Valid() && Value() == old(Value()) / Pow2(shift)
    {
      hide Val, Weight, Pow2, Or, Shl, Shr;
      ghost var s := pn[..];
      var a := new BaseUint.Copy(this);
      Clear();
      var k, r := shift / 32, shift % 32;
      assert s[..0] == [];
      NoValue();
      NothingLeft(0, Pow2(shift));
      for i := 0 to width
        invariant Valid() && a.pn[..] == s && a.width == width && fresh(a.pn)
        invariant forall j :: 0 <= j < width && i - k <= j ==> pn[j] == 0
        invariant i > k ==> pn[i - k - 1] < Pow2(32 - r)
        invariant Value() == Val(s[..i]) / Pow2(shift)
      {
        if i < k {
          LowLimb(s, i, k, r);
        } else if i == k {
          FirstLimb(s, i, r);
          OrZero(Shr(s[i], r));
          OrLimb(i - k, Shr(a.pn[i], r));
          NoValue();
        } else {
          ShlSplit(a.pn[i], 32 - r);
          NextLimb(s, i, k, r);
          if r != 0 {
            OrFits(Shl(s[i], 32 - r), pn[i - k - 1], 32 - r);
            OrLimb(i - k - 1, Shl(a.pn[i], 32 - r));
          } else {
            NoLow(s[i], Weight(i - k - 1));
          }
          ShrBound(s[i], r);
          OrZero(Shr(s[i], r));
          OrLimb(i - k, Shr(a.pn[i], r));
        }
      }
      Whole(s, [], []);
    }

    /** Numeric order. */
    method CompareTo(b: BaseUint) returns (c: int)
      requires Valid() && b.Valid() && b.width == width
      ensures c == if Value() < b.Value() then -1 else if Value() > b.Value() then 1 else 0
    {
      hide Val, Weight;
      ghost var s, t := pn[..], b.pn[..];
      var i := width;
      while i > 0
        invariant 0 <= i <= width && s[i..] == t[i..]
      {
        i := i - 1;
        if pn[i] < b.pn[i] {
          Lower(s, t, i);
          return -1;
        }
        if pn[i] > b.pn[i] {
          Lower(t, s, i);
          return 1;
        }
        assert s[i..] == [s[i]] + s[i + 1..] && t[i..] == [t[i]] + t[i + 1..];
      }
      assert s == s[0..] && t == t[0..];
      return 0;
    }

    /** The position of the highest bit, plus one. */
    method Bits() returns (n: nat)
      requires Valid()
      ensures Value() == 0 ==> n == 0
      ensures Value() > 0 ==> 0 < n <= 32 * width && Pow2(n - 1) <= Value() < Pow2(n)
    {
      hide Val, Weight, Pow2, Shr;
      ghost var s := pn[..];
      var pos := width;
      while pos > 0
        invariant 0 <= pos <= width && forall j :: pos <= j < width ==> s[j] == 0
      {
        pos := pos - 1;
        if pn[pos] != 0 {
          var nbits := 31;
          OneLimb(pn[pos]);
          while nbits > 0
            invariant 0 <= nbits <= 31 && 0 < pn[pos] < Pow2(nbits + 1)
          {
            if Bit(pn[pos], nbits) {
              HighBit(pn[pos], nbits);
              TopLimb(s, pos, nbits);
              return 32 * pos + nbits + 1;
            }
            LowerBit(pn[pos], nbits);
            nbits := nbits - 1;
          }
          LastBit();
          TopLimb(s, pos, 0);
          return 32 * pos + 1;
        }
      }
      ValZero(s);
      return 0;
    }

    /** Sets bit shift of a number whose bits below and at shift are clear. */
    method SetBit(shift: nat)
      requires Valid() && shift < 32 * width && LowClear(pn[..], shift)
      modifies pn
      ensures Valid() && Value() == old(Value()) + Pow2(shift)
      ensures shift > 0 ==> LowClear(pn[..], shift - 1)
    {
      hide Val, Weight, Pow2, Or;
      var l, b := shift / 32, shift % 32;
      OneBit(b);
      BitFits(pn[l], b);
      BitWeight(l, b);
      ghost var r := pn[..];
      OrLimb(l, Shl(1, b));
      if shift > 0 {
        NextClear(r, pn[..], shift);
      }
    }

    /** The state of the division before bit shift of the quotient is decided. */
    ghost predicate Dividing(num: BaseUint, div: BaseUint, shift: int, n: nat, d: nat)
      reads pn, num.pn, div.pn
    {
      && Valid() && num.Valid() && div.Valid() && num.width == div.width == width && -1 <= shift < 32 * width
      && pn != num.pn && pn != div.pn && num.pn != div.pn
      && num.Value() + Value() * d == n
      && num.Value() < d * Pow2(shift + 1)
      && (shift >= 0 ==> div.Value() == d * Pow2(shift) && LowClear(pn[..], shift))
    }

    method DivideBit(num: BaseUint, div: BaseUint, shift: nat, ghost n: nat, ghost d: nat)
      requires Dividing(num, div, shift, n, d)
      modifies pn, num.pn, div.pn
      ensures Dividing(num, div, shift - 1, n, d)
    {
      hide Val, Weight, Pow2, LowClear;
      DoublePower(d, shift);
      var c := num.CompareTo(div);
      if c >= 0 {
        ValBound(num.pn[..]);
        ModIs(num.Value() - div.Value(), 0, Modulus(), num.Value() - div.Value());
        num.Subtract(div);
        Distribute(Value(), Pow2(shift), d);
        SetBit(shift);
      } else {
        KeepClear(pn[..], shift);
      }
      HalfPower(d, shift);
      div.ShiftRight(1);
    }

    /** operator/=. Where b is zero, the program throws after clearing this number. */
    method Divide(b: BaseUint) returns (ok: bool)
      requires Valid() && b.Valid() && b.width == width
      modifies pn
      ensures Valid() && (ok <==> old(b.Value()) != 0)
      ensures Value() == if ok then old(Value()) / old(b.Value()) else 0
    {
      hide Val, Weight, Pow2, Or, Shr, Shl, LowClear;
      ghost var n, d := Value(), b.Value();
      var div := new BaseUint.Copy(b);
      var num := new BaseUint.Copy(this);
      Clear();
      var numBits := num.Bits();
      var divBits := div.Bits();
      if divBits == 0 {
        return false;
      }
      if divBits > numBits {
        Shorter(n, d, numBits, divBits);
        return true;
      }
      var shift := numBits - divBits;
      Aligned(n, d, numBits, divBits, width);
      div.ShiftLeft(shift);
      AllClear(pn[..], shift);
      while shift >= 0
        invariant Dividing(num, div, shift, n, d) && fresh(num.pn) && fresh(div.pn)
      {
        DivideBit(num, div, shift, n, d);
        shift := shift - 1;
      }
      LastPower(d);
      ModUnique(n, d, Value(), num.Value());
      return true;
    }

    /** Comparison with a 64-bit number. */
    method EqualTo(b: nat) returns (eq: bool)
      requires Valid() && width >= 2 && b < BASE * BASE
      ensures eq <==> Value() == b
    {
      hide Val, Weight;
      ghost var s := pn[..];
      ghost var t := BaseUint.SmallNumber(b, width);
      TwoLimbs(t, b);
      var i := width;
      while i > 2
        invariant 2 <= i <= width && forall j :: i <= j < width ==> s[j] == 0
      {
        i := i - 1;
        if pn[i] != 0 {
          SameNumber(s, t);
          return false;
        }
      }
      if pn[1] != b / BASE {
        SameNumber(s, t);
        return false;
      }
      if pn[0] != b % BASE {
        SameNumber(s, t);
        return false;
      }
      assert s == t;
      return true;
    }

    ghost static function SmallNumber(b: nat, width: nat): (t: seq<nat>)
      requires width >= 2 && b < BASE * BASE
      ensures |t| == width && Limbs(t) && t[0] == b % BASE && t[1] == b / BASE && forall j :: 2 <= j < width ==>
          t[j] == 0
    {
      QuotientBelow(b, BASE, BASE);
      var lo: nat, hi: nat := b % BASE, b / BASE;
      [lo, hi] + seq(width - 2, i => 0)
    }
  }

  // ---------------------------------------------------------------------------------------
  // Small facts about values

  lemma NoValue()
    ensures Val([]) == 0 && Weight(0) == 1
  {
  }

  lemma {:induction false} ValNext(r: seq<nat>, x: nat)
    ensures Val(r + [x]) == Val(r) + x * Weight(|r|)
  {
    assert (r + [x])[..|r|] == r;
  }

  lemma Whole(a: seq<nat>, b: seq<nat>, c: seq<nat>)
    ensures a[..|a|] == a && b[..|b|] == b && c[..|c|] == c
  {
  }

  lemma {:induction false} TwoLimbs(s: seq<nat>, b: nat)
    requires |s| >= 2 && s[0] == b % BASE && s[1] == b / BASE && forall j :: 2 <= j < |s| ==> s[j] == 0
    ensures Val(s) == b
  {
    var u, v := [s[0], s[1]], s[2..];
    assert s == u + v;
    ValAppend(u, v);
    ValZero(v);
    assert u[..1] == [s[0]] && [s[0]][..0] == [];
    NoValue();
    WeightStep(0);
    DivMod(b, BASE);
    ValNext([], s[0]);
    ValNext([s[0]], s[1]);
    assert [] + [s[0]] == [s[0]] && [s[0]] + [s[1]] == u;
  }

  lemma {:induction false} SubMod(x: int, y: int, m: nat)
    requires m > 0
    ensures (x + (m - y) % m) % m == (x - y) % m
  {
    var q, r := (m - y) / m, (m - y) % m;
    DivMod(m - y, m);
    var p := (x + r) / m;
    DivMod(x + r, m);
    Distribute(p, q - 1, m);
    Distribute(q, -1, m);
    ModUnique(x - y, m, p + q - 1, (x + r) % m);
  }

  /** The product of two limbs, with a limb and a carry added, is less than 64 bits. */
  lemma {:induction false} ProductFits(carry: nat, a: nat, x: nat, y: nat)
    requires carry < BASE && a < BASE && x < BASE && y < BASE
    ensures 0 <= (carry + a + x * y) / BASE < BASE && x * y >= 0
  {
    ProductBound(x, y);
    var z: nat := x * y;
    SumFits(carry, a, z);
  }

  lemma ProductBound(x: nat, y: nat)
    requires x < BASE && y < BASE
    ensures 0 <= x * y <= (BASE - 1) * (BASE - 1)
  {
    MulMono(x, BASE - 1, y);
    MulMono(y, BASE - 1, BASE - 1);
    Commute(BASE - 1, y);
  }

  lemma Commute(x: int, y: int)
    ensures x * y == y * x
  {
  }

  lemma SumFits(carry: nat, a: nat, z: nat)
    requires carry < BASE && a < BASE && z <= (BASE - 1) * (BASE - 1)
    ensures (carry + a + z) / BASE < BASE
  {
    QuotientBelow(carry + a + z, BASE, BASE);
  }

  lemma {:induction false} ProductStep(x: int, v: int, y: int, w: int, u: int)
    ensures x * (v + y * w) * u == x * v * u + x * y * (w * u)
  {
    Distribute(v, y * w, x);
    assert x * (v + y * w) == x * v + x * (y * w);
    Reorder(x, y, w);
    Distribute(x * v, x * y * w, u);
    Reorder(x * y, w, u);
  }

  /** The part of b that falls off the end only counts for multiples of the modulus. */
  lemma {:induction false} ProductEnd(v: nat, x: nat, t: seq<nat>, j: nat, carry: nat, r: nat) returns (d: nat)
    requires j <= |t| && r + carry * Weight(|t|) == v + x * Val(t[..|t| - j]) * Weight(j)
    ensures r + d * Weight(|t|) == v + x * Weight(j) * Val(t)
  {
    hide Val, Weight;
    var k := |t| - j;
    var lo, hi := t[..k], t[k..];
    assert t == lo + hi;
    ValAppend(lo, hi);
    WeightAdd(k, j);
    d := carry + x * Val(hi);
    EndStep(x, Val(lo), Val(hi), Weight(k), Weight(j));
    Distribute(carry, x * Val(hi), Weight(|t|));
  }

  lemma {:induction false} EndStep(x: int, lo: int, hi: int, w: int, u: int)
    ensures x * u * (lo + hi * w) == x * lo * u + x * hi * (w * u)
  {
    ProductStep(x, lo, hi, w, u);
    assert x * u * (lo + hi * w) == x * (lo + hi * w) * u by { Swap3(x, u, lo + hi * w); }
  }

  lemma Swap3(a: int, b: int, c: int)
    ensures a * b * c == a * c * b
  {
  }

  lemma DropLimb(x: int, w: int)
    ensures (0 - x) * w == w - (x + 1) * w
  {
    Distribute(x, 1, w);
  }

  /** One limb of a product: a is the limb before, y the limb of the factor, u and w the weights
      of the two limbs that are multiplied. */
  lemma {:induction false} MulStep(r: int, carry: int, v: int, x: int, t: int, w: int, u: int, a: int, y: int, n: nat)
    requires r + carry * (w * u) == v + x * t * u && n == carry + a + x * y && w * u >= 0
    ensures r + (n % BASE - a) * (w * u) + (n / BASE) * (w * u * BASE) == v + x * (t + y * w) * u
  {
    var z := w * u;
    ProductStep(x, t, y, w, u);
    CarryStep(r - a * z, carry + a, z, v + x * t * u, n) by { Distribute(carry, a, z); }
    Distribute(n % BASE - a, a, z);
  }

  // ---------------------------------------------------------------------------------------
  // Shifting

  lemma PowPositive(r: nat)
    ensures Pow2(r) > 0
  {
  }

  /** Limb i of s, shifted by k limbs and r bits. */
  lemma {:induction false} ShiftedLimb(s: seq<nat>, i: nat, k: nat, r: nat, hi: nat, lo: nat)
    requires i < |s| && s[i] * Pow2(r) == hi * BASE + lo
    ensures Val(s[..i + 1]) * Pow2(32 * k + r) ==
        Val(s[..i]) * Pow2(32 * k + r) + hi * Weight(i + k + 1) + lo * Weight(i + k)
  {
    ValTake(s, i);
    Pow2Add(32 * k, r);
    WeightAdd(i, k);
    WeightStep(i + k);
    assert Weight(k) == Pow2(32 * k);
    hide Val, Weight, Pow2;
    var p := Pow2(32 * k + r);
    Distribute(Val(s[..i]), s[i] * Weight(i), p);
    MoveFactors(s[i], Weight(i), Weight(k), Pow2(r), hi, lo);
  }

  lemma {:induction false} MoveFactors(x: int, w: int, u: int, p: int, hi: int, lo: int)
    requires x * p == hi * BASE + lo
    ensures x * w * (u * p) == hi * (w * u * BASE) + lo * (w * u)
  {
    var z := w * u;
    assert x * w * (u * p) == (x * p) * z by {
      Reorder(x * w, u, p);
      Reorder(x, w, u);
      Swap3(x, z, p);
    }
    Distribute(hi * BASE, lo, z);
    Reorder(hi, BASE, z);
  }

  lemma {:induction false} OrFits(x: nat, y: nat, r: nat)
    requires r < 32 && y < Pow2(r) && x < BASE && (x == 0 || x % Pow2(r) == 0)
    ensures Or(y, x) == y + x && Or(x, y) == x + y && x + y < BASE
  {
    ZeroMod(Pow2(r));
    OrDisjoint(x, y, r);
    OrCommutes(x, y);
    Pow2Add(r, 32 - r);
    Pow2Small();
    StillBelow(x, y, Pow2(r), Pow2(32 - r));
  }

  lemma ZeroMod(p: nat)
    requires p > 0
    ensures 0 % p == 0
  {
    ModUnique(0, p, 0, 0);
  }

  /** A multiple of p below a multiple of p stays below with less than p added. */
  lemma {:induction false} StillBelow(x: nat, y: nat, p: nat, q: nat)
    requires y < p && p * q == BASE && x < BASE && x % p == 0
    ensures x + y < BASE
  {
    var h := x / p;
    DivMod(x, p);
    assert p * q == q * p;
    SignOf(h - q, p);
    Distribute(h - q, q, p);
    assert h < q;
    MulMono(h + 1, q, p) by { QuotientBelow(x, p, q); }
    Distribute(h, 1, p);
  }

  lemma {:induction false} NoHigh(x: nat, w: nat)
    requires x < BASE
    ensures Shr(x, 32 - 0) * w == 0
  {
    Pow2Small();
    QuotientBelow(x, BASE, 1);
  }

  lemma {:induction false} Beyond(x: nat, i: nat, width: nat)
    requires width <= i
    ensures x * Weight(i) == x * Weight(i - width) * Weight(width)
  {
    WeightAdd(i - width, width);
    Reorder(x, Weight(i - width), Weight(width));
  }

  lemma NothingLeft(x: nat, p: nat)
    requires x < p
    ensures x / p == 0
  {
    ModUnique(x, p, 0, x);
  }

  lemma OrZero(x: nat)
    ensures Or(0, x) == x
  {
  }

  lemma {:induction false} ShrBound(x: nat, r: nat)
    requires x < BASE && r <= 32
    ensures Shr(x, r) < BASE && Shr(x, r) < Pow2(32 - r)
  {
    Pow2Add(r, 32 - r);
    Pow2Small();
    hide Pow2;
    QuotientBelow(x, Pow2(r), Pow2(32 - r));
    MulMono(1, Pow2(r), Pow2(32 - r));
    assert Pow2(32 - r) <= BASE;
  }

  /** Limbs that are shifted out. */
  lemma {:induction false} LowLimb(s: seq<nat>, i: nat, k: nat, r: nat)
    requires i < k && i < |s| && (forall j :: 0 <= j < |s| ==> s[j] < BASE)
    ensures Val(s[..i]) / Pow2(32 * k + r) == 0 && Val(s[..i + 1]) / Pow2(32 * k + r) == 0
  {
    hide Val, Pow2, Weight;
    BelowPower(s[..i], 32 * k + r);
    BelowPower(s[..i + 1], 32 * k + r);
  }

  lemma {:induction false} BelowPower(s: seq<nat>, n: nat)
    requires Limbs(s) && 32 * |s| <= n
    ensures Val(s) / Pow2(n) == 0
  {
    hide Val, Pow2, Weight;
    ValBound(s);
    WeightIs(|s|);
    Pow2Mono(32 * |s|, n);
    NothingLeft(Val(s), Pow2(n));
  }

  lemma WeightIs(i: nat)
    ensures Weight(i) == Pow2(32 * i)
  {
  }

  /** The limb that becomes the lowest one. */
  lemma {:induction false} FirstLimb(s: seq<nat>, k: nat, r: nat)
    requires k < |s| && r < 32 && (forall j :: 0 <= j < |s| ==> s[j] < BASE)
    ensures Val(s[..k]) / Pow2(32 * k + r) == 0 && Val(s[..k + 1]) / Pow2(32 * k + r) == Shr(s[k], r)
    ensures Shr(s[k], r) < BASE && Shr(s[k], r) < Pow2(32 - r)
  {
    ShrBound(s[k], r);
    ValBound(s[..k]);
    ValTake(s, k);
    Pow2Add(32 * k, r);
    Pow2Mono(32 * k, 32 * k + r);
    assert Weight(k) == Pow2(32 * k) && Shr(s[k], r) == s[k] / Pow2(r);
    hide Val, Pow2, Weight, Shr;
    NothingLeft(Val(s[..k]), Pow2(32 * k + r));
    TakeTop(Val(s[..k]), s[k], Weight(k), Pow2(r));
  }

  lemma {:induction false} TakeTop(v: nat, x: nat, w: nat, p: nat)
    requires v < w && p >= 1
    ensures (v + x * w) / (w * p) == x / p
  {
    var q, m := x / p, x % p;
    DivMod(x, p);
    Distribute(q * p, m, w);
    Reorder(q, p, w);
    MulMono(m + 1, p, w);
    Distribute(m, 1, w);
    assert p * w == w * p;
    ModUnique(v + x * w, w * p, q, v + m * w);
  }

  /** Every further limb adds a whole number. */
  lemma {:induction false} NextLimb(s: seq<nat>, i: nat, k: nat, r: nat)
    requires k < i < |s| && r < 32 && s[i] * Pow2(32 - r) == Shr(s[i], r) * BASE + Shl(s[i], 32 - r)
    ensures Val(s[..i + 1]) / Pow2(32 * k + r) ==
            Val(s[..i]) / Pow2(32 * k + r) + Shl(s[i], 32 - r) * Weight(i - k - 1) + Shr(s[i], r) * Weight(i - k)
  {
    ValTake(s, i);
    var j := i - k - 1;
    WeightStep(j);
    Pow2Add(32 * k + r, 32 - r + 32 * j);
    Pow2Add(32 - r, 32 * j);
    assert 32 * i == 32 * k + r + (32 - r + 32 * j);
    assert Weight(i) == Pow2(32 * i) && Weight(j) == Pow2(32 * j) && j + 1 == i - k;
    hide Val, Pow2, Weight, Shr, Shl;
    AddWhole(Val(s[..i]), s[i], Pow2(32 * k + r), Pow2(32 - r), Weight(j), Shr(s[i], r), Shl(s[i], 32 - r));
  }

  lemma {:induction false} AddWhole(v: nat, x: nat, p: nat, q: nat, w: nat, hi: nat, lo: nat)
    requires p >= 1 && x * q == hi * BASE + lo
    ensures (v + x * (p * (q * w))) / p == v / p + lo * w + hi * (w * BASE)
  {
    assert x * (p * (q * w)) == (x * q * w) * p by {
      Reorder(x, p, q * w);
      Swap3(x, p, q * w);
      Reorder(x, q, w);
    }
    Distribute(hi * BASE, lo, w);
    Reorder(hi, BASE, w);
    DivMod(v, p);
    Distribute(v / p, x * q * w, p);
    ModUnique(v + (x * q * w) * p, p, v / p + x * q * w, v % p);
  }

  lemma {:induction false} NoLow(x: nat, w: nat)
    ensures Shl(x, 32 - 0) * w == 0
  {
    Pow2Small();
    ModUnique(x * BASE, BASE, x, 0);
  }

  /** The highest limb that differs decides. */
  lemma {:induction false} Lower(s: seq<nat>, t: seq<nat>, i: nat)
    requires |s| == |t| && i < |s| && Limbs(s) && Limbs(t) && s[i] < t[i] && s[i + 1..] == t[i + 1..]
    ensures Val(s) < Val(t)
  {
    hide Val, Weight;
    var a, b, r := s[..i + 1], t[..i + 1], s[i + 1..];
    assert s == a + r && t == b + r;
    LowerTop(s, t, i);
    ValAppend(a, r);
    ValAppend(b, r);
  }

  lemma {:induction false} LowerTop(s: seq<nat>, t: seq<nat>, i: nat)
    requires |s| == |t| && i < |s| && Limbs(s) && s[i] < t[i]
    ensures Val(s[..i + 1]) < Val(t[..i + 1])
  {
    hide Val, Weight;
    ValTake(s, i);
    ValTake(t, i);
    ValBound(s[..i]);
    LowerSum(Val(s[..i]), s[i], Val(t[..i]), t[i], Weight(i));
  }

  lemma LowerSum(a: nat, x: nat, b: nat, y: nat, w: nat)
    requires a < w && x < y
    ensures a + x * w < b + y * w
  {
    MulMono(x + 1, y, w);
    Distribute(x, 1, w);
  }

  lemma OneLimb(x: nat)
    requires x < BASE
    ensures x < Pow2(31 + 1)
  {
    Pow2Small();
  }

  lemma {:induction false} HighBit(x: nat, n: nat)
    requires x < Pow2(n + 1) && Bit(x, n)
    ensures Pow2(n) <= x
  {
    if x < Pow2(n) {
      NothingLeft(x, Pow2(n));
    }
  }

  lemma {:induction false} LowerBit(x: nat, n: nat)
    requires x < Pow2(n + 1) && !Bit(x, n)
    ensures x < Pow2(n)
  {
    if x >= Pow2(n) {
      var p := Pow2(n);
      ModUnique(x, p, 1, x - p);
    }
  }

  lemma LastBit()
    ensures Pow2(0) == 1 && Pow2(0 + 1) == 2
  {
  }

  /** A number whose highest limb is number pos, with nbits + 1 bits. */
  lemma {:induction false} TopLimb(s: seq<nat>, pos: nat, nbits: nat)
    requires pos < |s| && Limbs(s) && (forall j :: pos < j < |s| ==> s[j] == 0)
    requires Pow2(nbits) <= s[pos] < Pow2(nbits + 1)
    ensures Pow2(32 * pos + nbits) <= Val(s) < Pow2(32 * pos + nbits + 1)
  {
    hide Val, Weight, Pow2;
    var a, b := s[..pos + 1], s[pos + 1..];
    assert s == a + b;
    ValAppend(a, b);
    ValZero(b);
    ValTake(s, pos);
    ValBound(s[..pos]);
    WeightIs(pos);
    Pow2Add(32 * pos, nbits);
    Pow2Add(32 * pos, nbits + 1);
    InPowers(Val(s[..pos]), s[pos], Weight(pos), Pow2(nbits), Pow2(nbits + 1));
  }

  lemma {:induction false} InPowers(v: nat, x: nat, w: nat, p: nat, q: nat)
    requires v < w && p <= x < q
    ensures w * p <= v + x * w < w * q
  {
    MulMono(p, x, w);
    MulMono(x + 1, q, w);
    Distribute(x, 1, w);
    assert w * p == p * w && w * q == q * w;
  }

  // ---------------------------------------------------------------------------------------
  // Dividing

  /** All bits up to and including number shift are clear. */
  ghost predicate LowClear(s: seq<nat>, shift: nat) {
    && shift / 32 < |s|
    && (forall j :: 0 <= j < shift / 32 ==> s[j] == 0)
    && s[shift / 32] % Pow2(shift % 32 + 1) == 0
  }

  lemma {:induction false} OneBit(b: nat)
    requires b < 32
    ensures Shl(1, b) == Pow2(b) < BASE
  {
    Pow2Small();
    Pow2Mono(b, 31);
    assert Pow2(32) == 2 * Pow2(31);
    hide Pow2;
    ModUnique(Pow2(b), BASE, 0, Pow2(b));
  }

  lemma {:induction false} BitFits(x: nat, b: nat)
    requires b < 32 && x < BASE && x % Pow2(b + 1) == 0
    ensures Or(x, Pow2(b)) == x + Pow2(b) && x + Pow2(b) < BASE
  {
    assert Pow2(b + 1) == 2 * Pow2(b);
    hide Pow2;
    OrDisjoint(x, Pow2(b), b + 1);
    Pow2Add(b + 1, 31 - b);
    Pow2Small();
    StillBelow(x, Pow2(b), Pow2(b + 1), Pow2(31 - b));
  }

  lemma BitWeight(l: nat, b: nat)
    ensures Pow2(b) * Weight(l) == Pow2(32 * l + b)
  {
    Pow2Add(32 * l, b);
  }

  lemma {:induction false} NextClear(r: seq<nat>, s: seq<nat>, shift: nat)
    requires LowClear(r, shift) && shift > 0 && |s| == |r| && s[shift / 32] == r[shift / 32] + Pow2(shift % 32)
    requires forall j :: 0 <= j < |s| && j != shift / 32 ==> s[j] == r[j]
    ensures LowClear(s, shift - 1)
  {
    hide Pow2;
    var l, b := shift / 32, shift % 32;
    if b == 0 {
      assert (shift - 1) / 32 == l - 1 && (shift - 1) % 32 == 31;
      ZeroMod(Pow2(31 + 1));
    } else {
      assert (shift - 1) / 32 == l && (shift - 1) % 32 == b - 1;
      PowStep(b);
      HalfClear(r[l], Pow2(b));
    }
  }

  lemma PowStep(b: nat)
    ensures Pow2(b + 1) == 2 * Pow2(b)
  {
  }

  /** A multiple of 2p, with or without p, is a multiple of p. */
  lemma {:induction false} HalfClear(x: nat, p: nat)
    requires p >= 1 && x % (2 * p) == 0
    ensures x % p == 0 && (x + p) % p == 0
  {
    var q := x / (2 * p);
    DivMod(x, 2 * p);
    Reorder(q, 2, p);
    ModUnique(x, p, q * 2, 0);
    Distribute(q * 2, 1, p);
    ModUnique(x + p, p, q * 2 + 1, 0);
  }

  lemma {:induction false} KeepClear(s: seq<nat>, shift: nat)
    requires LowClear(s, shift)
    ensures shift > 0 ==> LowClear(s, shift - 1)
  {
    hide Pow2;
    var l, b := shift / 32, shift % 32;
    if shift > 0 {
      if b == 0 {
        assert (shift - 1) / 32 == l - 1 && (shift - 1) % 32 == 31;
        ZeroMod(Pow2(31 + 1));
      } else {
        assert (shift - 1) / 32 == l && (shift - 1) % 32 == b - 1;
        PowStep(b);
        HalfClear(s[l], Pow2(b));
      }
    }
  }

  lemma {:induction false} AllClear(s: seq<nat>, shift: nat)
    requires shift / 32 < |s| && forall j :: 0 <= j < |s| ==> s[j] == 0
    ensures LowClear(s, shift)
  {
    ZeroMod(Pow2(shift % 32 + 1));
  }

  lemma {:induction false} Shorter(n: nat, d: nat, numBits: nat, divBits: nat)
    requires numBits < divBits && (n == 0 ==> numBits == 0) && (n > 0 ==> n < Pow2(numBits)) && d > 0
    requires Pow2(divBits - 1) <= d
    ensures n / d == 0
  {
    hide Pow2;
    Pow2Mono(numBits, divBits - 1);
    NothingLeft(n, d);
  }

  /** Shifted so that both have the same number of bits, the divisor still fits. */
  lemma {:induction false} Aligned(n: nat, d: nat, numBits: nat, divBits: nat, width: nat)
    requires 0 < divBits <= numBits <= 32 * width && n < Pow2(numBits) && Pow2(divBits - 1) <= d < Pow2(divBits)
    ensures d * Pow2(numBits - divBits) % Weight(width) == d * Pow2(numBits - divBits)
    ensures n < d * Pow2(numBits - divBits + 1)
    ensures numBits - divBits < 32 * width
  {
    hide Pow2, Weight;
    var s := numBits - divBits;
    Pow2Add(divBits, s);
    Pow2Add(divBits - 1, s + 1);
    Pow2Mono(numBits, 32 * width);
    WeightIs(width);
    MulBelow(d, Pow2(divBits), Pow2(s));
    MulMono(Pow2(divBits - 1), d, Pow2(s + 1));
    ModUnique(d * Pow2(s), Weight(width), 0, d * Pow2(s));
  }

  lemma {:induction false} DoublePower(d: nat, shift: nat)
    ensures d * Pow2(shift + 1) == d * Pow2(shift) + d * Pow2(shift)
  {
    PowStep(shift);
    Reorder(d, 2, Pow2(shift));
  }

  lemma {:induction false} HalfPower(d: nat, shift: nat)
    ensures Pow2(1) == 2 && (shift > 0 ==> d * Pow2(shift) / 2 == d * Pow2(shift - 1))
  {
    if shift > 0 {
      DoublePower(d, shift - 1);
      hide Pow2;
      ModUnique(d * Pow2(shift), 2, d * Pow2(shift - 1), 0);
    }
    OnePower();
  }

  lemma OnePower()
    ensures Pow2(1) == 2
  {
  }

  lemma LastPower(d: nat)
    ensures d * Pow2(-1 + 1) == d
  {
  }

  /** Limbs are determined by the value. */
  lemma {:induction false} SameNumber(s: seq<nat>, t: seq<nat>)
    requires |s| == |t| && Limbs(s) && Limbs(t)
    ensures Val(s) == Val(t) ==> s == t
  {
    hide Val, Weight;
    if s != t {
      var i := |s| - 1;
      while s[i] == t[i]
        invariant 0 <= i < |s| && s[i + 1..] == t[i + 1..]
        decreases i
      {
        assert s[i..] == [s[i]] + s[i + 1..] && t[i..] == [t[i]] + t[i + 1..];
        assert i > 0 by { assert s == s[0..] && t == t[0..]; }
        i := i - 1;
      }
      if s[i] < t[i] {
        Lower(s, t, i);
      } else {
        Lower(t, s, i);
      }
    }
  }
}
