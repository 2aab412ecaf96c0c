/** Compact targets and the work of a block (src/arith_uint256.cpp:153-181,
    src/chain.cpp:148-162). */
module BlockProof {
  import opened LimbNumbers
  import opened BigUint

  const WIDTH: nat := 8

  /** The number that a compact target stands for, without sign or limit. */
  ghost function Exact(compact: nat): nat {
    var size, word := compact / 0x100_0000, compact % 0x80_0000;
    if size <= 3 then Shr(word, 8 * (3 - size)) else word * Pow2(8 * (size - 3))
  }

  predicate SignBit(compact: nat) {
    compact / 0x80_0000 % 2 == 1
  }

  lemma {:induction false} WidthIs()
    ensures Weight(WIDTH) == Pow2(256)
  {
  }

  /** The three tests for overflow are exact. */
  lemma {:induction false} OverflowIs(size: nat, word: nat)
    requires size > 3 && word < 0x80_0000
    ensures word * Pow2(8 * (size - 3)) >= Pow2(256) <==>
            word != 0 && (size > 34 || (word > 0xff && size > 33) || (word > 0xffff && size > 32))
  {
    hide Pow2;
    Pow2Small();
    var e := 8 * (size - 3);
    if word == 0 {
      Positive(256);
    } else if size > 34 {
      ZeroPower();
      Reaches(word, e, 1, 0);
    } else if word > 0xff && size > 33 {
      Reaches(word, e, 0x100, 8);
    } else if word > 0xffff && size > 32 {
      Reaches(word, e, 0x1_0000, 16);
    } else if size == 34 {
      StaysBelow(word, e, 0x100, 8);
    } else if size == 33 {
      StaysBelow(word, e, 0x1_0000, 16);
    } else {
      Pow2Add(8, 16);
      StaysBelow(word, e, 0x100_0000, 24);
    }
  }

  lemma Positive(n: nat)
    ensures Pow2(n) > 0
  {
  }

  lemma ZeroPower()
    ensures Pow2(0) == 1
  {
  }

  lemma {:induction false} Reaches(word: nat, e: nat, p: nat, n: nat)
    requires word >= p && p == Pow2(n) && n + e >= 256
    ensures word * Pow2(e) >= Pow2(256)
  {
    ZeroPower();
    Pow2Add(n, e);
    Pow2Mono(256, n + e);
    hide Pow2;
    MulMono(p, word, Pow2(e));
  }

  lemma {:induction false} StaysBelow(word: nat, e: nat, p: nat, n: nat)
    requires word < p && p == Pow2(n) && n + e <= 256
    ensures word * Pow2(e) < Pow2(256)
  {
    Pow2Add(n, e);
    Pow2Mono(n + e, 256);
    hide Pow2;
    MulBelow(word, p, Pow2(e));
  }

  /** Sets x to the number that a compact target stands for, modulo 2^256. */
  method SetCompact(x: BaseUint, compact: nat) returns (negative: bool, overflow: bool)
    requires x.Valid() && x.width == WIDTH && compact < BASE
    modifies x.pn
    ensures x.Valid() && x.Value() == Exact(compact) % Pow2(256)
    ensures negative <==> SignBit(compact) && Exact(compact) != 0
    ensures overflow <==> Exact(compact) >= Pow2(256)
  {
    hide Val, Weight, Pow2, Shr;
    var size, word := compact / 0x100_0000, compact % 0x80_0000;
    WidthIs();
    if size <= 3 {
      SmallWord(word, 8 * (3 - size));
      word := Shr(word, 8 * (3 - size));
      x.AssignUint64(word);
    } else {
      OverflowIs(size, word);
      WordZero(word, Pow2(8 * (size - 3)));
      x.AssignUint64(word);
      x.ShiftLeft(8 * (size - 3));
    }
    negative := word != 0 && compact / 0x80_0000 % 2 != 0;
    overflow := word != 0 && (size > 34 || (word > 0xff && size > 33) || (word > 0xffff && size > 32));
  }

  lemma {:induction false} SmallWord(word: nat, n: nat)
    requires word < 0x80_0000
    ensures Shr(word, n) <= word && Shr(word, n) < Pow2(256) && Shr(word, n) % Pow2(256) == Shr(word, n)
  {
    Pow2Small();
    Pow2Mono(32, 256);
    assert Shr(word, n) == word / Pow2(n);
    hide Pow2, Shr;
    DivMod(word, Pow2(n));
    ShrinkBy(word, Pow2(n));
    ModUnique(Shr(word, n), Pow2(256), 0, Shr(word, n));
  }

  lemma {:induction false} ShrinkBy(x: nat, p: nat)
    requires p >= 1
    ensures 0 <= x / p <= x
  {
    QuotientBelow(x, p, x + 1) by { MulMono(1, p, x + 1); assert p * (x + 1) == (x + 1) * p; }
  }

  lemma WordZero(word: nat, p: nat)
    requires p >= 1
    ensures word * p == 0 <==> word == 0
  {
    if word >= 1 {
      MulMono(1, word, p);
    }
  }

  /** A target that fits leaves room for one more. */
  lemma {:induction false} RoomForOne(compact: nat)
    requires compact < BASE && Exact(compact) < Pow2(256)
    ensures Exact(compact) + 1 < Pow2(256)
  {
    hide Pow2, Shr;
    var size, word := compact / 0x100_0000, compact % 0x80_0000;
    if size <= 3 {
      SmallWord(word, 8 * (3 - size));
      Pow2Mono(32, 256);
      Pow2Small();
    } else {
      EvenPower(8 * (size - 3));
      EvenPower(256);
      EvenProduct(word, Pow2(8 * (size - 3)));
    }
  }

  lemma EvenPower(n: nat)
    requires n >= 1
    ensures Pow2(n) % 2 == 0
  {
    assert Pow2(n) == 2 * Pow2(n - 1);
    hide Pow2;
    var q := Pow2(n - 1);
    ModUnique(2 * q, 2, q, 0);
  }

  lemma EvenProduct(x: nat, p: nat)
    requires p % 2 == 0
    ensures x * p % 2 == 0
  {
    var q := p / 2;
    assert p == q * 2;
    Reorder(x, q, 2);
    ModUnique(x * p, 2, x * q, 0);
  }

  lemma {:induction false} OneMoreTime(m: nat, t: nat)
    requires 1 <= t && t + 1 < m
    ensures (m - 1 - t) / (t + 1) + 1 == m / (t + 1) && m / (t + 1) < m
  {
    var d := t + 1;
    var x := m - d;
    DivMod(x, d);
    Distribute(x / d, 1, d);
    ModUnique(m, d, x / d + 1, x % d);
    QuotientBelow(m, d, m) by { MulMono(2, d, m); assert d * m >= 2 * m; }
  }

  /** The work of a block is how often its target, plus one, fits into 2^256; a target that is
      negative, too large or zero has none. The division is never by zero. */
  method GetBlockProof(bits: nat) returns (proof: BaseUint)
    requires bits < BASE
    ensures proof.Valid() && fresh(proof) && fresh(proof.pn)
    ensures proof.Value() == if SignBit(bits) || Exact(bits) >= Pow2(256) || Exact(bits) == 0 then 0
        else Pow2(256) / (Exact(bits) + 1)
  {
    hide Val, Weight, Pow2, Exact, SignBit;
    ghost var t := Exact(bits);
    var target := new BaseUint(WIDTH);
    var negative, overflow := SetCompact(target, bits);
    var zero := target.EqualTo(0);
    ZeroTarget(t);
    if negative || overflow || zero {
      proof := new BaseUint(WIDTH);
      return;
    }
    WidthIs();
    RoomForOne(bits);
    OneMoreTime(Pow2(256), t);
    proof := target.Not();
    var one := new BaseUint(WIDTH);
    one.AssignUint64(1);
    ModUnique(t + 1, Pow2(256), 0, t + 1);
    target.Add(one);
    var ok := proof.Divide(target);
    assert ok;
    ModUnique(Pow2(256) / (t + 1), Pow2(256), 0, Pow2(256) / (t + 1));
    proof.Add(one);
  }

  lemma {:induction false} ZeroTarget(t: nat)
    ensures t < Pow2(256) ==> t % Pow2(256) == t
    ensures 0 < BASE * BASE
  {
    hide Pow2;
    if t < Pow2(256) {
      ModUnique(t, Pow2(256), 0, t);
    }
  }
}
