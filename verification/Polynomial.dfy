/** Polynomials over F_2 as the chunker keeps them: bit i of a `u64` is the coefficient of x^i.
    A polynomial is a `nat`, and the 64-bit truncation of a shift is written out. */
module Polynomial {

  const WORD: nat := 0x1_0000_0000_0000_0000

  /** Bitwise exclusive or: the sum over F_2. */
  function Add(a: nat, b: nat): nat
    decreases a + b
  {
    if a == 0 then b else if b == 0 then a else 2 * Add(a / 2, b / 2) + (a + b) % 2
  }

  /** `a` if the lowest bit of `b` is set. */
  function Pick(a: nat, b: nat): nat { if b % 2 == 1 then a else 0 }

  /** The carry-less product. */
  function Mul(a: nat, b: nat): nat
    decreases b
  {
    if b == 0 then 0 else Add(Pick(a, b), 2 * Mul(a, b / 2))
  }

  function Degree(a: nat): (d: int)
    ensures d >= -1 && (d == -1 <==> a == 0)
  {
    if a == 0 then -1 else 1 + Degree(a / 2)
  }

  /** a * x^k; in particular `Shift(1, k)` is x^k. */
  function Shift(a: nat, k: nat): (r: nat)
    ensures a != 0 ==> r != 0
  {
    if k == 0 then a else 2 * Shift(a, k - 1)
  }

  // ---------------------------------------------------------------- addition

  lemma {:induction false} AddUnfold(a: nat, b: nat)
    ensures Add(a, b) == 2 * Add(a / 2, b / 2) + (a + b) % 2
    ensures Add(a, b) / 2 == Add(a / 2, b / 2) && Add(a, b) % 2 == (a + b) % 2
  {
  }

  lemma {:induction false} AddComm(a: nat, b: nat)
    ensures Add(a, b) == Add(b, a)
    decreases a + b
  {
    if a != 0 && b != 0 { AddComm(a / 2, b / 2); }
  }

  lemma {:induction false} Parity(x: nat, y: nat, z: nat)
    requires x % 2 == y % 2
    ensures (x + z) % 2 == (y + z) % 2
  {
  }

  lemma {:induction false} AddAssoc(a: nat, b: nat, c: nat)
    ensures Add(Add(a, b), c) == Add(a, Add(b, c))
    decreases a + b + c
  {
    if a != 0 && b != 0 && c != 0 {
      AddAssoc(a / 2, b / 2, c / 2);
      var l, r := Add(a, b), Add(b, c);
      AddUnfold(a, b); AddUnfold(b, c);
      AddUnfold(l, c); AddUnfold(a, r);
      assert (l + c) % 2 == (a + b + c) % 2 by { Parity(l, a + b, c); }
      assert (a + r) % 2 == (a + b + c) % 2 by { Parity(r, b + c, a); }
    }
  }

  lemma {:induction false} AddSelf(a: nat)
    ensures Add(a, a) == 0
  {
    if a != 0 { AddSelf(a / 2); }
  }

  lemma {:induction false} AddCancel(a: nat, b: nat)
    ensures Add(a, Add(a, b)) == b && Add(Add(b, a), a) == b
  {
    AddAssoc(a, a, b); AddSelf(a); AddAssoc(b, a, a);
  }

  /** (a + b) + (c + d) == (a + c) + (b + d) */
  lemma {:induction false} AddSwap(a: nat, b: nat, c: nat, d: nat)
    ensures Add(Add(a, b), Add(c, d)) == Add(Add(a, c), Add(b, d))
  {
    AddAssoc(a, b, Add(c, d)); AddAssoc(b, c, d); AddComm(b, c); AddAssoc(c, b, d); AddAssoc(a, c, Add(b, d));
  }

  lemma {:induction false} AddDouble(a: nat, b: nat)
    ensures Add(2 * a, 2 * b) == 2 * Add(a, b)
  {
    var x, y := 2 * a, 2 * b;
    AddUnfold(x, y);
    assert x / 2 == a && y / 2 == b && (x + y) % 2 == 0 by { Halves(a); Halves(b); Halves(a + b); }
  }

  lemma {:induction false} Halves(a: nat)
    ensures 2 * a / 2 == a && 2 * a % 2 == 0
  {
  }

  // ---------------------------------------------------------------- multiplication

  lemma {:induction false} MulZero(b: nat)
    ensures Mul(0, b) == 0
  {
    if b != 0 { MulZero(b / 2); }
  }

  /** The product unfolded along its right factor, zero included. */
  lemma {:induction false} MulUnfold(a: nat, b: nat)
    ensures Mul(a, b) == Add(Pick(a, b), 2 * Mul(a, b / 2))
  {
  }

  lemma {:induction false} MulDouble(a: nat, b: nat)
    ensures Mul(2 * a, b) == 2 * Mul(a, b) && Mul(a, 2 * b) == 2 * Mul(a, b)
  {
    MulDoubleLeft(a, b);
    MulUnfold(a, 2 * b);
  }

  lemma {:induction false} MulDoubleLeft(a: nat, b: nat)
    ensures Mul(2 * a, b) == 2 * Mul(a, b)
    decreases b
  {
    if b != 0 {
      var h := Mul(a, b / 2);
      calc {
        Mul(2 * a, b);
        Add(Pick(2 * a, b), 2 * Mul(2 * a, b / 2));
        { MulDoubleLeft(a, b / 2); }
        Add(2 * Pick(a, b), 2 * (2 * h));
        { AddDouble(Pick(a, b), 2 * h); }
        2 * Add(Pick(a, b), 2 * h);
        2 * Mul(a, b);
      }
    }
  }

  lemma {:induction false} MulAddLeft(a: nat, c: nat, b: nat)
    ensures Mul(Add(a, c), b) == Add(Mul(a, b), Mul(c, b))
    decreases b
  {
    if b != 0 {
      MulAddLeft(a, c, b / 2);
      AddDouble(Mul(a, b / 2), Mul(c, b / 2));
      if b % 2 == 1 {
        AddSwap(a, 2 * Mul(a, b / 2), c, 2 * Mul(c, b / 2));
      }
    }
  }

  lemma {:induction false} MulAddRight(a: nat, b: nat, c: nat)
    ensures Mul(a, Add(b, c)) == Add(Mul(a, b), Mul(a, c))
    decreases b + c
  {
    if b != 0 && c != 0 {
      MulAddRight(a, b / 2, c / 2);
      MulAddRightStep(a, b, c);
    }
  }

  lemma {:induction false} PickAdd(a: nat, b: nat, c: nat)
    ensures Pick(a, Add(b, c)) == Add(Pick(a, b), Pick(a, c))
  {
    AddUnfold(b, c);
    AddSelf(a);
  }

  lemma {:induction false} MulAddRightStep(a: nat, b: nat, c: nat)
    requires Mul(a, Add(b / 2, c / 2)) == Add(Mul(a, b / 2), Mul(a, c / 2))
    ensures Mul(a, Add(b, c)) == Add(Mul(a, b), Mul(a, c))
  {
    var mb, mc := Mul(a, b / 2), Mul(a, c / 2);
    calc {
      Mul(a, Add(b, c));
      { MulUnfold(a, Add(b, c)); AddUnfold(b, c); }
      Add(Pick(a, Add(b, c)), 2 * Add(mb, mc));
      { PickAdd(a, b, c); AddDouble(mb, mc); }
      Add(Add(Pick(a, b), Pick(a, c)), Add(2 * mb, 2 * mc));
      { AddSwap(Pick(a, b), Pick(a, c), 2 * mb, 2 * mc); }
      Add(Add(Pick(a, b), 2 * mb), Add(Pick(a, c), 2 * mc));
      { MulUnfold(a, b); MulUnfold(a, c); }
      Add(Mul(a, b), Mul(a, c));
    }
  }

  lemma {:induction false} MulAssoc(a: nat, b: nat, c: nat)
    ensures Mul(Mul(a, b), c) == Mul(a, Mul(b, c))
    decreases c
  {
    if c != 0 {
      MulAssoc(a, b, c / 2);
      MulDouble(a, Mul(b, c / 2));
      MulAddRight(a, Pick(b, c), 2 * Mul(b, c / 2));
    }
  }

  lemma {:induction false} MulComm(a: nat, b: nat)
    ensures Mul(a, b) == Mul(b, a)
    decreases a + b
  {
    if a == 0 || b == 0 {
      MulZero(a); MulZero(b);
    } else {
      MulComm(a, b / 2);
      HalveLeft(b, a);
    }
  }

  /** The product unfolded along its left factor. */
  lemma {:induction false} HalveLeft(b: nat, a: nat)
    ensures Mul(b, a) == Add(Pick(a, b), 2 * Mul(b / 2, a))
  {
    AddUnfold(b % 2, 2 * (b / 2));
    assert Add(b % 2, 2 * (b / 2)) == b;
    MulAddLeft(b % 2, 2 * (b / 2), a);
    MulDouble(b / 2, a);
    if b % 2 == 1 { MulOne(a); } else { MulZero(a); }
  }

  lemma {:induction false} MulOne(a: nat)
    ensures Mul(1, a) == a && Mul(a, 1) == a
  {
    if a != 0 {
      MulOne(a / 2);
      MulUnfold(1, a);
      AddUnfold(a % 2, 2 * (a / 2));
      assert Mul(a, 1) == a;
    }
  }

  lemma {:induction false} ShiftIsMul(a: nat, k: nat)
    ensures Shift(a, k) == Mul(Shift(1, k), a)
  {
    if k == 0 { MulOne(a); } else { ShiftIsMul(a, k - 1); MulDouble(Shift(1, k - 1), a); }
  }

  lemma {:induction false} ShiftAdds(j: nat, k: nat)
    ensures Mul(Shift(1, j), Shift(1, k)) == Shift(1, j + k)
    decreases j
  {
    if j == 0 { MulOne(Shift(1, k)); } else { ShiftAdds(j - 1, k); MulDouble(Shift(1, j - 1), Shift(1, k)); }
  }

  // ---------------------------------------------------------------- degrees

  lemma {:induction false} DegreeAdd(a: nat, b: nat)
    ensures Degree(a) < Degree(b) ==> Degree(Add(a, b)) == Degree(b)
    ensures Degree(a) == Degree(b) >= 0 ==> Degree(Add(a, b)) < Degree(a)
    decreases a + b
  {
    if a != 0 && b != 0 {
      DegreeAdd(a / 2, b / 2);
      assert Add(a, b) / 2 == Add(a / 2, b / 2);
      if a / 2 == 0 && b / 2 == 0 { assert a == 1 && b == 1; }
    }
  }

  lemma {:induction false} DegreeShift(a: nat, k: nat)
    requires a != 0
    ensures Degree(Shift(a, k)) == Degree(a) + k
  {
    if k > 0 { DegreeShift(a, k - 1); }
  }

  lemma {:induction false} DegreeMul(a: nat, b: nat)
    requires a != 0 && b != 0
    ensures Mul(a, b) != 0 && Degree(Mul(a, b)) == Degree(a) + Degree(b)
    decreases b
  {
    if b / 2 != 0 {
      DegreeMul(a, b / 2);
      DegreeAdd(a, 2 * Mul(a, b / 2));
    }
  }

  lemma {:induction false} DegreeBound(a: nat, k: nat)
    ensures a < Shift(1, k) <==> Degree(a) < k
  {
    if k > 0 && a != 0 { DegreeBound(a / 2, k - 1); }
  }

  lemma {:induction false} WordIs64Bits(a: nat)
    ensures a < WORD <==> Degree(a) < 64
    ensures 2 * a < WORD <==> Degree(a) < 63
  {
    DegreeBound(a, 64);
    DegreeBound(a, 63);
    ShiftValue();
  }

  lemma {:induction false} ShiftValue()
    ensures Shift(1, 64) == WORD && Shift(1, 63) == WORD / 2
  {
    assert Shift(1, 8) == 256;
    assert Shift(1, 16) == 256 * 256 by { assert Shift(1, 12) == 4096; }
    assert Shift(1, 24) == 256 * 256 * 256 by { assert Shift(1, 20) == 1048576; }
    assert Shift(1, 32) == 0x1_0000_0000 by { assert Shift(1, 28) == 268435456; }
    assert Shift(1, 40) == 0x100_0000_0000 by { assert Shift(1, 36) == 0x10_0000_0000; }
    assert Shift(1, 48) == 0x1_0000_0000_0000 by { assert Shift(1, 44) == 0x1000_0000_0000; }
    assert Shift(1, 56) == 0x100_0000_0000_0000 by { assert Shift(1, 52) == 0x10_0000_0000_0000; }
    assert Shift(1, 60) == 0x1000_0000_0000_0000;
  }

  // ---------------------------------------------------------------- remainders

  /** Long division, as `Polynom64::modulo` of the crate `rustic_cdc` does it: cancel the leading
      term until the degree is below that of the modulus. */
  function Mod(p: nat, m: nat): (r: nat)
    requires m != 0
    ensures Degree(r) < Degree(m)
    decreases Degree(p) + 1
  {
    if Degree(p) < Degree(m) then p
    else
      DegreeShift(m, Degree(p) - Degree(m));
      DegreeAdd(p, Shift(m, Degree(p) - Degree(m)));
      Mod(Add(p, Shift(m, Degree(p) - Degree(m))), m)
  }

  /** a and b have the same remainder: m divides their difference. */
  ghost predicate Cong(a: nat, b: nat, m: nat)
  {
    exists q :: Mul(q, m) == Add(a, b)
  }

  lemma {:induction false} CongRefl(a: nat, m: nat)
    ensures Cong(a, a, m)
  {
    MulZero(m); AddSelf(a);
    assert Mul(0, m) == Add(a, a);
  }

  lemma {:induction false} CongSym(a: nat, b: nat, m: nat)
    ensures Cong(a, b, m) == Cong(b, a, m)
  {
    AddComm(a, b);
  }

  lemma {:induction false} CongTrans(a: nat, b: nat, c: nat, m: nat)
    requires Cong(a, b, m) && Cong(b, c, m)
    ensures Cong(a, c, m)
  {
    var q, r :| Mul(q, m) == Add(a, b) && Mul(r, m) == Add(b, c);
    MulAddLeft(q, r, m);
    AddAssoc(a, b, Add(b, c));
    AddCancel(b, c);
    assert Mul(Add(q, r), m) == Add(a, c);
  }

  lemma {:induction false} CongAdd(a: nat, b: nat, c: nat, d: nat, m: nat)
    requires Cong(a, b, m) && Cong(c, d, m)
    ensures Cong(Add(a, c), Add(b, d), m)
  {
    var q, r :| Mul(q, m) == Add(a, b) && Mul(r, m) == Add(c, d);
    MulAddLeft(q, r, m);
    AddSwap(a, b, c, d);
    assert Mul(Add(q, r), m) == Add(Add(a, c), Add(b, d));
  }

  lemma {:induction false} CongMul(a: nat, b: nat, c: nat, m: nat)
    requires Cong(a, b, m)
    ensures Cong(Mul(a, c), Mul(b, c), m)
  {
    var q :| Mul(q, m) == Add(a, b);
    MulAddLeft(a, b, c);
    MulAssoc(q, m, c); MulComm(m, c); MulAssoc(q, c, m);
    assert Mul(Mul(q, c), m) == Add(Mul(a, c), Mul(b, c));
  }

  lemma {:induction false} ModCong(p: nat, m: nat)
    requires m != 0
    ensures Cong(Mod(p, m), p, m)
    decreases Degree(p) + 1
  {
    if Degree(p) < Degree(m) {
      CongRefl(p, m);
    } else {
      var k := Degree(p) - Degree(m);
      var p' := Add(p, Shift(m, k));
      DegreeShift(m, k);
      DegreeAdd(p, Shift(m, k));
      ModCong(p', m);
      ShiftIsMul(m, k);
      AddComm(p, Shift(m, k));
      AddCancel(p, Shift(m, k));
      AddComm(p', p);
      assert Mul(Shift(1, k), m) == Add(p', p);
      CongTrans(Mod(p, m), p', p, m);
    }
  }

  /** A remainder is determined by its degree and its class. */
  lemma {:induction false} ModUnique(p: nat, r: nat, m: nat)
    requires m != 0 && Degree(r) < Degree(m) && Cong(r, p, m)
    ensures Mod(p, m) == r
  {
    var s := Mod(p, m);
    ModCong(p, m);
    CongSym(r, p, m);
    CongTrans(s, p, r, m);
    var q :| Mul(q, m) == Add(s, r);
    DegreeAdd(s, r); DegreeAdd(r, s); AddComm(s, r);
    if q != 0 {
      DegreeMul(q, m);
      assert false;
    }
    MulZero(m);
    AddCancel(s, r);
  }

  /** Two polynomials have the same remainder exactly when they are congruent. */
  lemma {:induction false} ModEqualIffCong(a: nat, b: nat, m: nat)
    requires m != 0
    ensures Mod(a, m) == Mod(b, m) <==> Cong(a, b, m)
  {
    ModCong(a, m); ModCong(b, m);
    CongSym(Mod(a, m), a, m);
    CongSym(Mod(b, m), b, m);
    if Cong(a, b, m) {
      CongTrans(Mod(a, m), a, b, m);
      ModUnique(b, Mod(a, m), m);
    } else if Mod(a, m) == Mod(b, m) {
      CongTrans(a, Mod(a, m), b, m);
    }
  }

  // ---------------------------------------------------------------- mulmod

  /** What the loop of `mulmod` computes for all 64-bit operands: the first shift of the left
      operand drops its bit 63, every later one is exact because the operand is reduced by then. */
  function MulModSpec(a: nat, b: nat, m: nat): nat
    requires m != 0
  {
    Mod(Add(Pick(a, b), Mul(2 * a % WORD, b / 2)), m)
  }

  /** One turn of the loop keeps the value still to be computed. */
  lemma {:induction false} MulModStep(res: nat, a: nat, b: nat, m: nat)
    requires 0 < m < WORD
    ensures var a' := Mod(2 * a % WORD, m);
      Mod(Add(Mod(Add(res, Pick(a', b / 2)), m), Mul(2 * a' % WORD, b / 2 / 2)), m)
        == Mod(Add(res, Mul(2 * a % WORD, b / 2)), m)
  {
    var sh, b' := 2 * a % WORD, b / 2;
    var a' := Mod(sh, m);
    WordIs64Bits(m);
    WordIs64Bits(a');
    assert 2 * a' % WORD == 2 * a';
    var x, y := Pick(a', b'), Mul(2 * a', b' / 2);
    assert Mul(a', b') == Add(x, y) by { MulUnfold(a', b'); MulDouble(a', b' / 2); }
    // res + a'*b' is congruent to res + sh*b'
    ModCong(sh, m);
    CongMul(a', sh, b', m);
    CongRefl(res, m);
    CongAdd(res, res, Mul(a', b'), Mul(sh, b'), m);
    AddAssoc(res, x, y);
    // reducing res + x first makes no difference
    ModCong(Add(res, x), m);
    CongRefl(y, m);
    CongAdd(Mod(Add(res, x), m), Add(res, x), y, y, m);
    CongTrans(Add(Mod(Add(res, x), m), y), Add(res, Add(x, y)), Add(res, Mul(sh, b')), m);
    ModEqualIffCong(Add(Mod(Add(res, x), m), y), Add(res, Mul(sh, b')), m);
  }

  method MulMod(self: nat, other: nat, modulo: nat) returns (res: nat)
    requires self < WORD && other < WORD && 0 < modulo < WORD
    ensures res == MulModSpec(self, other, modulo)
    ensures Degree(res) < Degree(modulo)
  {
    ghost var goal := MulModSpec(self, other, modulo);
    if self == 0 || other == 0 {
      MulZero(other / 2);
      return 0;
    }
    res := 0;
    var a: nat, b: nat := self, other;
    if b % 2 > 0 {
      res := Mod(Add(res, a), modulo);
    }
    assert goal == Mod(Add(res, Mul(2 * a % WORD, b / 2)), modulo) by {
      var y := Mul(2 * a % WORD, b / 2);
      ModCong(a, modulo); CongRefl(y, modulo);
      CongAdd(Mod(a, modulo), a, y, y, modulo);
      ModEqualIffCong(Add(Mod(a, modulo), y), Add(a, y), modulo);
    }
    while b != 0
      invariant goal == Mod(Add(res, Mul(2 * a % WORD, b / 2)), modulo)
      invariant Degree(res) < Degree(modulo)
      decreases b
    {
      MulModStep(res, a, b, modulo);
      a := Mod(2 * a % WORD, modulo);
      b := b / 2;
      if b % 2 > 0 {
        res := Mod(Add(res, a), modulo);
      }
    }
  }

  /** `mulmod` is the reduced carry-less product, for operands whose shift loses no bit. */
  lemma {:induction false} MulModCorrect(a: nat, b: nat, m: nat)
    requires a < WORD / 2 && 0 < m
    ensures MulModSpec(a, b, m) == Mod(Mul(a, b), m)
  {
    MulUnfold(a, b);
    MulDoubleLeft(a, b / 2);
    assert 2 * a % WORD == 2 * a;
  }

  /** With bit 63 set in the left operand the product lacks what the shift drops. */
  lemma {:induction false} LostPart(a: nat, b: nat)
    requires WORD / 2 <= a < WORD
    ensures Mul(a, b) == Add(Add(Pick(a, b), Mul(2 * a % WORD, b / 2)), Mul(WORD, b / 2))
  {
    var h, low := b / 2, 2 * a % WORD;
    assert low == 2 * a - WORD;
    assert Add(low, WORD) == 2 * a by { TopBit(low); }
    calc {
      Mul(a, b);
      { MulUnfold(a, b); MulDoubleLeft(a, h); }
      Add(Pick(a, b), Mul(2 * a, h));
      { MulAddLeft(low, WORD, h); }
      Add(Pick(a, b), Add(Mul(low, h), Mul(WORD, h)));
      { AddAssoc(Pick(a, b), Mul(low, h), Mul(WORD, h)); }
      Add(Add(Pick(a, b), Mul(low, h)), Mul(WORD, h));
    }
  }

  lemma {:induction false} CongLost(x: nat, lost: nat, m: nat)
    requires 0 < m
    ensures Mod(x, m) == Mod(Add(x, lost), m) <==> Mod(lost, m) == 0
  {
    ModEqualIffCong(x, Add(x, lost), m);
    AddCancel(x, lost);
    ModEqualIffCong(lost, 0, m);
    assert Add(lost, 0) == lost && Mod(0, m) == 0;
  }

  /** With bit 63 set in the left operand the result is right if and only if the modulus divides
      x^64 times the upper part of the right operand. */
  lemma {:induction false} MulModExact(a: nat, b: nat, m: nat)
    requires WORD / 2 <= a < WORD && 0 < m
    ensures MulModSpec(a, b, m) == Mod(Mul(a, b), m) <==> Mod(Mul(WORD, b / 2), m) == 0
  {
    LostPart(a, b);
    CongLost(Add(Pick(a, b), Mul(2 * a % WORD, b / 2)), Mul(WORD, b / 2), m);
  }

  lemma {:induction false} TopBit(r: nat)
    requires r < WORD
    ensures Add(r, WORD) == r + WORD
  {
    ShiftValue();
    AddDisjoint(r, 64);
  }

  lemma {:induction false} AddDisjoint(r: nat, k: nat)
    requires r < Shift(1, k)
    ensures Add(r, Shift(1, k)) == r + Shift(1, k)
  {
    if k > 0 && r != 0 {
      var top := Shift(1, k - 1);
      AddDisjoint(r / 2, k - 1);
      AddUnfold(r, 2 * top);
      assert 2 * top / 2 == top && (r + 2 * top) % 2 == r % 2;
    }
  }

  lemma {:induction false} MulModWrongOnTopBit()
    ensures MulModSpec(WORD / 2, 2, 3) != Mod(Mul(WORD / 2, 2), 3)
  {
    MulModExact(WORD / 2, 2, 3);
    MulOne(WORD);
    ShiftValue();
    XPowerModXPlus1(64);
  }

  /** x^k leaves remainder 1 on division by x + 1. */
  lemma {:induction false} XPowerModXPlus1(k: nat)
    ensures Mod(Shift(1, k), 3) == 1
  {
    assert Degree(3) == 1 && Degree(1) == 0;
    if k > 0 {
      XPowerModXPlus1(k - 1);
      var p := Shift(1, k - 1);
      assert Add(2 * p, p) == Mul(p, 3) by { AddComm(2 * p, p); MulUnfold(p, 3); MulUnfold(p, 1); }
      assert Mul(p, 3) == Add(2 * p, p);
      ModEqualIffCong(2 * p, p, 3);
    }
  }

  // ---------------------------------------------------------------- qp and gcd

  function Pow2(k: nat): nat
  {
    if k == 0 then 1 else 2 * Pow2(k - 1)
  }

  /** `qp(p, g)` is (x^(2^p) + x) mod g. */
  method Qp(p: nat, g: nat) returns (res: nat)
    requires 0 < g < WORD
    ensures res == Mod(Add(Shift(1, Pow2(p)), Shift(1, 1)), g)
  {
    res := 2;
    CongRefl(2, g);
    for i := 0 to p
      invariant res < WORD / 2
      invariant Cong(res, Shift(1, Pow2(i)), g)
    {
      MulModCorrect(res, res, g);
      QpStep(res, Shift(1, Pow2(i)), g);
      ShiftAdds(Pow2(i), Pow2(i));
      res := MulMod(res, res, g);
      WordIs64Bits(g);
      WordIs64Bits(res);
    }
    ghost var power := Shift(1, Pow2(p));
    CongRefl(2, g);
    CongAdd(res, power, 2, 2, g);
    ModEqualIffCong(Add(res, 2), Add(power, 2), g);
    res := Mod(Add(res, 2), g);
  }

  lemma {:induction false} QpStep(r: nat, power: nat, g: nat)
    requires g != 0 && Cong(r, power, g)
    ensures Cong(Mod(Mul(r, r), g), Mul(power, power), g)
  {
    CongMul(r, power, r, g);
    CongMul(r, power, power, g);
    MulComm(power, r);
    CongTrans(Mul(r, r), Mul(power, r), Mul(power, power), g);
    ModCong(Mul(r, r), g);
    CongTrans(Mod(Mul(r, r), g), Mul(r, r), Mul(power, power), g);
  }

  function Gcd(self: nat, other: nat): (g: nat)
    decreases Degree(self) + Degree(other) + 2
  {
    if other == 0 then self
    else if self == 0 then other
    else if Degree(self) < Degree(other) then Gcd(self, Mod(other, self))
    else Gcd(other, Mod(self, other))
  }

  ghost predicate Divides(d: nat, a: nat)
  {
    exists q :: Mul(q, d) == a
  }

  lemma {:induction false} DividesAdd(d: nat, a: nat, b: nat)
    requires Divides(d, a) && Divides(d, b)
    ensures Divides(d, Add(a, b))
  {
    var q, r :| Mul(q, d) == a && Mul(r, d) == b;
    MulAddLeft(q, r, d);
    assert Mul(Add(q, r), d) == Add(a, b);
  }

  lemma {:induction false} DividesTrans(d: nat, e: nat, a: nat)
    requires Divides(d, e) && Divides(e, a)
    ensures Divides(d, a)
  {
    var q, r :| Mul(q, d) == e && Mul(r, e) == a;
    MulAssoc(r, q, d);
    assert Mul(Mul(r, q), d) == a;
  }

  /** Dividing b by a changes neither the common divisors nor whether d is one. */
  lemma {:induction false} DividesMod(d: nat, a: nat, b: nat)
    requires a != 0 && Divides(d, a)
    ensures Divides(d, Mod(b, a)) <==> Divides(d, b)
  {
    ModCong(b, a);
    var q :| Mul(q, a) == Add(Mod(b, a), b);
    assert Divides(a, Add(Mod(b, a), b));
    DividesTrans(d, a, Add(Mod(b, a), b));
    AddCancel(Mod(b, a), b);
    AddCancel(b, Mod(b, a));
    if Divides(d, b) {
      DividesAdd(d, Add(Mod(b, a), b), b);
      AddComm(Add(Mod(b, a), b), b); AddComm(Mod(b, a), b);
    } else if Divides(d, Mod(b, a)) {
      DividesAdd(d, Mod(b, a), Add(Mod(b, a), b));
    }
  }

  lemma {:induction false} DividesSelf(a: nat)
    ensures Divides(a, a) && Divides(a, 0)
  {
    MulOne(a); MulZero(a);
    assert Mul(1, a) == a && Mul(0, a) == 0;
  }

  /** `gcd` is a common divisor, and every common divisor divides it. */
  lemma {:induction false} GcdIsGreatest(a: nat, b: nat, d: nat)
    ensures Divides(Gcd(a, b), a) && Divides(Gcd(a, b), b)
    ensures Divides(d, Gcd(a, b)) <==> Divides(d, a) && Divides(d, b)
    decreases Degree(a) + Degree(b) + 2
  {
    DividesSelf(a); DividesSelf(b); DividesSelf(d);
    if a != 0 && b != 0 {
      if Degree(a) < Degree(b) {
        GcdIsGreatest(a, Mod(b, a), d);
        DividesMod(Gcd(a, b), a, b);
        if Divides(d, a) { DividesMod(d, a, b); }
      } else {
        GcdIsGreatest(b, Mod(a, b), d);
        DividesMod(Gcd(a, b), b, a);
        if Divides(d, b) { DividesMod(d, b, a); }
      }
    }
  }
}
