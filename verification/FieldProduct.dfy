/**
  Multiplication in GF(256): `Mul` is what `gfMul` computes from the logarithm tables. The field laws
  are proved from it, and it is shown to be the remainder of the carry-less product modulo 0x11d.
*/
module FieldProduct {
  import opened Galois

  /** `gfMul`: zero absorbs, otherwise add the logarithms. */
  ghost function Mul(a: Byte, b: Byte): Byte
  {
    if a == ZERO || b == ZERO then ZERO else Pow(Log(a) + Log(b))
  }

  // ---------------------------------------------------------------- shift-and-add product

  /** The shift-and-add product: add `a` doubled i times for every binary digit i of `n`. */
  function ShiftAdd(a: Byte, n: nat): Byte
    decreases n
  {
    if n == 0 then ZERO else Add(Select(Odd(n), a), ShiftAdd(Double(a), n / 2))
  }

  function Select(bit: bool, a: Byte): Byte
  {
    if bit then a else ZERO
  }

  lemma AddSwap(a: Byte, b: Byte, c: Byte, d: Byte)
    ensures Add(Add(a, b), Add(c, d)) == Add(Add(a, c), Add(b, d))
  {
  }

  lemma SelectAdd(bit: bool, a: Byte, b: Byte)
    ensures Select(bit, Add(a, b)) == Add(Select(bit, a), Select(bit, b))
  {
  }

  lemma {:induction false} ShiftAddSum(a: Byte, b: Byte, n: nat)
    ensures ShiftAdd(Add(a, b), n) == Add(ShiftAdd(a, n), ShiftAdd(b, n))
    decreases n
  {
    hide Add, Double, Select;
    if n == 0 {
      assert Add(ZERO, ZERO) == ZERO by { AddZero(ZERO); }
    } else {
      DoubleAdd(a, b);
      ShiftAddSum(Double(a), Double(b), n / 2);
      SelectAdd(Odd(n), a, b);
      AddSwap(Select(Odd(n), a), Select(Odd(n), b), ShiftAdd(Double(a), n / 2), ShiftAdd(Double(b), n / 2));
    }
  }

  lemma AddZero(a: Byte)
    ensures Add(a, ZERO) == a && Add(ZERO, a) == a && Add(a, a) == ZERO
  {
  }

  lemma DoubleSelect(bit: bool, a: Byte)
    ensures Double(Select(bit, a)) == Select(bit, Double(a))
  {
  }

  lemma {:induction false} ShiftAddDouble(a: Byte, n: nat)
    ensures ShiftAdd(Double(a), n) == Double(ShiftAdd(a, n))
    decreases n
  {
    hide Add, Select;
    if n > 0 {
      ShiftAddDouble(Double(a), n / 2);
      DoubleAdd(Select(Odd(n), a), ShiftAdd(Double(a), n / 2));
      DoubleSelect(Odd(n), a);
    }
  }

  lemma ShiftAddDigit(a: Byte, bit: bool, n: nat)
    ensures ShiftAdd(a, Digit(bit, n)) == Add(Select(bit, a), ShiftAdd(Double(a), n))
  {
    hide Add, Double, Select;
    if Digit(bit, n) == 0 {
      assert Select(bit, a) == ZERO by { SelectNone(a); }
      AddZero(ZERO);
    } else {
      assert Digit(bit, n) / 2 == n && Odd(Digit(bit, n)) == bit;
    }
  }

  lemma SelectNone(a: Byte)
    ensures Select(false, a) == ZERO
  {
  }

  /** The byte whose single bit is bit k. */
  function Unit(k: nat): Byte
  {
    B(k == 7, k == 6, k == 5, k == 4, k == 3, k == 2, k == 1, k == 0)
  }

  lemma ShiftAddOne(b: Byte)
    ensures ShiftAdd(ONE, Value(b)) == b
  {
    hide Add, Double, Digit, Select, Unit, ShiftAdd;
    var n7 := Digit(b.b7, 0);
    var n6 := Digit(b.b6, n7);
    var n5 := Digit(b.b5, n6);
    var n4 := Digit(b.b4, n5);
    var n3 := Digit(b.b3, n4);
    var n2 := Digit(b.b2, n3);
    var n1 := Digit(b.b1, n2);
    Units();
    ShiftAddDigit(Unit(0), b.b0, n1);
    ShiftAddDigit(Unit(1), b.b1, n2);
    ShiftAddDigit(Unit(2), b.b2, n3);
    ShiftAddDigit(Unit(3), b.b3, n4);
    ShiftAddDigit(Unit(4), b.b4, n5);
    ShiftAddDigit(Unit(5), b.b5, n6);
    ShiftAddDigit(Unit(6), b.b6, n7);
    ShiftAddDigit(Unit(7), b.b7, 0);
    assert ShiftAdd(Double(Unit(7)), 0) == ZERO by { ShiftAddNothing(Double(Unit(7))); }
    SumOfUnits(b);
  }

  lemma ShiftAddNothing(a: Byte)
    ensures ShiftAdd(a, 0) == ZERO
  {
  }

  lemma Units()
    ensures Unit(0) == ONE
    ensures forall k: nat | k < 7 :: Double(Unit(k)) == Unit(k + 1)
  {
  }

  lemma SumOfUnits(b: Byte)
    ensures Add(Select(b.b0, Unit(0)), Add(Select(b.b1, Unit(1)), Add(Select(b.b2, Unit(2)), Add(Select(b.b3, Unit(3)),
      Add(Select(b.b4, Unit(4)), Add(Select(b.b5, Unit(5)), Add(Select(b.b6, Unit(6)), Add(Select(b.b7, Unit(7)), ZERO)))))))) == b
  {
    hide Select, Add, Unit;
    SetBit(b, 7);
    SetBit(b, 6);
    SetBit(b, 5);
    SetBit(b, 4);
    SetBit(b, 3);
    SetBit(b, 2);
    SetBit(b, 1);
    SetBit(b, 0);
  }

  /** The bits of `b` from bit k up. */
  function From(b: Byte, k: nat): Byte
  {
    B(k <= 7 && b.b7, k <= 6 && b.b6, k <= 5 && b.b5, k <= 4 && b.b4, k <= 3 && b.b3, k <= 2 && b.b2, k <= 1 && b.b1, k == 0 && b.b0)
  }

  lemma SetBit(b: Byte, k: nat)
    requires k < 8
    ensures Add(Select(Bit(b, k), Unit(k)), From(b, k + 1)) == From(b, k)
  {
  }

  lemma {:induction false} ShiftAddPow(i: nat, b: Byte)
    ensures ShiftAdd(Pow(i), Value(b)) == if i == 0 then b else Double(ShiftAdd(Pow(i - 1), Value(b)))
  {
    if i == 0 { ShiftAddOne(b); } else { ShiftAddDouble(Pow(i - 1), Value(b)); }
  }

  lemma {:induction false} ShiftAddOfPowers(i: nat, j: nat)
    ensures ShiftAdd(Pow(i), Value(Pow(j))) == Pow(i + j)
  {
    hide Double, Value;
    ShiftAddPow(i, Pow(j));
    if i > 0 { ShiftAddOfPowers(i - 1, j); }
  }

  lemma {:induction false} ShiftAddZero(n: nat)
    ensures ShiftAdd(ZERO, n) == ZERO
  {
    if n > 0 { ShiftAddZero(n / 2); }
  }

  /** Adding logarithms is shift-and-add multiplication. */
  lemma {:induction false} MulIsShiftAdd(a: Byte, b: Byte)
    ensures Mul(a, b) == ShiftAdd(a, Value(b))
  {
    hide Pow, ShiftAdd;
    if a == ZERO {
      ShiftAddZero(Value(b));
    } else if b == ZERO {
      ShiftAddNothing(a);
    } else {
      ShiftAddOfPowers(Log(a), Log(b));
    }
  }

  // ---------------------------------------------------------------- field laws

  lemma MulPowers(i: nat, j: nat)
    ensures Mul(Pow(i), Pow(j)) == Pow(i + j)
  {
    MulIsShiftAdd(Pow(i), Pow(j));
    ShiftAddOfPowers(i, j);
  }

  lemma MulComm(a: Byte, b: Byte)
    ensures Mul(a, b) == Mul(b, a)
  {
  }

  lemma MulOne(a: Byte)
    ensures Mul(a, ONE) == a && Mul(ONE, a) == a
  {
    if a != ZERO { MulPowers(Log(a), 0); }
    MulComm(a, ONE);
  }

  lemma MulZero(a: Byte)
    ensures Mul(a, ZERO) == ZERO && Mul(ZERO, a) == ZERO
  {
  }

  lemma MulNonZero(a: Byte, b: Byte)
    requires a != ZERO && b != ZERO
    ensures Mul(a, b) != ZERO
  {
    PowNonZero(Log(a) + Log(b));
  }

  lemma {:induction false} MulAssoc(a: Byte, b: Byte, c: Byte)
    ensures Mul(Mul(a, b), c) == Mul(a, Mul(b, c))
  {
    hide Pow;
    if a != ZERO && b != ZERO && c != ZERO {
      PowNonZero(Log(a) + Log(b));
      PowNonZero(Log(b) + Log(c));
      MulPowers(Log(a) + Log(b), Log(c));
      MulPowers(Log(a), Log(b) + Log(c));
    }
  }

  lemma {:induction false} MulAdd(a: Byte, b: Byte, c: Byte)
    ensures Mul(Add(a, b), c) == Add(Mul(a, c), Mul(b, c))
    ensures Mul(c, Add(a, b)) == Add(Mul(c, a), Mul(c, b))
  {
    MulIsShiftAdd(Add(a, b), c);
    MulIsShiftAdd(a, c);
    MulIsShiftAdd(b, c);
    ShiftAddSum(a, b, Value(c));
    MulComm(Add(a, b), c);
    MulComm(a, c);
    MulComm(b, c);
  }
}

/**
  GF(2)[x] on binary numerals, the reference for the field product: digit i of a numeral is the
  coefficient of x^i, so nothing here knows about bytes, tables or reduction.
*/
module BinaryPolynomials {
  import opened Galois

  function Xor(a: nat, b: nat): nat
  {
    if a == 0 then b else if b == 0 then a else Digit(Odd(a) != Odd(b), Xor(a / 2, b / 2))
  }

  /** The carry-less product. */
  function Clmul(a: nat, b: nat): nat
    decreases b
  {
    if b == 0 then 0 else Xor(if Odd(b) then a else 0, Clmul(2 * a, b / 2))
  }

  lemma XorDigit(i: bool, m: nat, j: bool, n: nat)
    ensures Xor(Digit(i, m), Digit(j, n)) == Digit(i != j, Xor(m, n))
  {
    assert Digit(i, m) / 2 == m && Odd(Digit(i, m)) == i;
    assert Digit(j, n) / 2 == n && Odd(Digit(j, n)) == j;
  }

  lemma SplitDigit(n: nat)
    ensures n == Digit(Odd(n), n / 2)
  {
  }

  lemma {:induction false} XorSelf(a: nat)
    ensures Xor(a, a) == 0
  {
    if a != 0 { XorSelf(a / 2); }
  }

  lemma {:induction false} XorComm(a: nat, b: nat)
    ensures Xor(a, b) == Xor(b, a)
    decreases a
  {
    if a != 0 { XorComm(a / 2, b / 2); }
  }

  lemma {:induction false} XorAssoc(a: nat, b: nat, c: nat)
    ensures Xor(Xor(a, b), c) == Xor(a, Xor(b, c))
    decreases a
  {
    if a != 0 {
      var i, j, k := Odd(a), Odd(b), Odd(c);
      var m, n, p := a / 2, b / 2, c / 2;
      SplitDigit(a);
      SplitDigit(b);
      SplitDigit(c);
      XorAssoc(m, n, p);
      calc {
        Xor(Xor(a, b), c);
        { XorDigit(i, m, j, n); }
        Xor(Digit(i != j, Xor(m, n)), Digit(k, p));
        { XorDigit(i != j, Xor(m, n), k, p); }
        Digit((i != j) != k, Xor(Xor(m, n), p));
        Digit(i != (j != k), Xor(m, Xor(n, p)));
        { XorDigit(i, m, j != k, Xor(n, p)); }
        Xor(Digit(i, m), Digit(j != k, Xor(n, p)));
        { XorDigit(j, n, k, p); }
        Xor(a, Xor(b, c));
      }
    }
  }

  lemma XorSwap(a: nat, b: nat, c: nat, d: nat)
    ensures Xor(Xor(a, b), Xor(c, d)) == Xor(Xor(a, c), Xor(b, d))
  {
    XorAssoc(a, b, Xor(c, d));
    XorAssoc(b, c, d);
    XorComm(b, c);
    XorAssoc(c, b, d);
    XorAssoc(a, c, Xor(b, d));
  }

  lemma XorTwice(a: nat, b: nat)
    ensures Xor(2 * a, 2 * b) == 2 * Xor(a, b)
  {
    XorDigit(false, a, false, b);
  }

  lemma {:induction false} ClmulLeft(a: nat, b: nat, n: nat)
    ensures Clmul(Xor(a, b), n) == Xor(Clmul(a, n), Clmul(b, n))
    decreases n
  {
    if n > 0 {
      XorTwice(a, b);
      ClmulLeft(2 * a, 2 * b, n / 2);
      XorSwap(if Odd(n) then a else 0, if Odd(n) then b else 0, Clmul(2 * a, n / 2), Clmul(2 * b, n / 2));
    }
  }

  lemma ClmulDigit(a: nat, i: bool, n: nat)
    ensures Clmul(a, Digit(i, n)) == Xor(if i then a else 0, Clmul(2 * a, n))
  {
    assert Digit(i, n) / 2 == n && Odd(Digit(i, n)) == i;
  }

  lemma {:induction false} ClmulRight(a: nat, m: nat, n: nat)
    ensures Clmul(a, Xor(m, n)) == Xor(Clmul(a, m), Clmul(a, n))
    decreases m
  {
    if m > 0 {
      var i, j, p, q := Odd(m), Odd(n), m / 2, n / 2;
      SplitDigit(m);
      SplitDigit(n);
      XorDigit(i, p, j, q);
      ClmulDigit(a, i != j, Xor(p, q));
      ClmulDigit(a, i, p);
      ClmulDigit(a, j, q);
      ClmulRight(2 * a, p, q);
      XorSelf(a);
      XorSwap(if i then a else 0, if j then a else 0, Clmul(2 * a, p), Clmul(2 * a, q));
    }
  }
}

/** The table product against the reference product. */
module FieldReference {
  import opened Galois
  import opened FieldProduct
  import opened BinaryPolynomials

  /** The field polynomial x^8 + x^4 + x^3 + x^2 + 1. */
  const FIELD_POLYNOMIAL: nat := 0x11d

  lemma ValueAdd(x: Byte, y: Byte)
    ensures Value(Add(x, y)) == Xor(Value(x), Value(y))
  {
    hide Digit, Xor;
    assert Xor(0, 0) == 0 by { XorSelf(0); }
    var m7, n7 := Digit(x.b7, 0), Digit(y.b7, 0);
    var m6, n6 := Digit(x.b6, m7), Digit(y.b6, n7);
    var m5, n5 := Digit(x.b5, m6), Digit(y.b5, n6);
    var m4, n4 := Digit(x.b4, m5), Digit(y.b4, n5);
    var m3, n3 := Digit(x.b3, m4), Digit(y.b3, n4);
    var m2, n2 := Digit(x.b2, m3), Digit(y.b2, n3);
    var m1, n1 := Digit(x.b1, m2), Digit(y.b1, n2);
    XorDigit(x.b7, 0, y.b7, 0);
    XorDigit(x.b6, m7, y.b6, n7);
    XorDigit(x.b5, m6, y.b5, n6);
    XorDigit(x.b4, m5, y.b4, n5);
    XorDigit(x.b3, m4, y.b3, n4);
    XorDigit(x.b2, m3, y.b2, n3);
    XorDigit(x.b1, m2, y.b1, n2);
    XorDigit(x.b0, m1, y.b0, n1);
  }

  /** The digits of the field polynomial, or of zero. */
  function Reduction(h: bool): nat
  {
    Digit(h, Digit(false, Digit(h, Digit(h, Digit(h, Digit(false, Digit(false, Digit(false, Digit(h, 0)))))))))
  }

  lemma XorReduction(d: Byte, h: bool)
    ensures Xor(Value(d), Reduction(h)) ==
            Digit(d.b0 != h, Digit(d.b1, Digit(d.b2 != h, Digit(d.b3 != h, Digit(d.b4 != h, Digit(d.b5, Digit(d.b6, Digit(d.b7, Digit(h, 0)))))))))
  {
    hide Digit, Xor;
    var m7 := Digit(d.b7, 0);
    var m6 := Digit(d.b6, m7);
    var m5 := Digit(d.b5, m6);
    var m4 := Digit(d.b4, m5);
    var m3 := Digit(d.b3, m4);
    var m2 := Digit(d.b2, m3);
    var m1 := Digit(d.b1, m2);
    var n8 := Digit(h, 0);
    var n7 := Digit(false, n8);
    var n6 := Digit(false, n7);
    var n5 := Digit(false, n6);
    var n4 := Digit(h, n5);
    var n3 := Digit(h, n4);
    var n2 := Digit(h, n3);
    var n1 := Digit(false, n2);
    ZeroXor(n8);
    XorDigit(d.b7, 0, false, n8);
    XorDigit(d.b6, m7, false, n7);
    XorDigit(d.b5, m6, false, n6);
    XorDigit(d.b4, m5, h, n5);
    XorDigit(d.b3, m4, h, n4);
    XorDigit(d.b2, m3, h, n3);
    XorDigit(d.b1, m2, false, n2);
    XorDigit(d.b0, m1, h, n1);
  }

  lemma ValueDouble(x: Byte)
    ensures 2 * Value(x) == Xor(Value(Double(x)), if x.b7 then FIELD_POLYNOMIAL else 0)
  {
    hide Xor;
    assert Reduction(x.b7) == if x.b7 then FIELD_POLYNOMIAL else 0;
    XorReduction(Double(x), x.b7);
    assert 2 * Value(x) == Digit(false, Value(x));
  }

  lemma ZeroXor(n: nat)
    ensures Xor(0, n) == n && Xor(n, 0) == n
  {
  }

  /** Shift-and-add is the carry-less product up to a multiple of the field polynomial. */
  lemma {:induction false} ShiftAddRemainder(a: Byte, n: nat) returns (q: nat)
    ensures Clmul(Value(a), n) == Xor(Clmul(FIELD_POLYNOMIAL, q), Value(ShiftAdd(a, n)))
    decreases n
  {
    if n == 0 {
      q := 0;
    } else {
      q := RemainderStep(a, n);
    }
  }

  lemma ClmulStep(a: Byte, n: nat)
    requires n > 0
    ensures Clmul(Value(a), n) == Xor(Value(Select(Odd(n), a)), Clmul(2 * Value(a), n / 2))
  {
    hide Xor;
    ValueZero();
  }

  lemma ShiftAddStep(a: Byte, n: nat)
    requires n > 0
    ensures ShiftAdd(a, n) == Add(Select(Odd(n), a), ShiftAdd(Double(a), n / 2))
  {
    hide Add, Double;
  }

  lemma CarryProduct(a: Byte, n: nat)
    ensures Clmul(if a.b7 then FIELD_POLYNOMIAL else 0, n / 2) == Clmul(FIELD_POLYNOMIAL, if a.b7 then n / 2 else 0)
  {
    hide Clmul;
    ClmulZero(n / 2);
    ClmulZero(FIELD_POLYNOMIAL);
  }

  lemma {:induction false} RemainderStep(a: Byte, n: nat) returns (q: nat)
    requires n > 0
    ensures Clmul(Value(a), n) == Xor(Clmul(FIELD_POLYNOMIAL, q), Value(ShiftAdd(a, n)))
    decreases n, 0
  {
    var rest := ShiftAddRemainder(Double(a), n / 2);
    var s, d, f := Select(Odd(n), a), ShiftAdd(Double(a), n / 2), FIELD_POLYNOMIAL;
    var overflow, carry := if a.b7 then f else 0, if a.b7 then n / 2 else 0;
    q := Xor(rest, carry);
    var x, y, z := Clmul(f, rest), Value(d), Clmul(overflow, n / 2);
    hide *;
    ClmulStep(a, n);
    ShiftAddStep(a, n);
    CarryProduct(a, n);
    calc {
      Clmul(Value(a), n);
      Xor(Value(s), Clmul(2 * Value(a), n / 2));
      { ValueDouble(a); }
      Xor(Value(s), Clmul(Xor(Value(Double(a)), overflow), n / 2));
      { ClmulLeft(Value(Double(a)), overflow, n / 2); }
      Xor(Value(s), Xor(Xor(x, y), z));
      { XorComm(Value(s), Xor(Xor(x, y), z)); XorAssoc(Xor(x, y), z, Value(s)); XorSwap(x, y, z, Value(s)); }
      Xor(Xor(x, z), Xor(y, Value(s)));
      { XorComm(y, Value(s)); ValueAdd(s, d); }
      Xor(Xor(x, z), Value(ShiftAdd(a, n)));
      { ClmulRight(f, rest, carry); }
      Xor(Clmul(f, q), Value(ShiftAdd(a, n)));
    }
  }

  lemma ValueZero()
    ensures Value(ZERO) == 0
  {
  }

  lemma {:induction false} ClmulZero(n: nat)
    ensures Clmul(0, n) == 0 && Clmul(n, 0) == 0
  {
    if n > 0 { ClmulZero(n / 2); }
  }

  /** `gfMul` is multiplication in GF(2)[x] modulo 0x11d: product = q * 0x11d + remainder, remainder below 256. */
  lemma MulIsCarrylessRemainder(a: Byte, b: Byte)
    ensures exists q: nat :: Clmul(Value(a), Value(b)) == Xor(Clmul(FIELD_POLYNOMIAL, q), Value(Mul(a, b)))
  {
    var q := ShiftAddRemainder(a, Value(b));
    MulIsShiftAdd(a, b);
  }
}
