/**
  The field GF(256) = GF(2)[x] / (x^8 + x^4 + x^3 + x^2 + 1) as src/lib/paymentQr.ts builds it:
  two tables filled by one loop, and a multiplication that adds logarithms.

  A byte is its eight bits and field addition is bitwise exclusive or. The independent reference is
  arithmetic in GF(2)[x] on unbounded binary numerals: `Xor` is the sum, `Clmul` the carry-less
  product. `MulIsCarrylessRemainder` says the table lookup is that product's remainder mod 0x11d.
*/
module Galois {

  datatype Byte = B(b7: bool, b6: bool, b5: bool, b4: bool, b3: bool, b2: bool, b1: bool, b0: bool)

  const ZERO := B(false, false, false, false, false, false, false, false)
  const ONE := B(false, false, false, false, false, false, false, true)

  function Add(x: Byte, y: Byte): Byte
  {
    B(x.b7 != y.b7, x.b6 != y.b6, x.b5 != y.b5, x.b4 != y.b4, x.b3 != y.b3, x.b2 != y.b2, x.b1 != y.b1, x.b0 != y.b0)
  }

  /** Bit k of the byte: `(x >>> k) & 1`. */
  function Bit(x: Byte, k: nat): bool
  {
    if k == 0 then x.b0 else if k == 1 then x.b1 else if k == 2 then x.b2 else if k == 3 then x.b3
    else if k == 4 then x.b4 else if k == 5 then x.b5 else if k == 6 then x.b6 else k == 7 && x.b7
  }

  /** The numeral with last binary digit `bit` and the rest `n`. */
  function Digit(bit: bool, n: nat): nat
  {
    2 * n + if bit then 1 else 0
  }

  /** The byte as the unsigned number the source indexes tables with. */
  function Value(x: Byte): (n: nat)
    ensures n < 256
  {
    Digit(x.b0, Digit(x.b1, Digit(x.b2, Digit(x.b3, Digit(x.b4, Digit(x.b5, Digit(x.b6, Digit(x.b7, 0))))))))
  }

  function Odd(n: nat): bool { n % 2 == 1 }

  function OfValue(n: nat): (x: Byte)
  {
    B(Odd(n / 128), Odd(n / 64), Odd(n / 32), Odd(n / 16), Odd(n / 8), Odd(n / 4), Odd(n / 2), Odd(n))
  }

  lemma DigitInjective(i: bool, m: nat, j: bool, n: nat)
    requires Digit(i, m) == Digit(j, n)
    ensures i == j && m == n
  {
  }

  lemma DigitOfHalf(n: nat)
    ensures Digit(Odd(n), n / 2) == n
  {
  }

  lemma ValueOfValue(n: nat)
    requires n < 256
    ensures Value(OfValue(n)) == n
  {
    DigitOfHalf(n);
    DigitOfHalf(n / 2);
    DigitOfHalf(n / 4);
    DigitOfHalf(n / 8);
    DigitOfHalf(n / 16);
    DigitOfHalf(n / 32);
    DigitOfHalf(n / 64);
    DigitOfHalf(n / 128);
    assert n / 2 / 2 == n / 4 && n / 4 / 2 == n / 8 && n / 8 / 2 == n / 16 && n / 16 / 2 == n / 32;
    assert n / 32 / 2 == n / 64 && n / 64 / 2 == n / 128 && n / 128 / 2 == 0;
  }

  function High(x: Byte): nat
  {
    Digit(x.b4, Digit(x.b5, Digit(x.b6, Digit(x.b7, 0))))
  }

  lemma ValueInjective(x: Byte, y: Byte)
    requires Value(x) == Value(y)
    ensures x == y
  {
    var p, q := High(x), High(y);
    DigitInjective(x.b0, Digit(x.b1, Digit(x.b2, Digit(x.b3, p))), y.b0, Digit(y.b1, Digit(y.b2, Digit(y.b3, q))));
    DigitInjective(x.b1, Digit(x.b2, Digit(x.b3, p)), y.b1, Digit(y.b2, Digit(y.b3, q)));
    DigitInjective(x.b2, Digit(x.b3, p), y.b2, Digit(y.b3, q));
    DigitInjective(x.b3, p, y.b3, q);
    HighInjective(x, y);
  }

  lemma HighInjective(x: Byte, y: Byte)
    requires High(x) == High(y)
    ensures x.b4 == y.b4 && x.b5 == y.b5 && x.b6 == y.b6 && x.b7 == y.b7
  {
    DigitInjective(x.b4, Digit(x.b5, Digit(x.b6, Digit(x.b7, 0))), y.b4, Digit(y.b5, Digit(y.b6, Digit(y.b7, 0))));
    DigitInjective(x.b5, Digit(x.b6, Digit(x.b7, 0)), y.b5, Digit(y.b6, Digit(y.b7, 0)));
    DigitInjective(x.b6, Digit(x.b7, 0), y.b6, Digit(y.b7, 0));
  }

  // ---------------------------------------------------------------- powers of the generator 2

  /** Multiplication by x: shift left, and cancel bit 8 with the field polynomial. */
  function Double(x: Byte): Byte
  {
    B(x.b6, x.b5, x.b4, x.b3 != x.b7, x.b2 != x.b7, x.b1 != x.b7, x.b0, x.b7)
  }

  lemma DoubleAdd(x: Byte, y: Byte)
    ensures Double(Add(x, y)) == Add(Double(x), Double(y))
  {
  }

  lemma DoubleInjective(x: Byte, y: Byte)
    requires Double(x) == Double(y)
    ensures x == y
  {
  }

  function Pow(n: nat): Byte
  {
    if n == 0 then ONE else Double(Pow(n - 1))
  }

  /** Squaring is linear over GF(2): bit i of x contributes 2^(2i). */
  function Square(x: Byte): Byte
  {
    B(x.b6,
      (x.b6 != x.b5) != x.b3,
      x.b5,
      ((x.b7 != x.b5) != x.b4) != x.b2,
      x.b6 != x.b4,
      ((x.b6 != x.b5) != x.b4) != x.b1,
      x.b7,
      ((x.b7 != x.b6) != x.b4) != x.b0)
  }

  lemma SquareOfDouble(x: Byte)
    ensures Square(Double(x)) == Double(Double(Square(x)))
  {
  }

  lemma {:induction false} PowSquare(n: nat)
    ensures Pow(2 * n) == Square(Pow(n))
  {
    if n > 0 {
      PowSquare(n - 1);
      SquareOfDouble(Pow(n - 1));
      assert Pow(2 * n) == Double(Double(Pow(2 * (n - 1))));
    }
  }

  /** Squaring 2 eight times gives 2 again, so the order of 2 divides 255. */
  lemma Power255()
    ensures Pow(255) == ONE && Pow(16) == B(false, true, false, false, true, true, false, false)
  {
    PowSquare(1);
    PowSquare(2);
    PowSquare(4);
    PowSquare(8);
    assert Pow(1) == B(false, false, false, false, false, false, true, false);
    assert Pow(2) == B(false, false, false, false, false, true, false, false);
    assert Pow(4) == B(false, false, false, true, false, false, false, false);
    assert Pow(8) == B(false, false, false, true, true, true, false, true);
    PowSquare(16);
    PowSquare(32);
    PowSquare(64);
    PowSquare(128);
    assert Pow(32) == B(true, false, false, true, true, true, false, true);
    assert Pow(64) == B(false, true, false, true, true, true, true, true);
    assert Pow(128) == B(true, false, false, false, false, true, false, true);
    assert Pow(256) == Double(Pow(255));
    DoubleInjective(Pow(255), ONE);
  }

  /** The order of 2 divides none of 15, 51 and 85, the maximal proper divisors of 255. */
  lemma NotOrder15()
    ensures Pow(15) != ONE
  {
    Power255();
    assert Pow(16) == Double(Pow(15));
  }

  lemma Power25()
    ensures Pow(25) == B(false, false, false, false, false, false, true, true)
  {
    assert Pow(3) == B(false, false, false, false, true, false, false, false);
    PowSquare(3);
    PowSquare(6);
    assert Pow(12) == B(true, true, false, false, true, true, false, true);
    PowSquare(12);
    assert Pow(25) == Double(Pow(24));
  }

  lemma NotOrder51()
    ensures Pow(51) != ONE
  {
    Power25();
    PowSquare(25);
    assert Pow(51) == Double(Pow(50));
  }

  lemma Power21()
    ensures Pow(21) == B(false, true, true, true, false, true, false, true)
  {
    assert Pow(5) == B(false, false, true, false, false, false, false, false);
    PowSquare(5);
    PowSquare(10);
    assert Pow(21) == Double(Pow(20));
  }

  lemma NotOrder85()
    ensures Pow(85) != ONE
  {
    Power21();
    PowSquare(21);
    PowSquare(42);
    assert Pow(85) == Double(Pow(84));
  }

  lemma {:induction false} ProperDivisor(e: nat, k: nat)
    requires 1 <= e < 255 && e * k == 255
    ensures 15 % e == 0 || 51 % e == 0 || 85 % e == 0
  {
    if k <= 15 {
      assert k == 3 || k == 5 || k == 15;
    } else {
      assert e <= 15;
      assert e == 1 || e == 3 || e == 5 || e == 15;
    }
  }

  lemma {:induction false} PowMultiple(d: nat, q: nat, r: nat)
    requires Pow(d) == ONE
    ensures q * d + r >= 0 && Pow(q * d + r) == Pow(r)
    decreases q
  {
    if q > 0 {
      var n := (q - 1) * d + r;
      PowMultiple(d, q - 1, r);
      PowAddSame(d, 0, n);
      assert q * d + r == n + d;
    }
  }

  lemma PowModulo(d: nat, n: nat)
    requires d > 0 && Pow(d) == ONE
    ensures Pow(n) == Pow(n % d)
  {
    PowMultiple(d, n / d, n % d);
    assert n == n / d * d + n % d;
  }

  lemma {:induction false} PowAddSame(i: nat, j: nat, k: nat)
    ensures Pow(i) == Pow(j) <==> Pow(i + k) == Pow(j + k)
    decreases k
  {
    if k > 0 {
      PowAddSame(i, j, k - 1);
      if Pow(i + k) == Pow(j + k) {
        DoubleInjective(Pow(i + k - 1), Pow(j + k - 1));
      }
    }
  }

  lemma {:induction false} PowPeriod(n: nat)
    ensures Pow(n + 255) == Pow(n)
  {
    Power255();
    PowAddSame(255, 0, n);
  }

  /** 2 is a primitive element: its first 254 powers are not 1. */
  lemma {:induction false} OrderIs255(d: nat)
    requires 0 < d < 255
    ensures Pow(d) != ONE
    decreases d
  {
    if Pow(d) == ONE {
      Power255();
      PowModulo(d, 255);
      if 255 % d == 0 {
        ProperDivisor(d, 255 / d);
        PowModulo(d, 15);
        PowModulo(d, 51);
        PowModulo(d, 85);
        NotOrder15();
        NotOrder51();
        NotOrder85();
        assert false;
      } else {
        OrderIs255(255 % d);
      }
    }
  }

  lemma {:induction false} PowInjective(i: nat, j: nat)
    requires i < 255 && j < 255 && Pow(i) == Pow(j)
    ensures i == j
  {
    if i < j {
      PowAddSame(0, j - i, i);
      OrderIs255(j - i);
    } else if j < i {
      PowAddSame(0, i - j, j);
      OrderIs255(i - j);
    }
  }

  lemma {:induction false} PowNonZero(n: nat)
    ensures Pow(n) != ZERO
  {
    if n > 0 { PowNonZero(n - 1); }
  }

  // ---------------------------------------------------------------- every nonzero byte is a power of 2

  ghost function PowerValues(k: nat): set<nat>
  {
    set n: nat | 0 <= n < k :: Value(Pow(n))
  }

  lemma NoPowers()
    ensures PowerValues(0) == {}
  {
  }

  lemma {:induction false} PowerValuesCount(k: nat)
    requires k <= 255
    ensures |PowerValues(k)| == k
  {
    hide Value, Pow, PowerValues;
    if k == 0 {
      NoPowers();
    } else {
      PowerValuesCount(k - 1);
      var v := Value(Pow(k - 1));
      forall n: nat | n < k - 1 ensures Value(Pow(n)) != v {
        if Value(Pow(n)) == v {
          ValueInjective(Pow(n), Pow(k - 1));
          PowInjective(n, k - 1);
        }
      }
      PowerValuesGrow(k);
      NewPower(k - 1, v);
    }
  }

  lemma PowerValuesGrow(k: nat)
    requires k > 0
    ensures PowerValues(k) == PowerValues(k - 1) + {Value(Pow(k - 1))}
  {
    hide Value, Pow;
  }

  lemma NewPower(k: nat, v: nat)
    requires forall n: nat | n < k :: Value(Pow(n)) != v
    ensures v !in PowerValues(k)
  {
    hide Value, Pow;
  }

  /** A set of k numbers between 1 and k holds them all. */
  lemma {:induction false} BelowCount(s: set<nat>, k: nat)
    requires forall n | n in s :: 0 < n <= k
    ensures |s| <= k
    ensures |s| == k ==> forall n: nat | 0 < n <= k :: n in s
    decreases k
  {
    if k == 0 {
      assert s == {};
    } else {
      var t := s - {k};
      BelowCount(t, k - 1);
      if k in s {
        assert s == t + {k};
      } else {
        assert s == t;
      }
    }
  }

  lemma EveryNonZeroIsPower(a: Byte)
    requires a != ZERO
    ensures exists n: nat :: n < 255 && Pow(n) == a
  {
    PowerValuesCount(255);
    forall v | v in PowerValues(255) ensures 0 < v <= 255 {
      var n: nat :| n < 255 && v == Value(Pow(n));
      PowNonZero(n);
      if Value(Pow(n)) == 0 { ValueInjective(Pow(n), ZERO); }
    }
    BelowCount(PowerValues(255), 255);
    if Value(a) == 0 { ValueInjective(a, ZERO); }
    assert Value(a) in PowerValues(255);
    var n: nat :| n < 255 && Value(a) == Value(Pow(n));
    ValueInjective(a, Pow(n));
  }

  ghost function Log(a: Byte): (n: nat)
    requires a != ZERO
    ensures n < 255 && Pow(n) == a
  {
    EveryNonZeroIsPower(a);
    var n: nat :| n < 255 && Pow(n) == a;
    n
  }
}
