/** Polynomials over GF(256) as sequences of coefficients, highest degree first. */
module Polynomials {
  import opened Galois
  import opened FieldProduct

  type Poly = seq<Byte>

  ghost function Term(p: Poly, q: Poly, k: int, i: nat): Byte
    requires i < |p|
  {
    if 0 <= k - i < |q| then Mul(p[i], q[k - i]) else ZERO
  }

  /** The terms p[i] * q[k - i] of coefficient k with i < n. */
  ghost function Convolution(p: Poly, q: Poly, k: int, n: nat): Byte
    requires n <= |p|
  {
    if n == 0 then ZERO else Add(Convolution(p, q, k, n - 1), Term(p, q, k, n - 1))
  }

  ghost function Coefficient(p: Poly, q: Poly, k: int): Byte
  {
    Convolution(p, q, k, |p|)
  }

  ghost function Product(p: Poly, q: Poly): (r: Poly)
    requires |p| + |q| > 0
    ensures |r| == |p| + |q| - 1
  {
    seq(|p| + |q| - 1, k => Coefficient(p, q, k))
  }

  /** `c` is an exact multiple of `g`. */
  ghost predicate Multiple(g: Poly, c: Poly)
    requires |g| > 0
  {
    exists q: Poly :: |q| + |g| - 1 == |c| && Product(g, q) == c
  }

  function Zeros(n: nat): Poly
  {
    seq(n, _ => ZERO)
  }

  lemma AddAssoc(a: Byte, b: Byte, c: Byte)
    ensures Add(Add(a, b), c) == Add(a, Add(b, c))
  {
  }

  lemma AddComm(a: Byte, b: Byte)
    ensures Add(a, b) == Add(b, a)
  {
  }

  lemma AddShuffle(a: Byte, b: Byte, c: Byte)
    ensures Add(Add(a, b), c) == Add(Add(a, c), b)
    ensures Add(Add(a, b), Add(c, b)) == Add(a, c)
  {
    hide Add;
    AddAssoc(a, b, c);
    AddComm(b, c);
    AddAssoc(a, c, b);
    AddSwap(a, b, c, b);
    AddZero(b);
    AddZero(Add(a, c));
  }

  /** Changing one coefficient of a factor adds a shifted, scaled copy of the other factor. */
  lemma {:induction false} ConvolutionUpdate(p: Poly, q: Poly, j: nat, c: Byte, k: int, n: nat)
    requires n <= |p| && j < |q|
    ensures Convolution(p, q[j := Add(q[j], c)], k, n) ==
            Add(Convolution(p, q, k, n), if 0 <= k - j < n then Mul(p[k - j], c) else ZERO)
    decreases n
  {
    hide Add;
    AddZero(ZERO);
    if n > 0 {
      var r := q[j := Add(q[j], c)];
      ConvolutionUpdate(p, q, j, c, k, n - 1);
      var sum, t := Convolution(p, q, k, n - 1), Term(p, q, k, n - 1);
      AddZero(sum);
      AddZero(Add(sum, t));
      if k - j == n - 1 {
        MulAdd(q[j], c, p[n - 1]);
        AddAssoc(sum, t, Mul(p[n - 1], c));
      } else {
        assert Term(p, r, k, n - 1) == t;
        if 0 <= k - j < n - 1 {
          AddShuffle(sum, Mul(p[k - j], c), t);
        }
      }
    }
  }

  /** Appending a zero coefficient appends a zero to the product. */
  lemma {:induction false} ConvolutionShift(p: Poly, q: Poly, k: int, n: nat)
    requires n <= |p|
    ensures Convolution(p, q + [ZERO], k, n) == Convolution(p, q, k, n)
    decreases n
  {
    if n > 0 {
      ConvolutionShift(p, q, k, n - 1);
      MulZero(p[n - 1]);
      assert Term(p, q + [ZERO], k, n - 1) == Term(p, q, k, n - 1);
    }
  }

  lemma {:induction false} ConvolutionBeyond(p: Poly, q: Poly, k: int, n: nat)
    requires n <= |p| && (k < 0 || k >= n + |q| - 1 || q == [])
    ensures Convolution(p, q, k, n) == ZERO
    decreases n
  {
    if n > 0 {
      ConvolutionBeyond(p, q, k, n - 1);
      AddZero(ZERO);
    }
  }

  // ---------------------------------------------------------------- evaluation

  ghost function Eval(p: Poly, x: Byte): Byte
  {
    if p == [] then ZERO else Add(Mul(Eval(p[..|p| - 1], x), x), p[|p| - 1])
  }

  function Sum(p: Poly, q: Poly): (r: Poly)
    requires |p| == |q|
    ensures |r| == |p|
  {
    seq(|p|, i requires 0 <= i < |p| => Add(p[i], q[i]))
  }

  ghost function Scale(p: Poly, c: Byte): (r: Poly)
    ensures |r| == |p|
  {
    seq(|p|, i requires 0 <= i < |p| => Mul(p[i], c))
  }

  lemma {:induction false} EvalSum(p: Poly, q: Poly, x: Byte)
    requires |p| == |q|
    ensures Eval(Sum(p, q), x) == Add(Eval(p, x), Eval(q, x))
    decreases |p|
  {
    hide Add;
    AddZero(ZERO);
    if p != [] {
      var n := |p| - 1;
      EvalSum(p[..n], q[..n], x);
      assert Sum(p, q)[..n] == Sum(p[..n], q[..n]);
      MulAdd(Eval(p[..n], x), Eval(q[..n], x), x);
      AddSwap(Mul(Eval(p[..n], x), x), Mul(Eval(q[..n], x), x), p[n], q[n]);
    }
  }

  lemma {:induction false} EvalScale(p: Poly, c: Byte, x: Byte)
    ensures Eval(Scale(p, c), x) == Mul(Eval(p, x), c)
    decreases |p|
  {
    hide Add, Mul;
    MulZero(c);
    if p != [] {
      var n := |p| - 1;
      var e := Eval(p[..n], x);
      EvalScale(p[..n], c, x);
      assert Scale(p, c)[..n] == Scale(p[..n], c);
      MulAssoc(e, c, x);
      MulComm(c, x);
      MulAssoc(e, x, c);
      MulAdd(Mul(e, x), p[n], c);
    }
  }

  lemma {:induction false} EvalLeadingZeros(n: nat, p: Poly, x: Byte)
    ensures Eval(Zeros(n) + p, x) == Eval(p, x)
    decreases |p|, n
  {
    var s := Zeros(n) + p;
    if p != [] {
      EvalLeadingZeros(n, p[..|p| - 1], x);
      assert s[..|s| - 1] == Zeros(n) + p[..|p| - 1];
    } else if n > 0 {
      EvalLeadingZeros(n - 1, p, x);
      assert s[..|s| - 1] == Zeros(n - 1) + p;
      MulZero(x);
      AddZero(ZERO);
    } else {
      assert s == p;
    }
  }

  /** Appending coefficient c to q: the product is shifted and a multiple of p is added. */
  lemma ProductAppend(p: Poly, q: Poly, c: Byte)
    requires |p| > 0
    ensures Product(p, q + [c]) == Sum(Product(p, q) + [ZERO], Zeros(|q|) + Scale(p, c))
  {
    hide Add, Mul, Coefficient;
    forall k | 0 <= k < |p| + |q|
      ensures Coefficient(p, q + [c], k) == Add((Product(p, q) + [ZERO])[k], (Zeros(|q|) + Scale(p, c))[k])
    {
      CoefficientAppend(p, q, c, k);
    }
  }

  lemma CoefficientAppend(p: Poly, q: Poly, c: Byte, k: int)
    requires |p| > 0 && 0 <= k < |p| + |q|
    ensures Coefficient(p, q + [c], k) ==
            Add(if k < |p| + |q| - 1 then Coefficient(p, q, k) else ZERO, if k >= |q| then Mul(p[k - |q|], c) else ZERO)
  {
    hide Add, Mul, Convolution;
    var wide := q + [ZERO];
    AddZero(c);
    assert wide[|q| := Add(wide[|q|], c)] == q + [c];
    ConvolutionUpdate(p, wide, |q|, c, k, |p|);
    ConvolutionShift(p, q, k, |p|);
    if k == |p| + |q| - 1 { ConvolutionBeyond(p, q, k, |p|); }
  }

  lemma {:induction false} EvalProduct(p: Poly, q: Poly, x: Byte)
    requires |p| > 0
    ensures Eval(Product(p, q), x) == Mul(Eval(p, x), Eval(q, x))
    decreases |q|
  {
    if q == [] {
      forall k | 0 <= k < |p| - 1 ensures Product(p, q)[k] == ZERO { ConvolutionBeyond(p, q, k, |p|); }
      assert Product(p, q) == Zeros(|p| - 1) + [];
      EvalLeadingZeros(|p| - 1, [], x);
      MulZero(Eval(p, x));
    } else {
      var n := |q| - 1;
      var r, c := q[..n], q[n];
      assert q == r + [c];
      EvalProduct(p, r, x);
      ProductAppend(p, r, c);
      EvalAppended(p, r, c, x);
    }
  }

  lemma EvalAppended(p: Poly, r: Poly, c: Byte, x: Byte)
    requires |p| > 0 && Eval(Product(p, r), x) == Mul(Eval(p, x), Eval(r, x))
    ensures Eval(Sum(Product(p, r) + [ZERO], Zeros(|r|) + Scale(p, c)), x) == Mul(Eval(p, x), Eval(r + [c], x))
  {
    var a, b := Eval(p, x), Eval(r, x);
    var u, v := Product(p, r) + [ZERO], Zeros(|r|) + Scale(p, c);
    hide Add, Mul;
    EvalSum(u, v, x);
    assert u[..|u| - 1] == Product(p, r);
    assert Eval(u, x) == Mul(Mul(a, b), x) by { AddZero(Mul(Mul(a, b), x)); }
    assert Eval(v, x) == Mul(a, c) by {
      EvalLeadingZeros(|r|, Scale(p, c), x);
      EvalScale(p, c, x);
    }
    assert (r + [c])[..|r|] == r;
    MulAssoc(a, b, x);
    MulAdd(Mul(b, x), c, a);
  }
}

/**
  The Reed-Solomon encoder of src/lib/paymentQr.ts (section 7.5 of ISO/IEC 18004:2015): logarithm
  tables, polynomial product, long division in place, generator polynomial and parity bytes.
*/
module ReedSolomon {
  import opened Galois
  import opened FieldProduct
  import opened Polynomials

  /** `EXP` and `LOG`, filled by one loop. */
  class Tables {
    const exp: array<Byte>
    const log: array<nat>

    ghost predicate Ready()
      reads this, exp, log
    {
      && exp.Length == 512 && (forall i | 0 <= i < 512 :: exp[i] == Pow(i))
      && log.Length == 256 && (forall a: Byte | a != ZERO :: log[Value(a)] == Log(a))
    }

    constructor ()
      ensures Ready() && fresh(exp) && fresh(log)
    {
      hide Value, Pow, Double, Add;
      exp := new Byte[512](_ => ZERO);
      log := new nat[256](_ => 0);
      new;
      FillTables(exp, log);
      ExtendPowers(exp);
    }

    /** `gfMul`. */
    function GfMul(a: Byte, b: Byte): (r: Byte)
      requires Ready()
      reads this, exp, log
      ensures r == Mul(a, b)
    {
      if a == ZERO || b == ZERO then ZERO else exp[log[Value(a)] + log[Value(b)]]
    }
  }

  /** The first loop of the table initialiser. */
  method FillTables(exp: array<Byte>, log: array<nat>)
    requires exp.Length == 512 && log.Length == 256
    modifies exp, log
    ensures forall k | 0 <= k < 255 :: exp[k] == Pow(k)
    ensures forall a: Byte | a != ZERO :: log[Value(a)] == Log(a)
  {
    hide Add, Value, Pow, Double;
    var x := ONE;
    PowZero();
    for i := 0 to 255
      invariant x == Pow(i)
      invariant forall k | 0 <= k < i :: exp[k] == Pow(k) && log[Value(Pow(k))] == k
    {
      PowersDiffer(i);
      exp[i] := x;
      log[Value(x)] := i;
      ShiftAndReduce(x, i);
      var carry := x.b7;
      x := B(x.b6, x.b5, x.b4, x.b3, x.b2, x.b1, x.b0, false);
      if carry { x := Add(x, B(false, false, false, true, true, true, false, true)); }
    }
  }

  /** The second loop of the table initialiser. */
  method ExtendPowers(exp: array<Byte>)
    requires exp.Length == 512 && forall k | 0 <= k < 255 :: exp[k] == Pow(k)
    modifies exp
    ensures forall k | 0 <= k < 512 :: exp[k] == Pow(k)
  {
    hide Pow;
    for i := 255 to 512
      invariant forall k | 0 <= k < i :: exp[k] == Pow(k)
    {
      PowPeriod(i - 255);
      exp[i] := exp[i - 255];
    }
  }

  lemma PowZero()
    ensures Pow(0) == ONE
  {
  }

  lemma {:induction false} PowersDiffer(i: nat)
    requires i < 255
    ensures forall k | 0 <= k < i :: Value(Pow(k)) != Value(Pow(i))
  {
    hide Value, Pow;
    forall k | 0 <= k < i ensures Value(Pow(k)) != Value(Pow(i)) {
      if Value(Pow(k)) == Value(Pow(i)) {
        ValueInjective(Pow(k), Pow(i));
        PowInjective(k, i);
      }
    }
  }

  lemma ShiftAndReduce(x: Byte, i: nat)
    requires x == Pow(i)
    ensures Pow(i + 1) ==
            var y := B(x.b6, x.b5, x.b4, x.b3, x.b2, x.b1, x.b0, false);
            if x.b7 then Add(y, B(false, false, false, true, true, true, false, true)) else y
  {
  }

  method PolyMul(t: Tables, p: Poly, q: Poly) returns (r: Poly)
    requires t.Ready() && |p| + |q| > 0
    ensures r == Product(p, q)
  {
    hide Add, Mul, Convolution;
    var coeff := new Byte[|p| + |q| - 1](_ => ZERO);
    ConvolutionStart(p, q);
    for i := 0 to |p|
      invariant forall k | 0 <= k < coeff.Length :: coeff[k] == Convolution(p, q, k, i)
    {
      ConvolutionNext(p, q, i);
      for j := 0 to |q|
        invariant forall k | 0 <= k < coeff.Length ::
          coeff[k] == if 0 <= k - i < j then Convolution(p, q, k, i + 1) else Convolution(p, q, k, i)
      {
        coeff[i + j] := Add(coeff[i + j], t.GfMul(p[i], q[j]));
      }
    }
    r := coeff[..];
  }

  lemma ConvolutionStart(p: Poly, q: Poly)
    ensures forall k: int :: Convolution(p, q, k, 0) == ZERO
  {
  }

  lemma ConvolutionNext(p: Poly, q: Poly, i: nat)
    requires i < |p|
    ensures forall k: int :: Convolution(p, q, k, i + 1) == (
                               if 0 <= k - i < |q| then Add(Convolution(p, q, k, i), Mul(p[i], q[k - i]))
                               else Convolution(p, q, k, i))
  {
    hide Add, Mul;
    forall k: int
      ensures Convolution(p, q, k, i + 1) ==
        if 0 <= k - i < |q| then Add(Convolution(p, q, k, i), Mul(p[i], q[k - i])) else Convolution(p, q, k, i)
    {
      AddZero(Convolution(p, q, k, i));
    }
  }

  // ---------------------------------------------------------------- long division

  /** `r` with zeros in front, n coefficients in all. */
  function LeftPad(r: Poly, n: nat): (p: Poly)
    requires |r| <= n
    ensures |p| == n
  {
    Zeros(n - |r|) + r
  }

  /** d = g * q + r. */
  ghost predicate Division(g: Poly, d: Poly, q: Poly, r: Poly)
    requires |g| > 0
  {
    |q| + |g| - 1 == |d| && |r| <= |d| && d == Sum(Product(g, q), LeftPad(r, |d|))
  }

  /** One subtraction of the long division: r[i] ^= g[i] * c. */
  ghost function Subtract(r: Poly, g: Poly, c: Byte, n: nat): (s: Poly)
    requires n <= |g| <= |r|
    ensures |s| == |r|
  {
    seq(|r|, i requires 0 <= i < |r| => if i < n then Add(r[i], Mul(g[i], c)) else r[i])
  }

  lemma {:induction false} DivisionStep(g: Poly, d: Poly, q: Poly, r: Poly)
    requires 0 < |g| <= |r| && Division(g, d, q, r)
    ensures |d| - |r| < |q|
    ensures Division(g, d, q[|d| - |r| := Add(q[|d| - |r|], r[0])], Subtract(r, g, r[0], |g|))
  {
    hide Add, Mul, Coefficient;
    var k, c := |d| - |r|, r[0];
    var q', r' := q[k := Add(q[k], c)], Subtract(r, g, c, |g|);
    forall t | 0 <= t < |d| ensures d[t] == Add(Product(g, q')[t], LeftPad(r', |d|)[t]) {
      assert d[t] == Add(Coefficient(g, q, t), LeftPad(r, |d|)[t]);
      CoefficientUpdate(g, q, k, c, t);
      if 0 <= t - k < |g| {
        AddShuffle(Coefficient(g, q, t), Mul(g[t - k], c), r[t - k]);
      } else {
        AddZero(Coefficient(g, q, t));
      }
    }
  }

  lemma CoefficientUpdate(p: Poly, q: Poly, j: nat, c: Byte, k: int)
    requires j < |q|
    ensures Coefficient(p, q[j := Add(q[j], c)], k) == Add(Coefficient(p, q, k), if 0 <= k - j < |p| then Mul(p[k - j], c) else ZERO)
  {
    hide Add, Mul, Convolution;
    ConvolutionUpdate(p, q, j, c, k, |p|);
  }

  lemma LeadingCancels(c: Byte)
    ensures Add(c, Mul(ONE, c)) == ZERO
  {
    MulOne(c);
    AddZero(c);
  }

  lemma {:induction false} DivisionStart(g: Poly, d: Poly)
    requires 0 < |g| <= |d| + 1
    ensures Division(g, d, Zeros(|d| + 1 - |g|), d)
  {
    hide Add, Mul;
    var q := Zeros(|d| + 1 - |g|);
    forall t | 0 <= t < |d| ensures d[t] == Add(Product(g, q)[t], d[t]) {
      ConvolutionOfZeros(g, |q|, t, |g|);
      AddZero(d[t]);
    }
  }

  lemma {:induction false} ConvolutionOfZeros(g: Poly, m: nat, k: int, n: nat)
    requires n <= |g|
    ensures Convolution(g, Zeros(m), k, n) == ZERO
    decreases n
  {
    if n > 0 {
      ConvolutionOfZeros(g, m, k, n - 1);
      MulZero(g[n - 1]);
      AddZero(ZERO);
    }
  }

  /** `polyMod`. The divisor must be monic: otherwise the leading coefficient need not cancel and the loop need not end. */
  method PolyMod(t: Tables, dividend: Poly, divisor: Poly) returns (remainder: Poly, ghost quotient: Poly)
    requires t.Ready() && |divisor| > 0 && divisor[0] == ONE
    ensures |remainder| < |divisor|
    ensures |dividend| < |divisor| ==> remainder == dividend
    ensures |dividend| + 1 >= |divisor| ==> Division(divisor, dividend, quotient, remainder)
  {
    hide Add, Mul, Product, LeftPad;
    var result := new Byte[|dividend|](i requires 0 <= i < |dividend| => dividend[i]);
    assert result[..] == dividend;
    quotient := if |dividend| + 1 >= |divisor| then Zeros(|dividend| + 1 - |divisor|) else [];
    if |dividend| + 1 >= |divisor| { DivisionStart(divisor, dividend); }
    while result.Length - |divisor| >= 0
      invariant fresh(result)
      invariant result.Length <= |dividend|
      invariant |dividend| < |divisor| ==> result[..] == dividend
      invariant |dividend| + 1 >= |divisor| ==> Division(divisor, dividend, quotient, result[..])
      decreases result.Length
    {
      var coeff := result[0];
      ghost var before := result[..];
      for i := 0 to |divisor|
        invariant result[..] == Subtract(before, divisor, coeff, i)
      {
        result[i] := Add(result[i], t.GfMul(divisor[i], coeff));
      }
      DivisionStep(divisor, dividend, quotient, before);
      LeadingCancels(coeff);
      quotient := quotient[|dividend| - |before| := Add(quotient[|dividend| - |before|], coeff)];
      assert result[0] == Subtract(before, divisor, coeff, |divisor|)[0];
      var offset := 0;
      while offset < result.Length && result[offset] == ZERO
        invariant 0 <= offset <= result.Length
        invariant forall k | 0 <= k < offset :: result[k] == ZERO
        invariant offset == 0 ==> result.Length > 0 && result[0] == ZERO
      {
        offset := offset + 1;
      }
      StripZeros(result[..], offset, |dividend|);
      var rest := result[offset..];
      result := new Byte[|rest|](i requires 0 <= i < |rest| => rest[i]);
      assert result[..] == rest;
    }
    remainder := result[..];
  }

  lemma StripZeros(r: Poly, offset: nat, n: nat)
    requires offset <= |r| <= n && forall k | 0 <= k < offset :: r[k] == ZERO
    ensures LeftPad(r, n) == LeftPad(r[offset..], n)
  {
  }

  // ---------------------------------------------------------------- generator polynomial and parity

  /** (x - 1)(x - 2)(x - 4) ... (x - 2^(degree - 1)). */
  ghost function Generator(degree: nat): (g: Poly)
    ensures |g| == degree + 1
  {
    if degree == 0 then [ONE] else Product(Generator(degree - 1), [ONE, Pow(degree - 1)])
  }

  lemma {:induction false} GeneratorMonic(degree: nat)
    ensures Generator(degree)[0] == ONE
  {
    if degree > 0 {
      GeneratorMonic(degree - 1);
      LeadingCoefficient(Generator(degree - 1), [ONE, Pow(degree - 1)]);
      MulOne(ONE);
    }
  }

  lemma LeadingCoefficient(p: Poly, q: Poly)
    requires |p| > 0 && |q| > 0
    ensures Product(p, q)[0] == Mul(p[0], q[0])
  {
    hide Add, Mul;
    ConvolutionLow(p, q, 0, |p|);
  }

  /** Only term 0 contributes to coefficient 0. */
  lemma {:induction false} ConvolutionLow(p: Poly, q: Poly, k: nat, n: nat)
    requires |q| > 0 && k < n <= |p|
    ensures Convolution(p, q, k, n) == Convolution(p, q, k, k + 1)
    ensures k == 0 ==> Convolution(p, q, 0, 1) == Mul(p[0], q[0])
    decreases n
  {
    hide Add, Mul;
    AddZero(Mul(p[0], q[0]));
    if n > k + 1 {
      ConvolutionLow(p, q, k, n - 1);
      AddZero(Convolution(p, q, k, n - 1));
    }
    assert Convolution(p, q, 0, 0) == ZERO;
  }

  method EcPolynomial(t: Tables, degree: nat) returns (poly: Poly)
    requires t.Ready() && degree <= 512
    ensures poly == Generator(degree)
  {
    poly := [ONE];
    for i := 0 to degree
      invariant poly == Generator(i)
    {
      poly := PolyMul(t, poly, [ONE, t.exp[i]]);
    }
  }

  /** `rsEncode`: exactly `degree` parity bytes, and data followed by them is a multiple of the generator. */
  method RsEncode(t: Tables, data: Poly, degree: nat) returns (parity: Poly)
    requires t.Ready() && degree <= 512
    ensures |parity| == degree
    ensures Multiple(Generator(degree), data + parity)
  {
    var gen := EcPolynomial(t, degree);
    GeneratorMonic(degree);
    var padded := new Byte[|data| + degree](_ => ZERO);
    forall i | 0 <= i < |data| { padded[i] := data[i]; }
    assert padded[..] == data + Zeros(degree);
    var remainder, quotient := PolyMod(t, padded[..], gen);
    var start := degree - |remainder|;
    if start > 0 {
      var buff := new Byte[degree](_ => ZERO);
      forall i | 0 <= i < |remainder| { buff[start + i] := remainder[i]; }
      parity := buff[..];
    } else {
      parity := remainder;
    }
    assert parity == LeftPad(remainder, degree);
    CodewordIsMultiple(gen, data, degree, quotient, remainder);
  }

  lemma CodewordIsMultiple(g: Poly, data: Poly, degree: nat, q: Poly, r: Poly)
    requires |g| == degree + 1 && |r| <= degree && Division(g, data + Zeros(degree), q, r)
    ensures Multiple(g, data + LeftPad(r, degree))
  {
    hide Add, Mul, Coefficient;
    var c := data + LeftPad(r, degree);
    var p := LeftPad(r, |c|);
    forall t | 0 <= t < |c| ensures Product(g, q)[t] == c[t] {
      assert (data + Zeros(degree))[t] == Add(Product(g, q)[t], p[t]);
      SolveSum(Product(g, q)[t], p[t]);
      AddZero(c[t]);
    }
    assert Product(g, q) == c;
  }

  lemma SolveSum(a: Byte, b: Byte)
    ensures Add(Add(a, b), b) == a
  {
  }

  // ---------------------------------------------------------------- what the parity bytes are for

  lemma EvalFactor(r: Byte, x: Byte)
    ensures Eval([ONE, r], x) == Add(x, r)
  {
    hide Add, Mul;
    assert [ONE, r][..1] == [ONE];
    assert [ONE][..0] == [];
    assert Eval([], x) == ZERO;
    MulZero(x);
    AddZero(ONE);
    assert Eval([ONE], x) == ONE;
    MulOne(x);
  }

  /** The roots of the generator are 2^0 to 2^(degree - 1). */
  lemma {:induction false} GeneratorRoots(degree: nat, i: nat)
    requires i < degree
    ensures Eval(Generator(degree), Pow(i)) == ZERO
  {
    hide Add, Mul, Pow, Eval;
    var x, g, f := Pow(i), Generator(degree - 1), [ONE, Pow(degree - 1)];
    EvalProduct(g, f, x);
    EvalFactor(Pow(degree - 1), x);
    if i == degree - 1 {
      AddZero(x);
      MulZero(Eval(g, x));
    } else {
      GeneratorRoots(degree - 1, i);
      MulZero(Eval(f, x));
    }
  }

  /** Every syndrome of a codeword vanishes. */
  lemma {:induction false} SyndromesVanish(degree: nat, c: Poly, i: nat)
    requires i < degree && Multiple(Generator(degree), c)
    ensures Eval(c, Pow(i)) == ZERO
  {
    var q: Poly :| |q| + |Generator(degree)| - 1 == |c| && Product(Generator(degree), q) == c;
    hide *;
    EvalProduct(Generator(degree), q, Pow(i));
    GeneratorRoots(degree, i);
    MulZero(Eval(q, Pow(i)));
  }

  lemma {:induction false} ConvolutionSamePrefix(p: Poly, q: Poly, r: Poly, k: nat, n: nat)
    requires 0 < n <= |p| && k < |q| == |r|
    requires forall j | 0 <= j < k :: q[j] == r[j]
    ensures Add(Convolution(p, q, k, n), Convolution(p, r, k, n)) == Add(Mul(p[0], q[k]), Mul(p[0], r[k]))
    decreases n
  {
    hide Add, Mul;
    if n == 1 {
      assert Convolution(p, q, k, 0) == ZERO && Convolution(p, r, k, 0) == ZERO;
      AddZero(Mul(p[0], q[k]));
      AddZero(Mul(p[0], r[k]));
    } else {
      ConvolutionSamePrefix(p, q, r, k, n - 1);
      assert Term(p, q, k, n - 1) == Term(p, r, k, n - 1);
      AddShuffle(Convolution(p, q, k, n - 1), Term(p, q, k, n - 1), Convolution(p, r, k, n - 1));
    }
  }

  lemma SumZero(a: Byte, b: Byte)
    requires Add(a, b) == ZERO
    ensures a == b
  {
  }

  /** Two multiples of a monic g that agree on their leading coefficients have the same quotient. */
  lemma {:induction false} QuotientsAgree(g: Poly, q: Poly, r: Poly, n: nat)
    requires |g| > 0 && g[0] == ONE && n <= |q| == |r|
    requires forall k | 0 <= k < |q| :: Coefficient(g, q, k) == Coefficient(g, r, k)
    ensures forall k | 0 <= k < n :: q[k] == r[k]
  {
    hide Add, Mul, Convolution;
    if n > 0 {
      QuotientsAgree(g, q, r, n - 1);
      var k := n - 1;
      ConvolutionSamePrefix(g, q, r, k, |g|);
      AddZero(Coefficient(g, q, k));
      MulOne(q[k]);
      MulOne(r[k]);
      SumZero(q[k], r[k]);
    }
  }

  /** The parity bytes are determined by the data: the encoder has no freedom left. */
  lemma ParityUnique(degree: nat, data: Poly, x: Poly, y: Poly)
    requires |x| == |y| == degree
    requires Multiple(Generator(degree), data + x) && Multiple(Generator(degree), data + y)
    ensures x == y
  {
    var g := Generator(degree);
    var q: Poly :| |q| + |g| - 1 == |data + x| && Product(g, q) == data + x;
    var r: Poly :| |r| + |g| - 1 == |data + y| && Product(g, r) == data + y;
    hide Coefficient;
    GeneratorMonic(degree);
    forall k | 0 <= k < |q| ensures Coefficient(g, q, k) == Coefficient(g, r, k) {
      assert Product(g, q)[k] == data[k] && Product(g, r)[k] == data[k];
    }
    QuotientsAgree(g, q, r, |q|);
    assert q == r;
    assert x == (data + x)[|data|..] == (data + y)[|data|..] == y;
  }
}
