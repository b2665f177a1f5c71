/** USDC amounts as text: the SDK converter, sdk/src/amounts.ts, and the server parser, src/lib/finalRequest.ts. */
module Amounts {
  import opened Text

  const USDC_DECIMALS: nat := 6
  const SCALE: nat := 1000000

  // ---------------------------------------------------------------- digits and numbers

  predicate IsDigit(c: char)
  {
    '0' <= c <= '9'
  }

  predicate AllDigits(s: string)
  {
    forall i | 0 <= i < |s| :: IsDigit(s[i])
  }

  function DigitValue(c: char): nat
    requires IsDigit(c)
  {
    (c - '0') as nat
  }

  function DigitChar(d: nat): (c: char)
    requires d < 10
    ensures IsDigit(c) && DigitValue(c) == d
  {
    '0' + d as char
  }

  function Ten(k: nat): (p: nat)
    ensures p > 0
  {
    if k == 0 then 1 else 10 * Ten(k - 1)
  }

  /** `BigInt` of a digit string. */
  function Value(s: string): nat
    requires AllDigits(s)
  {
    if s == "" then 0 else 10 * Value(s[..|s| - 1]) + DigitValue(s[|s| - 1])
  }

  /** `toString` of a number. */
  function Decimal(n: nat): (s: string)
    ensures |s| > 0 && AllDigits(s)
  {
    if n < 10 then [DigitChar(n)] else Decimal(n / 10) + [DigitChar(n % 10)]
  }

  function Zeros(k: nat): (s: string)
    ensures |s| == k && AllDigits(s) && forall i | 0 <= i < k :: s[i] == '0'
  {
    seq(k, i requires 0 <= i < k => '0')
  }

  function PadEnd(s: string, k: nat): string
  {
    if |s| >= k then s else s + Zeros(k - |s|)
  }

  function PadStart(s: string, k: nat): string
  {
    if |s| >= k then s else Zeros(k - |s|) + s
  }

  /** `replace(/0+$/, "")`. */
  function StripZeros(s: string): (r: string)
    ensures |r| <= |s| && r == s[..|r|] && (forall i | |r| <= i < |s| :: s[i] == '0') && (r != "" ==> r[|r| - 1] != '0')
  {
    if s == "" || s[|s| - 1] != '0' then s else StripZeros(s[..|s| - 1])
  }

  // ---------------------------------------------------------------- text

  predicate IsSpace(c: char)
  {
    c in {' ', '\t', '\n', '\r', '\U{000b}', '\U{000c}', '\U{00a0}', '\U{feff}', '\U{1680}', '\U{2028}', '\U{2029}', '\U{202f}', '\U{205f}', '\U{3000}'}
    || '\U{2000}' <= c <= '\U{200a}'
  }

  function TrimStart(s: string): string
  {
    if s != "" && IsSpace(s[0]) then TrimStart(s[1..]) else s
  }

  function TrimEnd(s: string): string
  {
    if s != "" && IsSpace(s[|s| - 1]) then TrimEnd(s[..|s| - 1]) else s
  }

  function Trim(s: string): string
  {
    TrimEnd(TrimStart(s))
  }

  /** Where the first point is, or the length. */
  function Point(s: string): (k: nat)
    ensures k <= |s| && (k < |s| ==> s[k] == '.') && forall i | 0 <= i < k :: s[i] != '.'
  {
    if s == "" || s[0] == '.' then 0 else 1 + Point(s[1..])
  }

  function Whole(s: string): string
  {
    s[..Point(s)]
  }

  function Fraction(s: string): string
  {
    if Point(s) < |s| then s[Point(s) + 1..] else ""
  }

  /** Digits, and after a point at most six digits, perhaps none. */
  predicate SdkShape(s: string)
  {
    && |Whole(s)| > 0 && AllDigits(Whole(s)) && AllDigits(Fraction(s)) && |Fraction(s)| <= USDC_DECIMALS
    && !(|Whole(s)| > 1 && Whole(s)[0] == '0')
  }

  /** A canonical whole part, and after a point at least one digit. */
  predicate ServerShape(s: string)
  {
    && |Whole(s)| > 0 && AllDigits(Whole(s)) && AllDigits(Fraction(s))
    && (Whole(s) == "0" || Whole(s)[0] != '0')
    && (Point(s) < |s| ==> |Fraction(s)| > 0)
  }

  function BaseUnits(s: string): nat
    requires AllDigits(Whole(s)) && AllDigits(Fraction(s))
  {
    Value(Whole(s)) * SCALE + Value(PadEnd(Fraction(s), USDC_DECIMALS))
  }

  /** `usdcToBaseUnits`; None where it throws. */
  function UsdcToBaseUnits(amount: string): Option<string>
  {
    var trimmed := Trim(amount);
    if !SdkShape(trimmed) then None
    else if BaseUnits(trimmed) == 0 then None
    else Some(Decimal(BaseUnits(trimmed)))
  }

  predicate CanonicalInteger(s: string)
  {
    |s| > 0 && AllDigits(s) && (s == "0" || s[0] != '0')
  }

  /** `baseUnitsToUsdc`; None where it throws. */
  function BaseUnitsToUsdc(amountBaseUnits: string): Option<string>
  {
    var trimmed := Trim(amountBaseUnits);
    if !CanonicalInteger(trimmed) then None
    else
      var value := Value(trimmed);
      var fraction := StripZeros(PadStart(Decimal(value % SCALE), USDC_DECIMALS));
      Some(if |fraction| > 0 then Decimal(value / SCALE) + "." + fraction else Decimal(value / SCALE))
  }

  /** The server's `parseUsdcBaseUnits`; None where it throws. */
  function ParseUsdcBaseUnits(amount: string): Option<nat>
  {
    var trimmed := Trim(amount);
    if |trimmed| > 0 && trimmed[0] == '-' then None
    else if !ServerShape(trimmed) then None
    else if |Fraction(trimmed)| > USDC_DECIMALS then None
    else
      var value := Value(Whole(trimmed) + PadEnd(Fraction(trimmed), USDC_DECIMALS));
      if value == 0 then None else Some(value)
  }

  // ---------------------------------------------------------------- numbers and their digits

  lemma {:induction false} ValueOfDecimal(n: nat)
    ensures Value(Decimal(n)) == n && CanonicalInteger(Decimal(n))
  {
    if n >= 10 {
      ValueOfDecimal(n / 10);
      assert Decimal(n)[..|Decimal(n)| - 1] == Decimal(n / 10);
      NoLeadingZero(n / 10);
    } else {
      assert [DigitChar(n)][..0] == "";
    }
  }

  lemma {:induction false} NoLeadingZero(n: nat)
    requires n > 0
    ensures Decimal(n)[0] != '0'
  {
    if n >= 10 { NoLeadingZero(n / 10); }
  }

  lemma TenTimes(x: nat, p: nat)
    ensures x * (10 * p) == 10 * (x * p)
  {
  }

  lemma {:induction false} ValueJoin(a: string, b: string)
    requires AllDigits(a) && AllDigits(b)
    ensures AllDigits(a + b) && Value(a + b) == Value(a) * Ten(|b|) + Value(b)
  {
    if b == "" {
      assert a + b == a;
    } else {
      var n := |b| - 1;
      ValueJoin(a, b[..n]);
      assert (a + b)[..|a + b| - 1] == a + b[..n];
      TenTimes(Value(a), Ten(n));
    }
  }

  lemma {:induction false} ValueBelow(s: string)
    requires AllDigits(s)
    ensures Value(s) < Ten(|s|)
  {
    if s != "" { ValueBelow(s[..|s| - 1]); }
  }

  /** Digit strings of one length with one value are the same string. */
  lemma {:induction false} SameDigits(a: string, b: string)
    requires AllDigits(a) && AllDigits(b) && |a| == |b| && Value(a) == Value(b)
    ensures a == b
  {
    if a != "" {
      var n := |a| - 1;
      SameDigits(a[..n], b[..n]);
      assert a == a[..n] + [a[n]] && b == b[..n] + [b[n]];
    }
  }

  lemma {:induction false} ZerosAreNothing(k: nat)
    ensures Value(Zeros(k)) == 0
  {
    if k > 0 {
      ZerosAreNothing(k - 1);
      assert Zeros(k)[..k - 1] == Zeros(k - 1);
    }
  }

  lemma PadStartValue(s: string, k: nat)
    requires AllDigits(s)
    ensures AllDigits(PadStart(s, k)) && Value(PadStart(s, k)) == Value(s) && (|s| <= k ==> |PadStart(s, k)| == k)
  {
    if |s| < k {
      ZerosAreNothing(k - |s|);
      ValueJoin(Zeros(k - |s|), s);
    }
  }

  lemma PadEndDigits(s: string, k: nat)
    requires AllDigits(s)
    ensures AllDigits(PadEnd(s, k)) && (|s| <= k ==> |PadEnd(s, k)| == k)
  {
  }

  lemma DecimalStep(v: nat, c: char)
    requires v > 0 && IsDigit(c)
    ensures Decimal(10 * v + DigitValue(c)) == Decimal(v) + [c]
  {
    assert (10 * v + DigitValue(c)) / 10 == v && (10 * v + DigitValue(c)) % 10 == DigitValue(c);
  }

  lemma DecimalOfDigit(c: char)
    requires IsDigit(c)
    ensures Value([c]) == DigitValue(c) && Decimal(DigitValue(c)) == [c]
  {
    assert [c][..0] == "";
  }

  /** A canonical integer is the text of its own value. */
  lemma {:induction false} DecimalOfValue(s: string)
    requires CanonicalInteger(s)
    ensures Decimal(Value(s)) == s
  {
    hide Decimal;
    var n := |s| - 1;
    if n == 0 {
      DecimalOfDigit(s[0]);
      assert s == [s[0]];
    } else {
      FrontIsCanonical(s);
      DecimalOfValue(s[..n]);
      LeadingMatters(s[..n]);
      DecimalStep(Value(s[..n]), s[n]);
      assert s == s[..n] + [s[n]];
    }
  }

  lemma FrontIsCanonical(s: string)
    requires CanonicalInteger(s) && |s| > 1
    ensures CanonicalInteger(s[..|s| - 1]) && s[..|s| - 1] != "0"
  {
    assert s[..|s| - 1][0] == s[0] && "0"[0] == '0';
    assert s != "0" by { assert |"0"| == 1; }
  }

  lemma {:induction false} LeadingMatters(s: string)
    requires CanonicalInteger(s) && s != "0"
    ensures Value(s) > 0
  {
    if |s| > 1 {
      LeadingMatters(s[..|s| - 1]);
    } else {
      assert s == [s[0]] && "0" == ['0'];
      assert s[..0] == "";
    }
  }

  lemma {:induction false} DecimalLength(n: nat, k: nat)
    requires n < Ten(k) && k > 0
    ensures |Decimal(n)| <= k
    decreases k
  {
    if n >= 10 {
      assert k > 1 by { assert Ten(1) == 10 * Ten(0); }
      DecimalLength(n / 10, k - 1);
    }
  }

  lemma TenSix()
    ensures Ten(6) == SCALE
  {
    assert Ten(1) == 10 && Ten(2) == 100 && Ten(3) == 1000;
    assert Ten(4) == 10000 && Ten(5) == 100000;
  }

  /** The six fraction digits of a value. */
  function SixDigits(v: nat): string
  {
    PadStart(Decimal(v % SCALE), USDC_DECIMALS)
  }

  lemma SixDigitsOf(v: nat)
    ensures AllDigits(SixDigits(v)) && |SixDigits(v)| == 6 && Value(SixDigits(v)) == v % SCALE
  {
    TenSix();
    DecimalLength(v % SCALE, 6);
    ValueOfDecimal(v % SCALE);
    PadStartValue(Decimal(v % SCALE), 6);
  }

  /** Stripping trailing zeros and padding back gives the six digits again. */
  lemma PadAfterStrip(p: string)
    requires AllDigits(p) && |p| == 6
    ensures AllDigits(StripZeros(p)) && PadEnd(StripZeros(p), 6) == p
  {
    var r := StripZeros(p);
    if |r| < 6 { assert r + Zeros(6 - |r|) == p; }
  }

  lemma {:induction false} StripAfterPad(s: string, k: nat)
    requires |s| <= k
    ensures StripZeros(PadEnd(s, k)) == StripZeros(s)
    decreases k - |s|
  {
    if |s| < k {
      var p := PadEnd(s, k);
      StripShort(s, k);
      StripAfterPad(s, k - 1);
      assert p[..k - 1] == PadEnd(s, k - 1);
    } else {
      assert PadEnd(s, k) == s;
    }
  }

  lemma StripShort(s: string, k: nat)
    requires |s| < k
    ensures PadEnd(s, k)[k - 1] == '0' && |PadEnd(s, k)| == k
  {
  }

  // ---------------------------------------------------------------- text without spaces around it

  lemma TrimNothing(s: string)
    requires s != "" && !IsSpace(s[0]) && !IsSpace(s[|s| - 1])
    ensures Trim(s) == s
  {
  }

  lemma {:induction false} PointOf(a: string, b: string)
    requires forall i | 0 <= i < |a| :: a[i] != '.'
    ensures Point(a) == |a| && Point(a + "." + b) == |a|
    ensures Whole(a) == a && Fraction(a) == ""
    ensures Whole(a + "." + b) == a && Fraction(a + "." + b) == b
  {
    assert (a + "." + b)[|a|] == '.';
    assert forall i | 0 <= i < |a| :: (a + "." + b)[i] == a[i];
  }

  // ---------------------------------------------------------------- round trips

  /** The text `baseUnitsToUsdc` prints for a value, and what the SDK reads from it. */
  function Printed(v: nat): string
  {
    var fraction := StripZeros(SixDigits(v));
    if |fraction| > 0 then Decimal(v / SCALE) + "." + fraction else Decimal(v / SCALE)
  }

  lemma DigitsAreNotPoints(s: string)
    requires AllDigits(s)
    ensures forall i | 0 <= i < |s| :: s[i] != '.' && !IsSpace(s[i])
  {
  }

  lemma PrintedReads(v: nat)
    ensures Trim(Printed(v)) == Printed(v) && SdkShape(Printed(v)) && BaseUnits(Printed(v)) == v
    ensures Whole(Printed(v)) == Decimal(v / SCALE) && Fraction(Printed(v)) == StripZeros(SixDigits(v))
  {
    hide Point, IsSpace, StripZeros, Decimal, Trim;
    var whole, fraction := Decimal(v / SCALE), StripZeros(SixDigits(v));
    SixDigitsOf(v);
    PadAfterStrip(SixDigits(v));
    ValueOfDecimal(v / SCALE);
    DigitsAreNotPoints(whole);
    DigitsAreNotPoints(fraction);
    PointOf(whole, fraction);
    TrimNothing(Printed(v));
    assert v == v / SCALE * SCALE + v % SCALE;
  }

  /** Base units to text and back: every canonical positive integer comes back unchanged. */
  lemma {:induction false} IntegerRoundTrip(s: string)
    requires CanonicalInteger(s) && s != "0"
    ensures BaseUnitsToUsdc(s).Some? && UsdcToBaseUnits(BaseUnitsToUsdc(s).value) == Some(s)
  {
    hide Point, IsSpace, StripZeros, Decimal, Trim, Value, SdkShape, BaseUnits;
    DigitsAreNotPoints(s);
    TrimNothing(s);
    PrintedReads(Value(s));
    LeadingMatters(s);
    DecimalOfValue(s);
  }

  /** The canonical decimal form of an amount: its whole part, and its fraction without trailing zeros. */
  function CanonicalForm(trimmed: string): string
  {
    var fraction := StripZeros(Fraction(trimmed));
    if |fraction| > 0 then Whole(trimmed) + "." + fraction else Whole(trimmed)
  }

  lemma BaseUnitsSplit(trimmed: string)
    requires SdkShape(trimmed)
    ensures BaseUnits(trimmed) / SCALE == Value(Whole(trimmed))
    ensures BaseUnits(trimmed) % SCALE == Value(PadEnd(Fraction(trimmed), 6))
  {
    hide Point, Value;
    PadEndDigits(Fraction(trimmed), 6);
    ValueBelow(PadEnd(Fraction(trimmed), 6));
    TenSix();
  }

  /** Text to base units and back: every accepted amount comes back in its canonical form. */
  lemma AmountRoundTrip(amount: string)
    requires UsdcToBaseUnits(amount).Some?
    ensures BaseUnitsToUsdc(UsdcToBaseUnits(amount).value) == Some(CanonicalForm(Trim(amount)))
  {
    hide Point, IsSpace, StripZeros, Decimal, Trim, Value, BaseUnits, PadStart, PadEnd;
    var trimmed := Trim(amount);
    var v, s, padded := BaseUnits(trimmed), Decimal(BaseUnits(trimmed)), PadEnd(Fraction(trimmed), 6);
    ValueOfDecimal(v);
    DigitsAreNotPoints(s);
    TrimNothing(s);
    BaseUnitsSplit(trimmed);
    SixDigitsOf(v);
    PadEndDigits(Fraction(trimmed), 6);
    SameDigits(SixDigits(v), padded);
    StripAfterPad(Fraction(trimmed), 6);
    WholeIsCanonical(trimmed);
    DecimalOfValue(Whole(trimmed));
  }

  lemma WholeIsCanonical(trimmed: string)
    requires SdkShape(trimmed)
    ensures CanonicalInteger(Whole(trimmed))
  {
    if |Whole(trimmed)| == 1 && Whole(trimmed)[0] == '0' { assert Whole(trimmed) == "0"; }
  }

  // ---------------------------------------------------------------- the two parsers agree

  /**
    The SDK accepts what the server accepts, with the same value; the one thing it accepts besides
    is an amount that ends in a bare point.
  */
  lemma ParsersAgreeExactly(amount: string)
    ensures ParseUsdcBaseUnits(amount).Some? <==>
              UsdcToBaseUnits(amount).Some? && Trim(amount)[|Trim(amount)| - 1] != '.'
    ensures ParseUsdcBaseUnits(amount).Some? ==> UsdcToBaseUnits(amount) == Some(Decimal(ParseUsdcBaseUnits(amount).value))
  {
    hide Point, IsSpace, Decimal, Trim, Value, PadEnd;
    var trimmed := Trim(amount);
    if AllDigits(Whole(trimmed)) && AllDigits(Fraction(trimmed)) && |Fraction(trimmed)| <= 6 {
      PadEndDigits(Fraction(trimmed), 6);
      ValueJoin(Whole(trimmed), PadEnd(Fraction(trimmed), 6));
      TenSix();
    }
    if |Whole(trimmed)| == 1 && Whole(trimmed)[0] == '0' { assert Whole(trimmed) == "0"; }
    LastChar(trimmed);
  }

  lemma LastChar(s: string)
    ensures |Whole(s)| > 0 ==> s != ""
    ensures |Whole(s)| > 0 && AllDigits(Whole(s)) && AllDigits(Fraction(s)) ==>
              (s[|s| - 1] == '.' <==> Point(s) < |s| && |Fraction(s)| == 0) && s[0] != '-'
  {
    if |Whole(s)| > 0 && AllDigits(Whole(s)) && AllDigits(Fraction(s)) {
      assert Whole(s)[0] == s[0];
      if Point(s) == |s| {
        assert Whole(s)[|s| - 1] == s[|s| - 1];
      } else if |Fraction(s)| > 0 {
        assert Fraction(s)[|Fraction(s)| - 1] == s[|s| - 1];
      }
    }
  }

  // ---------------------------------------------------------------- what is accepted

  /** The text is a whole part without leading zeros and, after a point, at most six digits, and not all of it zero. */
  ghost predicate IsAmount(s: string, whole: string, fraction: string)
  {
    && (s == whole + "." + fraction || (s == whole && fraction == ""))
    && CanonicalInteger(whole) && AllDigits(fraction) && |fraction| <= 6
    && (Value(whole) > 0 || Value(fraction) > 0)
  }

  /** The amount in millionths. */
  function Millionths(whole: string, fraction: string): nat
    requires AllDigits(whole) && AllDigits(fraction) && |fraction| <= 6
  {
    Value(whole) * 1000000 + Value(fraction) * Ten(6 - |fraction|)
  }

  lemma PaddedValue(fraction: string)
    requires AllDigits(fraction) && |fraction| <= 6
    ensures AllDigits(PadEnd(fraction, 6)) && Value(PadEnd(fraction, 6)) == Value(fraction) * Ten(6 - |fraction|)
  {
    hide Value;
    if |fraction| < 6 {
      ZerosAreNothing(6 - |fraction|);
      ValueJoin(fraction, Zeros(6 - |fraction|));
    } else {
      assert Ten(0) == 1;
    }
  }

  lemma PartsOf(s: string, whole: string, fraction: string)
    requires IsAmount(s, whole, fraction)
    ensures Whole(s) == whole && Fraction(s) == fraction
  {
    hide Value, Point;
    DigitsAreNotPoints(whole);
    DigitsAreNotPoints(fraction);
    if s == whole { NoPoint(whole); } else { PointOf(whole, fraction); }
  }

  lemma NoPoint(s: string)
    requires forall i | 0 <= i < |s| :: s[i] != '.'
    ensures Whole(s) == s && Fraction(s) == ""
  {
    assert Point(s) == |s|;
  }

  /** The SDK accepts exactly the trimmed texts that are amounts, as whole times a million and the fraction in millionths. */
  lemma {:induction false} AcceptsExactly(amount: string)
    ensures UsdcToBaseUnits(amount).Some? <==> exists whole, fraction :: IsAmount(Trim(amount), whole, fraction)
    ensures forall whole, fraction | IsAmount(Trim(amount), whole, fraction) ::
              UsdcToBaseUnits(amount) == Some(Decimal(Millionths(whole, fraction)))
  {
    hide Value, Point, Decimal, Trim, Millionths, UsdcToBaseUnits;
    var s := Trim(amount);
    forall whole, fraction | IsAmount(s, whole, fraction)
      ensures UsdcToBaseUnits(amount) == Some(Decimal(Millionths(whole, fraction)))
    {
      AmountIsAccepted(amount, whole, fraction);
    }
    if UsdcToBaseUnits(amount).Some? { AcceptedIsAmount(amount); }
  }

  lemma AmountIsAccepted(amount: string, whole: string, fraction: string)
    requires IsAmount(Trim(amount), whole, fraction)
    ensures UsdcToBaseUnits(amount) == Some(Decimal(Millionths(whole, fraction)))
  {
    hide Value, Point, Decimal, Trim, PadEnd, Ten, Whole, Fraction;
    PartsOf(Trim(amount), whole, fraction);
    UnitsAre(Trim(amount), whole, fraction);
  }

  lemma UnitsAre(s: string, whole: string, fraction: string)
    requires IsAmount(s, whole, fraction) && Whole(s) == whole && Fraction(s) == fraction
    ensures BaseUnits(s) == Millionths(whole, fraction) > 0
  {
    hide Value, PadEnd, Ten, Whole, Fraction;
    PaddedValue(fraction);
    Positive(Value(fraction), Ten(6 - |fraction|));
  }

  lemma Positive(a: nat, b: nat)
    requires b > 0
    ensures a > 0 ==> a * b > 0
    ensures a == 0 ==> a * b == 0
  {
  }

  lemma AcceptedIsAmount(amount: string)
    requires UsdcToBaseUnits(amount).Some?
    ensures IsAmount(Trim(amount), Whole(Trim(amount)), Fraction(Trim(amount)))
  {
    hide Value, PadEnd, Trim, Decimal;
    var s := Trim(amount);
    WholeIsCanonical(s);
    PaddedValue(Fraction(s));
    Positive(Value(Fraction(s)), Ten(6 - |Fraction(s)|));
    if Point(s) < |s| { assert s == Whole(s) + "." + Fraction(s); }
  }

  /** Trimming takes exactly the white space off both ends. */
  lemma {:induction false} TrimsExactly(s: string)
    ensures exists a, b :: 0 <= a <= b <= |s| && Trim(s) == s[a..b]
              && (forall i | 0 <= i < a || b <= i < |s| :: IsSpace(s[i]))
              && (a < b ==> !IsSpace(s[a]) && !IsSpace(s[b - 1]))
  {
    hide IsSpace;
    var a := StartOf(s);
    var b := EndOf(s[a..]);
    assert s[a..][..b] == s[a..a + b];
    forall i | 0 <= i < a || a + b <= i < |s| ensures IsSpace(s[i]) {
      if a + b <= i { assert s[a..][i - a] == s[i]; }
    }
  }

  lemma {:induction false} StartOf(s: string) returns (a: nat)
    ensures a <= |s| && TrimStart(s) == s[a..] && (forall i | 0 <= i < a :: IsSpace(s[i])) && (a < |s| ==> !IsSpace(s[a]))
  {
    hide IsSpace;
    if s != "" && IsSpace(s[0]) {
      var rest := StartOf(s[1..]);
      a := rest + 1;
      forall i | 0 <= i < a ensures IsSpace(s[i]) { if i > 0 { assert s[1..][i - 1] == s[i]; } }
    } else {
      a := 0;
    }
  }

  lemma {:induction false} EndOf(s: string) returns (b: nat)
    ensures b <= |s| && TrimEnd(s) == s[..b] && (forall i | b <= i < |s| :: IsSpace(s[i])) && (b > 0 ==> !IsSpace(s[b - 1]))
    decreases |s|
  {
    hide IsSpace;
    if s != "" && IsSpace(s[|s| - 1]) {
      b := EndOf(s[..|s| - 1]);
    } else {
      b := |s|;
    }
  }
}
