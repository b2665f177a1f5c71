/**
  The bit buffer of src/lib/paymentQr.ts, and the reader it is matched against: numbers are written
  most significant bit first, bytes are packed eight bits each.
*/
module BitStream {
  import opened Arithmetic
  import opened Galois

  function Two(n: nat): (p: nat)
    ensures p > 0
  {
    if n == 0 then 1 else 2 * Two(n - 1)
  }

  /** Bit k of a number: `(value >>> k) & 1`. */
  function BitAt(value: nat, k: nat): bool
  {
    Odd(Quotient(value, Two(k)))
  }

  function Quotient(n: nat, d: nat): nat
    requires d > 0
  {
    n / d
  }

  /** The low `length` bits of `value`, most significant first. */
  function Numeral(value: nat, length: nat): (s: seq<bool>)
    ensures |s| == length
    decreases length
  {
    if length == 0 then [] else [BitAt(value, length - 1)] + Numeral(value, length - 1)
  }

  /** The number a bit string denotes. */
  function Number(s: seq<bool>): nat
  {
    if s == [] then 0 else (if s[0] then Two(|s| - 1) else 0) + Number(s[1..])
  }

  lemma {:induction false} NumberOfNumeral(value: nat, length: nat)
    ensures Number(Numeral(value, length)) == value % Two(length)
    decreases length
  {
    if length > 0 {
      NumberOfNumeral(value, length - 1);
      assert Numeral(value, length)[1..] == Numeral(value, length - 1);
      SplitTop(value, Two(length - 1));
    }
  }

  lemma SplitTop(value: nat, p: nat)
    requires p > 0
    ensures value % (2 * p) == (if Odd(value / p) then p else 0) + value % p
  {
    var q, r := value / p, value % p;
    var h := q / 2;
    assert value == p * q + r;
    if Odd(q) {
      assert q == 2 * h + 1;
      assert value == (2 * p) * h + (p + r) by {
        assert p * q == p * (2 * h) + p;
      }
      Quotients(value, 2 * p, h, p + r);
    } else {
      assert q == 2 * h;
      assert value == (2 * p) * h + r;
      Quotients(value, 2 * p, h, r);
    }
  }

  /** The eight bits of a byte, most significant first. */
  function ByteBits(x: Byte): (s: seq<bool>)
    ensures |s| == 8 && forall k | 0 <= k < 8 :: s[k] == Bit(x, 7 - k)
  {
    [x.b7, x.b6, x.b5, x.b4, x.b3, x.b2, x.b1, x.b0]
  }

  function AllBits(bytes: seq<Byte>): (s: seq<bool>)
    ensures |s| == 8 * |bytes|
  {
    if bytes == [] then [] else AllBits(bytes[..|bytes| - 1]) + ByteBits(bytes[|bytes| - 1])
  }

  lemma {:induction false} AllBitsAt(bytes: seq<Byte>, i: nat)
    requires i < 8 * |bytes|
    ensures AllBits(bytes)[i] == Bit(bytes[i / 8], 7 - i % 8)
    decreases |bytes|
  {
    var n := |bytes| - 1;
    if i < 8 * n {
      AllBitsAt(bytes[..n], i);
    } else {
      assert i / 8 == n && i % 8 == i - 8 * n;
    }
  }

  lemma {:induction false} AllBitsSplit(s: seq<Byte>, t: seq<Byte>)
    ensures AllBits(s + t) == AllBits(s) + AllBits(t)
    decreases |t|
  {
    if t == [] {
      assert s + t == s;
    } else {
      var n := |t| - 1;
      hide ByteBits;
      AllBitsSplit(s, t[..n]);
      assert (s + t)[..|s + t| - 1] == s + t[..n];
      var a, b, c := AllBits(s), AllBits(t[..n]), ByteBits(t[n]);
      assert (a + b) + c == a + (b + c);
    }
  }

  lemma ByteBitsInjective(x: Byte, y: Byte)
    requires ByteBits(x) == ByteBits(y)
    ensures x == y
  {
    assert ByteBits(x)[0] == ByteBits(y)[0] && ByteBits(x)[1] == ByteBits(y)[1] && ByteBits(x)[2] == ByteBits(y)[2];
    assert ByteBits(x)[3] == ByteBits(y)[3] && ByteBits(x)[4] == ByteBits(y)[4] && ByteBits(x)[5] == ByteBits(y)[5];
    assert ByteBits(x)[6] == ByteBits(y)[6] && ByteBits(x)[7] == ByteBits(y)[7];
  }

  lemma {:induction false} AllBitsInjective(s: seq<Byte>, t: seq<Byte>)
    requires AllBits(s) == AllBits(t)
    ensures s == t
    decreases |s|
  {
    if s != [] {
      var n := |s| - 1;
      assert |t| == n + 1;
      assert AllBits(s[..n]) == AllBits(s)[..8 * n] == AllBits(t)[..8 * n] == AllBits(t[..n]);
      assert ByteBits(s[n]) == AllBits(s)[8 * n..] == AllBits(t)[8 * n..] == ByteBits(t[n]);
      ByteBitsInjective(s[n], t[n]);
      AllBitsInjective(s[..n], t[..n]);
      assert s == s[..n] + [s[n]] && t == t[..n] + [t[n]];
    }
  }

  lemma Twos()
    ensures Two(0) == 1 && Two(1) == 2 && Two(2) == 4 && Two(3) == 8 && Two(4) == 16 && Two(5) == 32 && Two(6) == 64 && Two(7) == 128
  {
  }

  lemma NumeralEmpty(value: nat)
    ensures Numeral(value, 0) == []
  {
  }

  lemma NumeralStep(value: nat, length: nat)
    requires length > 0
    ensures Numeral(value, length) == [BitAt(value, length - 1)] + Numeral(value, length - 1)
  {
  }

  lemma NumeralLow(v: nat)
    ensures Numeral(v, 4) == [Odd(v / 8), Odd(v / 4), Odd(v / 2), Odd(v)]
  {
    hide Two, Numeral;
    Twos();
    NumeralEmpty(v);
    NumeralStep(v, 1);
    NumeralStep(v, 2);
    NumeralStep(v, 3);
    NumeralStep(v, 4);
  }

  lemma NumeralHigh(v: nat)
    ensures Numeral(v, 8) == [Odd(v / 128), Odd(v / 64), Odd(v / 32), Odd(v / 16)] + Numeral(v, 4)
  {
    hide Two, Numeral;
    Twos();
    NumeralStep(v, 5);
    NumeralStep(v, 6);
    NumeralStep(v, 7);
    NumeralStep(v, 8);
  }

  /** `put(byte, 8)` appends the bits of the byte. */
  lemma NumeralOfByte(x: Byte)
    ensures Numeral(Value(x), 8) == ByteBits(x)
  {
    hide Two, Value, Odd, Numeral;
    var v := Value(x);
    ValueOfValue(v);
    ValueInjective(OfValue(v), x);
    NumeralLow(v);
    NumeralHigh(v);
  }

  function WithBit(x: Byte, k: nat): Byte
  {
    B(x.b7 || k == 7, x.b6 || k == 6, x.b5 || k == 5, x.b4 || k == 4, x.b3 || k == 3, x.b2 || k == 2, x.b1 || k == 1, x.b0 || k == 0)
  }

  class Bits {
    var bits: seq<bool>

    constructor ()
      ensures bits == []
    {
      bits := [];
    }

    method Put(value: nat, length: nat)
      modifies this
      ensures bits == old(bits) + Numeral(value, length)
    {
      hide BitAt, Numeral;
      var i := length - 1;
      NumeralEmpty(value);
      while i >= 0
        invariant -1 <= i < length
        invariant bits + Numeral(value, i + 1) == old(bits) + Numeral(value, length)
      {
        NumeralStep(value, i + 1);
        bits := bits + [BitAt(value, i)];
        i := i - 1;
      }
    }

    method PutBytes(bytes: seq<Byte>)
      modifies this
      ensures bits == old(bits) + AllBits(bytes)
    {
      for i := 0 to |bytes|
        invariant bits == old(bits) + AllBits(bytes[..i])
      {
        hide Value, Numeral;
        Put(Value(bytes[i]), 8);
        NumeralOfByte(bytes[i]);
        assert bytes[..i + 1][..i] == bytes[..i];
      }
      assert bytes[..|bytes|] == bytes;
    }

    /** Packs the bits into bytes; a last partial byte is filled with zero bits. */
    method ToBytes() returns (out: seq<Byte>)
      ensures |out| == (|bits| + 7) / 8
      ensures forall i | 0 <= i < 8 * |out| :: AllBits(out)[i] == (i < |bits| && bits[i])
    {
      var packed := new Byte[(|bits| + 7) / 8](_ => ZERO);
      for i := 0 to |bits|
        invariant forall k | 0 <= k < 8 * packed.Length :: Bit(packed[k / 8], 7 - k % 8) == (k < i && bits[k])
      {
        if bits[i] {
          packed[i / 8] := WithBit(packed[i / 8], 7 - i % 8);
        }
      }
      out := packed[..];
      forall i | 0 <= i < 8 * |out| ensures AllBits(out)[i] == (i < |bits| && bits[i]) {
        AllBitsAt(out, i);
      }
    }
  }
}
