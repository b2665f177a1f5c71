/** The byte-mode segment of section 7.4 of ISO/IEC 18004:2015, its encoder and a reader for it. */
module TextSegment {
  import opened Text
  import opened Galois
  import opened BitStream
  import opened Versions
  import opened Interleaving
  import opened ReedSolomon

  function LayoutOf(v: Version): (l: Layout)
    ensures l.Valid() && l.DataTotal() == Total(v) - EcTotal(v) && l.total == Total(v) && l.blocks == Blocks(v)
  {
    TablesAreSound(v);
    Layout(Total(v), EcTotal(v), Blocks(v))
  }

  /** Pad byte i: 0xec and 0x11 in turn. */
  function PadByte(i: nat): nat { if i % 2 == 0 then 0xec else 0x11 }

  function Padding(n: nat): seq<bool>
  {
    if n == 0 then [] else Padding(n - 1) + Numeral(PadByte(n - 1), 8)
  }

  const MODE_BYTE: seq<bool> := [false, true, false, false]

  /** Mode, character count and text. */
  function Header(bytes: seq<Byte>, v: Version): seq<bool>
  {
    MODE_BYTE + Numeral(|bytes|, CharCountBits(v)) + AllBits(bytes)
  }

  /** Pad bytes needed after the four-bit terminator. */
  function PadCount(n: nat, v: Version): int
  {
    Total(v) - EcTotal(v) - (8 + CharCountBits(v)) / 8 - n
  }

  /** The whole data area: header, terminator, padding. */
  function Stream(bytes: seq<Byte>, v: Version): seq<bool>
    requires PadCount(|bytes|, v) >= 0
  {
    Header(bytes, v) + [false, false, false, false] + Padding(PadCount(|bytes|, v))
  }

  /** Text that fits leaves room for the whole terminator, and the pad bytes end exactly at capacity. */
  lemma {:induction false} TerminatorFits(n: nat, v: Version)
    requires n <= Capacity(v)
    ensures 4 + CharCountBits(v) + 8 * n + 4 <= 8 * (Total(v) - EcTotal(v))
    ensures PadCount(n, v) >= 0
    ensures 4 + CharCountBits(v) + 8 * n + 4 + 8 * PadCount(n, v) == 8 * (Total(v) - EcTotal(v))
    ensures ToBoundary(4 + CharCountBits(v) + 8 * n + 4) == 0
  {
    hide Total, EcTotal;
  }

  lemma {:induction false} PaddingLength(n: nat)
    ensures |Padding(n)| == 8 * n
  {
    if n > 0 { PaddingLength(n - 1); }
  }

  /** `encodeData`. */
  method EncodeData(t: Tables, bytes: seq<Byte>, v: Version) returns (codewords: seq<Byte>)
    requires t.Ready() && |bytes| <= Capacity(v)
    ensures PadCount(|bytes|, v) >= 0
    ensures |codewords| == Total(v)
    ensures AllBits(LayoutOf(v).Deinterleave(codewords, Blocks(v))) == Stream(bytes, v)
    ensures LayoutOf(v).BlocksAreCodewords(codewords)
  {
    hide Stream, PadCount, Capacity, Tables.Ready, LayoutOf, Layout.Valid, Layout.BlocksAreCodewords, Layout.Deinterleave;
    var payload := Segment(bytes, v);
    codewords := CreateCodewords(t, LayoutOf(v), payload);
  }

  /** The data area: mode, count, text, terminator, alignment and pad bytes. */
  method Segment(bytes: seq<Byte>, v: Version) returns (payload: seq<Byte>)
    requires |bytes| <= Capacity(v)
    ensures PadCount(|bytes|, v) >= 0
    ensures |payload| == Total(v) - EcTotal(v) && AllBits(payload) == Stream(bytes, v)
  {
    hide Total, EcTotal, Numeral, AllBits, Capacity, PadCount, CharCountBits, ToBoundary, Zeros;
    TerminatorFits(|bytes|, v);
    var capacityBits := (Total(v) - EcTotal(v)) * 8;
    var bits := new Bits();
    bits.Put(4, 4);
    ModeNibble();
    bits.Put(|bytes|, CharCountBits(v));
    bits.PutBytes(bytes);
    assert bits.bits == Header(bytes, v);
    if |bits.bits| + 4 <= capacityBits { bits.Put(0, 4); }
    ZeroNibble();
    AlignToByte(bits);
    assert bits.bits == Header(bytes, v) + [false, false, false, false];
    var remaining := (capacityBits - |bits.bits|) / 8;
    assert remaining == PadCount(|bytes|, v);
    PadBytes(bits, remaining);
    PaddingLength(remaining);
    payload := bits.ToBytes();
    assert AllBits(payload) == bits.bits;
  }

  /** The pad bytes, in turn. */
  method PadBytes(bits: Bits, remaining: nat)
    modifies bits
    ensures bits.bits == old(bits.bits) + Padding(remaining)
  {
    hide Numeral;
    ghost var start := bits.bits;
    for i := 0 to remaining
      invariant bits.bits == start + Padding(i)
    {
      bits.Put(if i % 2 == 1 then 0x11 else 0xec, 8);
      assert PadByte(i) == if i % 2 == 1 then 0x11 else 0xec;
    }
  }

  /** Zero bits up to the next byte boundary. */
  method AlignToByte(bits: Bits)
    modifies bits
    ensures bits.bits == old(bits.bits) + Zeros(ToBoundary(|old(bits.bits)|))
  {
    ghost var n := 0;
    while |bits.bits| % 8 != 0
      invariant n <= ToBoundary(|old(bits.bits)|) && ToBoundary(|bits.bits|) == ToBoundary(|old(bits.bits)|) - n
      invariant bits.bits == old(bits.bits) + Zeros(n)
      decreases ToBoundary(|bits.bits|)
    {
      OneZero();
      NextBoundary(|bits.bits|);
      bits.Put(0, 1);
      n := n + 1;
    }
  }

  function Zeros(n: nat): (s: seq<bool>)
    ensures |s| == n && forall k | 0 <= k < n :: !s[k]
  {
    seq(n, _ => false)
  }

  /** How many bits are missing to a whole byte. */
  function ToBoundary(n: nat): nat
  {
    (8 - n % 8) % 8
  }

  lemma NextBoundary(n: nat)
    requires n % 8 != 0
    ensures ToBoundary(n) > 0 && ToBoundary(n + 1) == ToBoundary(n) - 1
  {
  }

  lemma OneZero()
    ensures Numeral(0, 1) == [false]
  {
  }

  lemma ModeNibble()
    ensures Numeral(4, 4) == MODE_BYTE
  {
    NumeralLow(4);
  }

  lemma ZeroNibble()
    ensures Numeral(0, 4) == [false, false, false, false]
  {
    NumeralLow(0);
  }

  // ---------------------------------------------------------------- reading the segment back

  /** Bytes from consecutive groups of eight bits. */
  function Pack(s: seq<bool>): seq<Byte>
    requires |s| % 8 == 0
  {
    if s == [] then [] else [B(s[0], s[1], s[2], s[3], s[4], s[5], s[6], s[7])] + Pack(s[8..])
  }

  lemma {:induction false} PackAllBits(bytes: seq<Byte>)
    ensures Pack(AllBits(bytes)) == bytes
  {
    if bytes != [] {
      var x, rest := bytes[0], bytes[1..];
      assert bytes == [x] + rest;
      assert AllBits([x]) == ByteBits(x) by { assert [x][..0] == []; }
      AllBitsSplit([x], rest);
      assert AllBits(bytes)[8..] == AllBits(rest);
      PackAllBits(rest);
    }
  }

  /** Mode indicator, character count, then that many bytes. */
  function Parse(s: seq<bool>, v: Version): Option<seq<Byte>>
  {
    var start := 4 + CharCountBits(v);
    if |s| < start || s[..4] != MODE_BYTE then None
    else
      var n := Number(s[4..start]);
      if |s| < start + 8 * n then None else Some(Pack(s[start..start + 8 * n]))
  }

  /** A reader: de-interleave the codewords and parse the segment. */
  ghost function Decode(codewords: seq<Byte>, v: Version): Option<seq<Byte>>
    requires |codewords| == Total(v)
  {
    Parse(AllBits(LayoutOf(v).Deinterleave(codewords, Blocks(v))), v)
  }

  lemma ParseStream(bytes: seq<Byte>, v: Version)
    requires |bytes| <= Capacity(v) && PadCount(|bytes|, v) >= 0
    ensures Parse(Stream(bytes, v), v) == Some(bytes)
  {
    hide Total, EcTotal, Numeral, AllBits, Padding;
    var n, c := |bytes|, CharCountBits(v);
    var s := Stream(bytes, v);
    var count, text := Numeral(n, c), AllBits(bytes);
    var rest := [false, false, false, false] + Padding(PadCount(n, v));
    assert s == MODE_BYTE + (count + (text + rest));
    assert s[..4] == MODE_BYTE;
    assert s[4..4 + c] == count;
    assert s[4 + c..4 + c + 8 * n] == text;
    NumberOfNumeral(n, c);
    CountFits(n, v);
    PackAllBits(bytes);
  }

  lemma CountFits(n: nat, v: Version)
    requires n <= Capacity(v)
    ensures n % Two(CharCountBits(v)) == n
  {
    TablesAreSound(v);
    assert Two(8) == 256 && Two(16) == 65536;
  }

  /** What `encodeData` writes, the reader gets back. */
  lemma {:induction false} DecodeEncoded(codewords: seq<Byte>, bytes: seq<Byte>, v: Version)
    requires |bytes| <= Capacity(v) && PadCount(|bytes|, v) >= 0 && |codewords| == Total(v)
    requires AllBits(LayoutOf(v).Deinterleave(codewords, Blocks(v))) == Stream(bytes, v)
    ensures Decode(codewords, v) == Some(bytes)
  {
    ParseStream(bytes, v);
  }
}
