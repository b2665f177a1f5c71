/**
  Splitting the data codewords into blocks and interleaving data and parity columns
  (section 7.6 of ISO/IEC 18004:2015), for any block count that divides the parity total.
*/
module Interleaving {
  import opened Arithmetic
  import opened Galois
  import opened Polynomials
  import opened ReedSolomon

  datatype Layout = Layout(total: nat, ecTotal: nat, blocks: nat) {
    predicate Valid()
    {
      0 < blocks && ecTotal <= total && ecTotal % blocks == 0 && ecTotal / blocks <= 512
    }

    function DataTotal(): nat
      requires Valid()
    {
      total - ecTotal
    }

    /** `dataInGroup1`: bytes in a short block. */
    function Short(): nat
      requires Valid()
    {
      DataTotal() / blocks
    }

    /** `blocksInGroup1`: how many blocks are short; the others hold one byte more. */
    function ShortBlocks(): nat
      requires Valid()
    {
      blocks - total % blocks
    }

    /** `ecCount`: parity bytes of one block. */
    function EcCount(): nat
      requires Valid()
    {
      ecTotal / blocks
    }

    function Size(b: nat): nat
      requires Valid()
    {
      if b < ShortBlocks() then Short() else Short() + 1
    }

    /** Where block b starts in the data. */
    function Offset(b: nat): nat
      requires Valid()
    {
      if b <= ShortBlocks() then b * Short() else b * Short() + (b - ShortBlocks())
    }

    /** The value of `index` when the data loops reach column i and row r. */
    function DataSlot(i: nat, r: nat): nat
      requires Valid()
    {
      if i < Short() then i * blocks + r
      else if i == Short() && r > ShortBlocks() then Short() * blocks + (r - ShortBlocks())
      else if i == Short() then Short() * blocks
      else DataTotal()
    }

    function EcSlot(i: nat, r: nat): nat
      requires Valid()
    {
      DataTotal() + i * blocks + r
    }

    lemma Counts()
      requires Valid()
      ensures DataTotal() == Short() * blocks + total % blocks
      ensures ecTotal == EcCount() * blocks
      ensures total / blocks - Short() == EcCount()
      ensures 0 < ShortBlocks() <= blocks
      ensures Offset(blocks) == DataTotal()
    {
      var e, s := EcCount(), Short();
      assert ecTotal == e * blocks;
      var t, m := total / blocks, total % blocks;
      assert total == t * blocks + m;
      assert total - ecTotal == (t - e) * blocks + m;
      Quotients(total - ecTotal, blocks, t - e, m);
    }

    lemma DataSlotNext(i: nat, r: nat)
      requires Valid() && r < blocks
      ensures i < Size(r) ==> DataSlot(i, r + 1) == DataSlot(i, r) + 1
      ensures i >= Size(r) && i <= Short() ==> DataSlot(i, r + 1) == DataSlot(i, r)
    {
    }

    lemma DataSlotWrap(i: nat)
      requires Valid() && i <= Short()
      ensures DataSlot(i, blocks) == DataSlot(i + 1, 0)
    {
      Counts();
      assert i * blocks + blocks == (i + 1) * blocks;
    }

    lemma OffsetNext(b: nat)
      requires Valid() && b < blocks
      ensures Offset(b) + Size(b) == Offset(b + 1)
      ensures Offset(b + 1) <= DataTotal()
    {
      Counts();
      NextMultiple(b, Short());
      assert Offset(b) + Size(b) == Offset(b + 1);
      Scaled(b + 1, blocks, Short());
    }

    static lemma NextMultiple(b: nat, s: nat)
      ensures (b + 1) * s == b * s + s
    {
    }

    static lemma Scaled(a: nat, b: nat, s: nat)
      requires a <= b
      ensures a * s <= b * s
    {
    }

    /** Data slots come before the parity slots, and parity slots end at `total`. */
    lemma SlotsInRange(i: nat, r: nat)
      requires Valid() && r < blocks
      ensures i < Size(r) ==> DataSlot(i, r) < DataTotal()
      ensures i < EcCount() ==> EcSlot(i, r) < total
    {
      Counts();
      if i < Short() {
        NextMultiple(i, blocks);
        Scaled(i + 1, Short(), blocks);
      }
      if i < EcCount() {
        NextMultiple(i, blocks);
        Scaled(i + 1, EcCount(), blocks);
      }
    }

    // -------------------------------------------------------------- reading the codewords back

    /** The data bytes of block b, picked out of the interleaved codewords. */
    ghost function DataBlock(codewords: seq<Byte>, b: nat): (d: seq<Byte>)
      requires Valid() && |codewords| == total && b < blocks
      ensures |d| == Size(b)
    {
      seq(Size(b), i requires 0 <= i < Size(b) => SlotsInRange(i, b); codewords[DataSlot(i, b)])
    }

    /** The parity bytes of block b. */
    ghost function ParityBlock(codewords: seq<Byte>, b: nat): (d: seq<Byte>)
      requires Valid() && |codewords| == total && b < blocks
      ensures |d| == EcCount()
    {
      seq(EcCount(), i requires 0 <= i < EcCount() => SlotsInRange(i, b); codewords[EcSlot(i, b)])
    }

    /** The data of the first n blocks, in order. */
    ghost function Deinterleave(codewords: seq<Byte>, n: nat): (d: seq<Byte>)
      requires Valid() && |codewords| == total && n <= blocks
      decreases n
    {
      if n == 0 then [] else Deinterleave(codewords, n - 1) + DataBlock(codewords, n - 1)
    }

    /** Every block, data followed by parity, is a Reed-Solomon codeword. */
    ghost predicate BlocksAreCodewords(codewords: seq<Byte>)
      requires Valid() && |codewords| == total
    {
      forall b: nat | b < blocks :: Multiple(Generator(EcCount()), DataBlock(codewords, b) + ParityBlock(codewords, b))
    }

    lemma {:induction false} DeinterleaveIs(codewords: seq<Byte>, payload: seq<Byte>, n: nat)
      requires Valid() && |codewords| == total && |payload| == DataTotal() && n <= blocks
      requires forall b: nat | b < blocks ::
                 Offset(b) + Size(b) <= |payload| && DataBlock(codewords, b) == payload[Offset(b)..Offset(b) + Size(b)]
      ensures Offset(n) <= |payload| && Deinterleave(codewords, n) == payload[..Offset(n)]
      decreases n
    {
      if n > 0 {
        DeinterleaveIs(codewords, payload, n - 1);
        OffsetNext(n - 1);
      }
    }
  }

  /** The block split: `dc[b]` is block b of the payload, `ec[b]` its parity bytes. */
  method SplitBlocks(t: Tables, l: Layout, payload: seq<Byte>) returns (dc: seq<Poly>, ec: seq<Poly>, maxData: nat)
    requires t.Ready() && l.Valid() && |payload| == l.DataTotal()
    ensures |dc| == |ec| == l.blocks
    ensures forall b: nat | b < l.blocks ::
              l.Offset(b) + l.Size(b) <= |payload| && dc[b] == payload[l.Offset(b)..l.Offset(b) + l.Size(b)]
    ensures forall b: nat | b < l.blocks :: |ec[b]| == l.EcCount() && Multiple(Generator(l.EcCount()), dc[b] + ec[b])
    ensures maxData == if l.ShortBlocks() < l.blocks then l.Short() + 1 else l.Short()
  {
    hide Generator, Multiple;
    dc, ec, maxData := [], [], 0;
    var offset := 0;
    l.Counts();
    for b := 0 to l.blocks
      invariant |dc| == |ec| == b && offset == l.Offset(b)
      invariant forall k: nat | k < b :: l.Offset(k) + l.Size(k) <= |payload| && dc[k] == payload[l.Offset(k)..l.Offset(k) + l.Size(k)]
      invariant forall k: nat | k < b :: |ec[k]| == l.EcCount() && Multiple(Generator(l.EcCount()), dc[k] + ec[k])
      invariant maxData == if b > l.ShortBlocks() then l.Short() + 1 else if b > 0 then l.Short() else 0
    {
      l.OffsetNext(b);
      var dataSize := if b < l.ShortBlocks() then l.Short() else l.Short() + 1;
      var chunk := payload[offset..offset + dataSize];
      var parity := RsEncode(t, chunk, l.EcCount());
      dc := dc + [chunk];
      ec := ec + [parity];
      offset := offset + dataSize;
      maxData := if dataSize > maxData then dataSize else maxData;
    }
  }

  /** The data loops have written every byte before column i, row r to its slot. */
  ghost predicate DataPlaced(l: Layout, data: seq<Byte>, dc: seq<Poly>, i: nat, r: nat)
    requires l.Valid() && |data| == l.total && |dc| == l.blocks && forall b: nat | b < l.blocks :: |dc[b]| == l.Size(b)
  {
    && l.DataSlot(i, r) <= l.total
    && forall k: nat, b: nat | b < l.blocks && k < l.Size(b) && (k < i || (k == i && b < r)) ::
         l.DataSlot(k, b) < l.DataSlot(i, r) && data[l.DataSlot(k, b)] == dc[b][k]
  }

  lemma DataPlacedStep(l: Layout, data: seq<Byte>, dc: seq<Poly>, i: nat, r: nat)
    requires l.Valid() && |data| == l.total && |dc| == l.blocks && forall b: nat | b < l.blocks :: |dc[b]| == l.Size(b)
    requires r < l.blocks && i <= l.Short() && DataPlaced(l, data, dc, i, r)
    ensures i < l.Size(r) ==>
              l.DataSlot(i, r) < l.total && DataPlaced(l, data[l.DataSlot(i, r) := dc[r][i]], dc, i, r + 1)
    ensures i >= l.Size(r) ==> DataPlaced(l, data, dc, i, r + 1)
  {
    l.DataSlotNext(i, r);
    l.SlotsInRange(i, r);
  }

  lemma DataPlacedWrap(l: Layout, data: seq<Byte>, dc: seq<Poly>, i: nat)
    requires l.Valid() && |data| == l.total && |dc| == l.blocks && forall b: nat | b < l.blocks :: |dc[b]| == l.Size(b)
    requires i <= l.Short() && DataPlaced(l, data, dc, i, l.blocks)
    ensures DataPlaced(l, data, dc, i + 1, 0)
  {
    l.DataSlotWrap(i);
  }

  /** The parity loops have written every byte before column i, row r. */
  ghost predicate ParityPlaced(l: Layout, data: seq<Byte>, ec: seq<Poly>, i: nat, r: nat)
    requires l.Valid() && |data| == l.total && |ec| == l.blocks && forall b: nat | b < l.blocks :: |ec[b]| == l.EcCount()
  {
    && l.EcSlot(i, r) <= l.total
    && forall k: nat, b: nat | b < l.blocks && k < l.EcCount() && (k < i || (k == i && b < r)) ::
         l.EcSlot(k, b) < l.EcSlot(i, r) && data[l.EcSlot(k, b)] == ec[b][k]
  }

  lemma ParityPlacedStep(l: Layout, data: seq<Byte>, ec: seq<Poly>, i: nat, r: nat)
    requires l.Valid() && |data| == l.total && |ec| == l.blocks && forall b: nat | b < l.blocks :: |ec[b]| == l.EcCount()
    requires r < l.blocks && i < l.EcCount() && ParityPlaced(l, data, ec, i, r)
    ensures l.EcSlot(i, r) < l.total
    ensures ParityPlaced(l, data[l.EcSlot(i, r) := ec[r][i]], ec, i, r + 1)
  {
    l.SlotsInRange(i, r);
  }

  lemma ParityPlacedWrap(l: Layout, data: seq<Byte>, ec: seq<Poly>, i: nat)
    requires l.Valid() && |data| == l.total && |ec| == l.blocks && forall b: nat | b < l.blocks :: |ec[b]| == l.EcCount()
    requires ParityPlaced(l, data, ec, i, l.blocks)
    ensures ParityPlaced(l, data, ec, i + 1, 0) && l.EcSlot(i + 1, 0) == l.EcSlot(i, l.blocks)
  {
    assert i * l.blocks + l.blocks == (i + 1) * l.blocks;
  }

  /**
    `createCodewords`: de-interleaving the result gives the payload back, and every block carries
    the parity that makes it a Reed-Solomon codeword. By `ParityUnique` this fixes every slot.
  */
  method CreateCodewords(t: Tables, l: Layout, payload: seq<Byte>) returns (codewords: seq<Byte>)
    requires t.Ready() && l.Valid() && |payload| == l.DataTotal()
    ensures |codewords| == l.total
    ensures l.Deinterleave(codewords, l.blocks) == payload
    ensures l.BlocksAreCodewords(codewords)
  {
    hide Generator, Multiple;
    var dc, ec, maxData := SplitBlocks(t, l, payload);
    var data := new Byte[l.total](_ => ZERO);
    PlaceData(l, dc, maxData, data);
    ghost var half := data[..];
    PlaceParity(l, ec, data);
    codewords := data[..];
    AllPlaced(l, codewords, half, dc, ec, maxData, payload);
  }

  /** The data columns, row by row. */
  method PlaceData(l: Layout, dc: seq<Poly>, maxData: nat, data: array<Byte>)
    requires l.Valid() && data.Length == l.total
    requires |dc| == l.blocks && forall b: nat | b < l.blocks :: |dc[b]| == l.Size(b)
    requires maxData == if l.ShortBlocks() < l.blocks then l.Short() + 1 else l.Short()
    modifies data
    ensures DataPlaced(l, data[..], dc, maxData, 0)
  {
    l.Counts();
    var index := 0;
    for i := 0 to maxData
      invariant index == l.DataSlot(i, 0) && DataPlaced(l, data[..], dc, i, 0)
    {
      for r := 0 to l.blocks
        invariant index == l.DataSlot(i, r) && DataPlaced(l, data[..], dc, i, r)
      {
        hide DataPlaced;
        DataPlacedStep(l, data[..], dc, i, r);
        l.DataSlotNext(i, r);
        if i < |dc[r]| {
          l.SlotsInRange(i, r);
          data[index] := dc[r][i];
          index := index + 1;
        }
      }
      DataPlacedWrap(l, data[..], dc, i);
      l.DataSlotWrap(i);
    }
  }

  /** The parity columns, in the slots after the data. */
  method PlaceParity(l: Layout, ec: seq<Poly>, data: array<Byte>)
    requires l.Valid() && data.Length == l.total
    requires |ec| == l.blocks && forall b: nat | b < l.blocks :: |ec[b]| == l.EcCount()
    modifies data
    ensures ParityPlaced(l, data[..], ec, l.EcCount(), 0)
    ensures data[..l.DataTotal()] == old(data[..l.DataTotal()])
  {
    l.Counts();
    ghost var n := l.DataTotal();
    var index := l.DataTotal();
    for i := 0 to l.EcCount()
      invariant index == l.EcSlot(i, 0) && ParityPlaced(l, data[..], ec, i, 0)
      invariant data[..n] == old(data[..n])
    {
      for r := 0 to l.blocks
        invariant index == l.EcSlot(i, r) && ParityPlaced(l, data[..], ec, i, r)
        invariant data[..n] == old(data[..n])
      {
        hide ParityPlaced;
        ParityPlacedStep(l, data[..], ec, i, r);
        data[index] := ec[r][i];
        index := index + 1;
      }
      ParityPlacedWrap(l, data[..], ec, i);
    }
  }

  lemma AllPlaced(l: Layout, codewords: seq<Byte>, half: seq<Byte>, dc: seq<Poly>, ec: seq<Poly>, maxData: nat, payload: seq<Byte>)
    requires l.Valid() && |codewords| == |half| == l.total && |dc| == |ec| == l.blocks && |payload| == l.DataTotal()
    requires forall b: nat | b < l.blocks :: |dc[b]| == l.Size(b)
    requires forall b: nat | b < l.blocks ::
               l.Offset(b) + l.Size(b) <= |payload| && dc[b] == payload[l.Offset(b)..l.Offset(b) + l.Size(b)]
    requires forall b: nat | b < l.blocks :: |ec[b]| == l.EcCount() && Multiple(Generator(l.EcCount()), dc[b] + ec[b])
    requires maxData == if l.ShortBlocks() < l.blocks then l.Short() + 1 else l.Short()
    requires DataPlaced(l, half, dc, maxData, 0) && codewords[..l.DataTotal()] == half[..l.DataTotal()]
    requires ParityPlaced(l, codewords, ec, l.EcCount(), 0)
    ensures l.Deinterleave(codewords, l.blocks) == payload
    ensures l.BlocksAreCodewords(codewords)
  {
    hide Generator, Multiple;
    forall b: nat | b < l.blocks
      ensures l.DataBlock(codewords, b) == dc[b] && l.ParityBlock(codewords, b) == ec[b]
    {
      forall k | 0 <= k < l.Size(b) ensures l.DataBlock(codewords, b)[k] == dc[b][k] {
        l.SlotsInRange(k, b);
        assert codewords[..l.DataTotal()][l.DataSlot(k, b)] == half[..l.DataTotal()][l.DataSlot(k, b)];
      }
      forall k | 0 <= k < l.EcCount() ensures l.ParityBlock(codewords, b)[k] == ec[b][k] {
        l.SlotsInRange(k, b);
      }
    }
    l.DeinterleaveIs(codewords, payload, l.blocks);
    l.Counts();
  }

  // ---------------------------------------------------------------- the contract leaves no freedom

  /** Every slot below `total` holds a data byte or a parity byte of some block. */
  lemma SlotIsUsed(l: Layout, k: nat) returns (i: nat, b: nat)
    requires l.Valid() && k < l.total
    ensures b < l.blocks
    ensures k < l.DataTotal() ==> i < l.Size(b) && k == l.DataSlot(i, b)
    ensures k >= l.DataTotal() ==> i < l.EcCount() && k == l.EcSlot(i, b)
  {
    l.Counts();
    var s := l.Short() * l.blocks;
    if k < s {
      i, b := FullColumn(l, k);
    } else if k < l.DataTotal() {
      i, b := l.Short(), l.ShortBlocks() + (k - s);
    } else {
      i, b := ParityColumn(l, k);
    }
  }

  lemma FullColumn(l: Layout, k: nat) returns (i: nat, b: nat)
    requires l.Valid() && k < l.Short() * l.blocks
    ensures b < l.blocks && i < l.Short() && k == l.DataSlot(i, b)
  {
    Column(k, l.blocks, l.Short());
    i, b := k / l.blocks, k % l.blocks;
  }

  lemma ParityColumn(l: Layout, k: nat) returns (i: nat, b: nat)
    requires l.Valid() && l.DataTotal() <= k < l.total
    ensures b < l.blocks && i < l.EcCount() && k == l.EcSlot(i, b)
  {
    var j := k - l.DataTotal();
    assert l.ecTotal == l.EcCount() * l.blocks;
    Column(j, l.blocks, l.EcCount());
    i, b := j / l.blocks, j % l.blocks;
  }

  lemma Column(k: nat, n: nat, height: nat)
    requires n > 0 && k < height * n
    ensures k / n < height && k == k / n * n + k % n
  {
    var q := k / n;
    assert k == q * n + k % n;
    if q >= height { Layout.Scaled(height, q, n); }
  }

  lemma {:induction false} SameBlocks(l: Layout, x: seq<Byte>, y: seq<Byte>, n: nat)
    requires l.Valid() && |x| == |y| == l.total && n <= l.blocks
    requires l.Deinterleave(x, n) == l.Deinterleave(y, n)
    ensures forall b: nat | b < n :: l.DataBlock(x, b) == l.DataBlock(y, b)
    decreases n
  {
    if n > 0 {
      var u, v := l.Deinterleave(x, n), l.Deinterleave(y, n);
      var p, q := l.DataBlock(x, n - 1), l.DataBlock(y, n - 1);
      assert |p| == |q|;
      var m := |u| - |p|;
      assert l.Deinterleave(x, n - 1) == u[..m] == v[..m] == l.Deinterleave(y, n - 1);
      assert p == u[m..] == v[m..] == q;
      SameBlocks(l, x, y, n - 1);
    }
  }

  /** Two interleavings of the same payload whose blocks are codewords are equal. */
  lemma {:induction false} CodewordsDetermined(l: Layout, x: seq<Byte>, y: seq<Byte>)
    requires l.Valid() && |x| == |y| == l.total
    requires l.Deinterleave(x, l.blocks) == l.Deinterleave(y, l.blocks)
    requires l.BlocksAreCodewords(x) && l.BlocksAreCodewords(y)
    ensures x == y
  {
    SameBlocks(l, x, y, l.blocks);
    forall k | 0 <= k < l.total ensures x[k] == y[k] {
      var i, b := SlotIsUsed(l, k);
      ParityUnique(l.EcCount(), l.DataBlock(x, b), l.ParityBlock(x, b), l.ParityBlock(y, b));
      if k < l.DataTotal() {
        assert l.DataBlock(x, b)[i] == l.DataBlock(y, b)[i];
      } else {
        assert l.ParityBlock(x, b)[i] == l.ParityBlock(y, b)[i];
      }
    }
  }
}
