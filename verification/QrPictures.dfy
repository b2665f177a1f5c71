/**
  The pictures of ISO/IEC 18004:2015: what the shapes look like, where the format and version bits
  go, and in which order modules and codewords follow each other.
*/
module QrPictures {
  import opened Text
  import opened Galois
  import opened BitStream
  import opened Versions
  import opened Interleaving
  import opened TextSegment
  import opened Zigzag
  import opened FunctionPatterns
  import opened SymbolMatrix

  // ---------------------------------------------------------------- shapes

  /** A finder with its light border, section 6.3.3. */
  const FINDER: seq<string> :=
    [".........",
     ".XXXXXXX.",
     ".X.....X.",
     ".X.XXX.X.",
     ".X.XXX.X.",
     ".X.XXX.X.",
     ".X.....X.",
     ".XXXXXXX.",
     "........."]

  /** An alignment pattern, section 6.3.6. */
  const ALIGNMENT: seq<string> :=
    ["XXXXX",
     "X...X",
     "X.X.X",
     "X...X",
     "XXXXX"]

  /** A finder at (row, col) is the picture, one module up and left of it. */
  lemma FinderIsPictured(row: nat, col: nat, r: int, c: int)
    ensures Covers(Finder(row, col), r, c) <==> row - 1 <= r < row + 8 && col - 1 <= c < col + 8
    ensures Covers(Finder(row, col), r, c) ==> (Shade(Finder(row, col), r, c) <==> FINDER[r - row + 1][c - col + 1] == 'X')
  {
    if Covers(Finder(row, col), r, c) { FinderRow(r - row + 1, c - col + 1, row, col); }
  }

  lemma FinderRow(y: nat, x: nat, row: nat, col: nat)
    requires y < 9 && x < 9
    ensures Shade(Finder(row, col), row + y - 1, col + x - 1) <==> FINDER[y][x] == 'X'
  {
    if y == 0 {} else if y == 1 {} else if y == 2 {} else if y == 3 {} else if y == 4 {} else if y == 5 {} else if y == 6 {} else if y == 7 {} else {}
  }

  /** An alignment pattern around (row, col) is the picture. */
  lemma AlignmentIsPictured(row: nat, col: nat, r: int, c: int)
    ensures Covers(Alignment(row, col), r, c) <==> row - 2 <= r <= row + 2 && col - 2 <= c <= col + 2
    ensures Covers(Alignment(row, col), r, c) ==> (Shade(Alignment(row, col), r, c) <==> ALIGNMENT[r - row + 2][c - col + 2] == 'X')
  {
    if Covers(Alignment(row, col), r, c) { AlignmentRow(r - row + 2, c - col + 2, row, col); }
  }

  lemma AlignmentRow(y: nat, x: nat, row: nat, col: nat)
    requires y < 5 && x < 5
    ensures Shade(Alignment(row, col), row + y - 2, col + x - 2) <==> ALIGNMENT[y][x] == 'X'
  {
    if y == 0 {} else if y == 1 {} else if y == 2 {} else if y == 3 {} else {}
  }

  /** Exactly the alignment patterns that would touch a finder are left out. */
  lemma CornersTouchFinders(v: Version, a: nat, b: nat)
    requires a < AlignmentCount(v) && b < AlignmentCount(v)
    ensures var n, s := 4 * v + 17, Alignment(Positions(v)[a], Positions(v)[b]);
            Corner(AlignmentCount(v), a, b) <==>
              exists r, c :: Covers(s, r, c) && (Covers(Finder(0, 0), r, c) || Covers(Finder(n - 7, 0), r, c) || Covers(Finder(0, n - 7), r, c))
  {
    hide Position, Intervals;
    var n, row, col := 4 * v + 17, Positions(v)[a], Positions(v)[b];
    var s, last := Alignment(row, col), AlignmentCount(v) - 1;
    PositionEnds(v);
    if 0 < a { PositionsApart(v, 0, a); }
    if 0 < b { PositionsApart(v, 0, b); }
    if a < last { PositionsApart(v, a, last); }
    if b < last { PositionsApart(v, b, last); }
    if Corner(AlignmentCount(v), a, b) { assert Covers(s, row, col); }
  }

  // ---------------------------------------------------------------- format, version and timing

  /** Where the 15 format bits go in a grid of size n, lowest first: down column 8, then along row 8 from the right; section 7.9. */
  lemma FormatPlaces(n: nat)
    requires n >= 21
    ensures seq(15, i requires 0 <= i < 15 => FirstCopy(n, i)) ==
              [Module(0, 8), Module(1, 8), Module(2, 8), Module(3, 8), Module(4, 8), Module(5, 8), Module(7, 8), Module(8, 8),
               Module(n - 7, 8), Module(n - 6, 8), Module(n - 5, 8), Module(n - 4, 8), Module(n - 3, 8), Module(n - 2, 8), Module(n - 1, 8)]
    ensures seq(15, i requires 0 <= i < 15 => SecondCopy(n, i)) ==
              [Module(8, n - 1), Module(8, n - 2), Module(8, n - 3), Module(8, n - 4), Module(8, n - 5), Module(8, n - 6), Module(8, n - 7), Module(8, n - 8),
               Module(8, 7), Module(8, 5), Module(8, 4), Module(8, 3), Module(8, 2), Module(8, 1), Module(8, 0)]
  {
  }

  /** Where version bit k goes: three to a row beside the upper right finder, and mirrored; section 7.10. */
  lemma VersionPlaces(n: nat, k: nat)
    requires n >= 45 && k < 18
    ensures var row, col := k / 3, n - 11 + k % 3;
            && VersionCell(n, row, col) && VersionIndex(n, row, col) == k
            && VersionCell(n, col, row) && VersionIndex(n, col, row) == k
  {
  }

  /** The timing lines run along row 6 and column 6 between the finders. */
  lemma TimingPlaces(n: nat, r: int, c: int)
    ensures TimingCell(n, r, c) <==> (r == 6 && 8 <= c <= n - 9) || (c == 6 && 8 <= r <= n - 9)
  {
  }

  // ---------------------------------------------------------------- the order of modules

  /** Two-column strips are counted from the left, with the timing column left out. */
  function Strip(m: Module): nat
    requires m.col != 6
  {
    if m.col > 6 then (m.col - 1) / 2 else m.col / 2
  }

  /** `a` comes before `b`: further right by strips; in a strip, upwards and downwards in turn from the right; in a row, right before left. */
  predicate ZigzagBefore(n: nat, a: Module, b: Module)
    requires OddSize(n) && a.col != 6 && b.col != 6
  {
    || Strip(a) > Strip(b)
    || (Strip(a) == Strip(b) && (if ((n - 3) / 2 - Strip(a)) % 2 == 0 then a.row > b.row else a.row < b.row))
    || (Strip(a) == Strip(b) && a.row == b.row && a.col > b.col)
  }

  lemma StripCounts(n: nat, m: Module)
    requires OddSize(n) && OnGrid(n, m)
    ensures StripOf(n, m) == (n - 3) / 2 - Strip(m)
  {
  }

  lemma LaterIsAfter(n: nat, a: Module, b: Module)
    requires OddSize(n) && OnGrid(n, a) && OnGrid(n, b)
    requires StripOf(n, a) < StripOf(n, b) || (StripOf(n, a) == StripOf(n, b) && StepOf(n, a) < StepOf(n, b))
    ensures ZigzagBefore(n, a, b)
  {
    StripCounts(n, a);
    StripCounts(n, b);
  }

  lemma {:induction false} VisitedInOrder(n: nat, p: nat, s: nat, i: nat, j: nat)
    requires OddSize(n) && s <= n && (p < Strips(n) || (p == Strips(n) && s == 0)) && i < j < |Visited(n, p, s)|
    ensures var v := Visited(n, p, s); OnGrid(n, v[i]) && OnGrid(n, v[j]) && ZigzagBefore(n, v[i], v[j])
    decreases p, s
  {
    hide ZigzagBefore, At, StripOf, StepOf;
    if s > 0 {
      var v, a, b := Visited(n, p, s - 1), At(n, p, s - 1, 0), At(n, p, s - 1, 1);
      PlaceOfAt(n, p, s - 1, 0);
      PlaceOfAt(n, p, s - 1, 1);
      if j < |v| {
        VisitedInOrder(n, p, s - 1, i, j);
      } else if i < |v| {
        VisitedIsEarlier(n, p, s - 1);
        assert v[i] in v;
        LaterIsAfter(n, v[i], Visited(n, p, s)[j]);
      } else {
        RightFirst(n, p, s - 1);
      }
    } else {
      VisitedInOrder(n, p - 1, n, i, j);
    }
  }

  lemma RightFirst(n: nat, p: nat, s: nat)
    requires OddSize(n) && p < Strips(n) && s < n
    ensures var a, b := At(n, p, s, 0), At(n, p, s, 1); OnGrid(n, a) && OnGrid(n, b) && ZigzagBefore(n, a, b)
  {
    PlaceOfAt(n, p, s, 0);
    PlaceOfAt(n, p, s, 1);
    StripCounts(n, At(n, p, s, 0));
    StripCounts(n, At(n, p, s, 1));
  }

  /** The modules are taken in zigzag order, from the lower right corner; section 7.7.3. */
  lemma OrderIsZigzag(n: nat, i: nat, j: nat)
    requires OddSize(n) && i < j < |Order(n)|
    ensures OnGrid(n, Order(n)[i]) && OnGrid(n, Order(n)[j]) && ZigzagBefore(n, Order(n)[i], Order(n)[j])
  {
    VisitedInOrder(n, Strips(n), 0, i, j);
  }

  // ---------------------------------------------------------------- the order of codewords

  /** The blocks cut the data in order, shorter ones first, with lengths that differ by at most one, and share the parity evenly; section 7.5.1. */
  lemma BlockSizes(l: Layout, b: nat, b': nat)
    requires l.Valid() && b <= b' < l.blocks
    ensures l.Size(b) <= l.Size(b') <= l.Size(b) + 1
    ensures l.Offset(0) == 0 && l.Offset(b + 1) == l.Offset(b) + l.Size(b) && l.Offset(l.blocks) == l.DataTotal()
    ensures l.EcCount() * l.blocks == l.ecTotal
  {
    l.Counts();
    l.OffsetNext(b);
  }

  /** Codewords are taken byte by byte from the blocks in turn, all data before all parity; section 7.6. */
  lemma SlotsInOrder(l: Layout, i: nat, r: nat, i': nat, r': nat)
    requires l.Valid() && r < l.blocks && r' < l.blocks && (i < i' || (i == i' && r < r'))
    ensures i < l.Size(r) && i' < l.Size(r') ==> l.DataSlot(i, r) < l.DataSlot(i', r')
    ensures l.EcSlot(i, r) < l.EcSlot(i', r')
    ensures i < l.Size(r) ==> l.DataSlot(i, r) < l.DataTotal() <= l.EcSlot(i', r')
  {
    l.SlotsInRange(i, r);
    l.Counts();
    if i < i' {
      Layout.NextMultiple(i, l.blocks);
      Layout.Scaled(i + 1, i', l.blocks);
      if i' == l.Short() { Layout.Scaled(i + 1, l.Short(), l.blocks); }
    }
  }

  // ---------------------------------------------------------------- the segment

  lemma PadNumerals()
    ensures Numeral(0xec, 8) == [true, true, true, false, true, true, false, false]
    ensures Numeral(0x11, 8) == [false, false, false, true, false, false, false, true]
  {
    hide Numeral;
    NumeralOfByte(B(true, true, true, false, true, true, false, false));
    NumeralOfByte(B(false, false, false, true, false, false, false, true));
  }

  /** The pad bytes are 11101100 and 00010001 in turn; section 7.4.10. */
  lemma PaddingAlternates(n: nat)
    ensures Padding(2 * n + 1) == Padding(2 * n) + [true, true, true, false, true, true, false, false]
    ensures Padding(2 * n + 2) == Padding(2 * n + 1) + [false, false, false, true, false, false, false, true]
  {
    hide Numeral;
    PadNumerals();
    assert PadByte(2 * n) == 0xec && PadByte(2 * n + 1) == 0x11;
  }

  /** The segment starts with the mode 0100 and the length, in 8 bits up to version 9 and in 16 from version 10; section 7.4. */
  lemma SegmentStarts(bytes: seq<Byte>, v: Version)
    requires |bytes| <= Capacity(v) && PadCount(|bytes|, v) >= 0
    ensures var s, width := Stream(bytes, v), if v < 10 then 8 else 16;
            |s| >= 4 + width && s[..4] == [false, true, false, false] && Number(s[4..4 + width]) == |bytes|
  {
    hide Total, EcTotal, Numeral, AllBits, Padding;
    var n, c := |bytes|, CharCountBits(v);
    var count, text := Numeral(n, c), AllBits(bytes);
    var rest := [false, false, false, false] + Padding(PadCount(n, v));
    assert Stream(bytes, v) == MODE_BYTE + (count + (text + rest));
    assert Stream(bytes, v)[4..4 + c] == count;
    NumberOfNumeral(n, c);
    CountFits(n, v);
  }
}
