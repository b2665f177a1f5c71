/** Masking and format information around the data placement, and the whole symbol. */
module SymbolMatrix {
  import opened MaskTiles
  import opened Galois
  import opened BitStream
  import opened Zigzag
  import opened Grid
  import opened DataPlacement

  // ---------------------------------------------------------------- format information

  function FirstCopy(n: nat, i: nat): Module
    requires n >= 21 && i < 15
  {
    if i < 6 then Module(i, 8) else if i < 8 then Module(i + 1, 8) else Module(n - 15 + i, 8)
  }

  function SecondCopy(n: nat, i: nat): Module
    requires n >= 21 && i < 15
  {
    if i < 8 then Module(8, n - i - 1) else if i < 9 then Module(8, 15 - i - 1 + 1) else Module(8, 15 - i - 1)
  }

  /** The modules `placeFormat` writes: both copies and the fixed dark module. */
  predicate FormatCell(n: nat, m: Module)
  {
    || (m.col == 8 && ((m.row <= 8 && m.row != 6) || m.row >= n - 8))
    || (m.row == 8 && ((m.col <= 8 && m.col != 6) || m.col >= n - 8))
  }

  /** The writes for the first i bits. */
  ghost predicate FormatPlaced(n: nat, i: nat, bits: seq<bool>, dark0: seq<bool>, dark: seq<bool>, reserved0: seq<bool>, reserved: seq<bool>)
    requires n >= 21 && i <= 15 && |bits| == 15 && |dark0| == |dark| == |reserved0| == |reserved| == n * n
  {
    && (forall k: nat | k < i ::
          && Cell(dark, n, FirstCopy(n, k).row, FirstCopy(n, k).col) == bits[k]
          && Cell(dark, n, SecondCopy(n, k).row, SecondCopy(n, k).col) == bits[k]
          && Cell(reserved, n, FirstCopy(n, k).row, FirstCopy(n, k).col)
          && Cell(reserved, n, SecondCopy(n, k).row, SecondCopy(n, k).col))
    && (forall r: nat, c: nat | r < n && c < n ::
          && (Cell(reserved0, n, r, c) ==> Cell(reserved, n, r, c))
          && (!FormatCell(n, Module(r, c)) ==>
                Cell(dark, n, r, c) == Cell(dark0, n, r, c) && Cell(reserved, n, r, c) == Cell(reserved0, n, r, c)))
  }

  /** `placeFormat`, for the 15 format bits of a mask, lowest bit first. */
  method PlaceFormat(matrix: Matrix, bits: seq<bool>)
    requires matrix.Valid() && matrix.size >= 21 && |bits| == 15
    modifies matrix.dark, matrix.reserved
    ensures FormatPlaced(matrix.size, 15, bits, old(matrix.dark[..]), matrix.dark[..], old(matrix.reserved[..]), matrix.reserved[..])
    ensures Cell(matrix.dark[..], matrix.size, matrix.size - 8, 8)
    ensures forall r: nat, c: nat | r < matrix.size && c < matrix.size && FormatCell(matrix.size, Module(r, c)) ::
              Cell(matrix.reserved[..], matrix.size, r, c)
  {
    hide Cell, FormatPlaced;
    var n := matrix.size;
    ghost var dark0, reserved0 := matrix.dark[..], matrix.reserved[..];
    FormatStart(n, bits, dark0, reserved0);
    for i := 0 to 15
      invariant FormatPlaced(n, i, bits, dark0, matrix.dark[..], reserved0, matrix.reserved[..])
    {
      var on := bits[i];
      ghost var dark1, reserved1 := matrix.dark[..], matrix.reserved[..];
      if i < 6 { matrix.SetModule(i, 8, on, true); }
      else if i < 8 { matrix.SetModule(i + 1, 8, on, true); }
      else { matrix.SetModule(n - 15 + i, 8, on, true); }
      ghost var dark2, reserved2 := matrix.dark[..], matrix.reserved[..];
      if i < 8 { matrix.SetModule(8, n - i - 1, on, true); }
      else if i < 9 { matrix.SetModule(8, 15 - i - 1 + 1, on, true); }
      else { matrix.SetModule(8, 15 - i - 1, on, true); }
      FormatStep(n, i, bits, dark0, dark1, dark2, matrix.dark[..], reserved0, reserved1, reserved2, matrix.reserved[..]);
    }
    ghost var dark1, reserved1 := matrix.dark[..], matrix.reserved[..];
    matrix.SetModule(n - 8, 8, true, true);
    FormatEnd(n, bits, dark0, dark1, matrix.dark[..], reserved0, reserved1, matrix.reserved[..]);
  }

  lemma FormatStart(n: nat, bits: seq<bool>, dark: seq<bool>, reserved: seq<bool>)
    requires n >= 21 && |bits| == 15 && |dark| == |reserved| == n * n
    ensures FormatPlaced(n, 0, bits, dark, dark, reserved, reserved)
  {
  }

  lemma FormatStep(n: nat, i: nat, bits: seq<bool>, dark0: seq<bool>, dark1: seq<bool>, dark2: seq<bool>, dark3: seq<bool>,
                   reserved0: seq<bool>, reserved1: seq<bool>, reserved2: seq<bool>, reserved3: seq<bool>)
    requires n >= 21 && i < 15 && |bits| == 15
    requires |dark0| == |dark1| == |dark2| == |dark3| == |reserved0| == |reserved1| == |reserved2| == |reserved3| == n * n
    requires FormatPlaced(n, i, bits, dark0, dark1, reserved0, reserved1)
    requires Updated(dark1, dark2, n, FirstCopy(n, i).row, FirstCopy(n, i).col, bits[i])
    requires Updated(reserved1, reserved2, n, FirstCopy(n, i).row, FirstCopy(n, i).col, true)
    requires Updated(dark2, dark3, n, SecondCopy(n, i).row, SecondCopy(n, i).col, bits[i])
    requires Updated(reserved2, reserved3, n, SecondCopy(n, i).row, SecondCopy(n, i).col, true)
    ensures FormatPlaced(n, i + 1, bits, dark0, dark3, reserved0, reserved3)
  {
    hide Cell;
  }

  lemma FormatEnd(n: nat, bits: seq<bool>, dark0: seq<bool>, dark1: seq<bool>, dark2: seq<bool>,
                  reserved0: seq<bool>, reserved1: seq<bool>, reserved2: seq<bool>)
    requires n >= 21 && |bits| == 15 && |dark0| == |dark1| == |dark2| == |reserved0| == |reserved1| == |reserved2| == n * n
    requires FormatPlaced(n, 15, bits, dark0, dark1, reserved0, reserved1)
    requires Updated(dark1, dark2, n, n - 8, 8, true) && Updated(reserved1, reserved2, n, n - 8, 8, true)
    ensures FormatPlaced(n, 15, bits, dark0, dark2, reserved0, reserved2)
    ensures Cell(dark2, n, n - 8, 8)
    ensures forall r: nat, c: nat | r < n && c < n && FormatCell(n, Module(r, c)) :: Cell(reserved2, n, r, c)
  {
    hide Cell;
    FormatCellsAreCopies(n);
  }

  lemma FormatCellsAreCopies(n: nat)
    requires n >= 21
    ensures forall m: Module | FormatCell(n, m) && m.row < n && m.col < n && m != Module(n - 8, 8) ::
              exists i: nat :: i < 15 && (m == FirstCopy(n, i) || m == SecondCopy(n, i))
  {
    forall m: Module | FormatCell(n, m) && m.row < n && m.col < n && m != Module(n - 8, 8)
      ensures exists i: nat :: i < 15 && (m == FirstCopy(n, i) || m == SecondCopy(n, i))
    {
      var i := if m.col == 8 then (if m.row < 6 then m.row else if m.row <= 8 then m.row - 1 else m.row - n + 15)
               else (if m.col >= n - 8 then n - 1 - m.col else if m.col == 7 then 8 else 14 - m.col);
      assert m == FirstCopy(n, i) || m == SecondCopy(n, i);
    }
  }

  // ---------------------------------------------------------------- masking

  lemma CellAt(cells: seq<bool>, n: nat, r: nat, c: nat)
    requires |cells| == n * n && r < n && c < n
    ensures Idx(n, r, c) < |cells| && Cell(cells, n, r, c) == cells[Idx(n, r, c)]
  {
    IdxInRange(n, r, c);
  }

  /** Exactly the unreserved modules under the mask differ. */
  ghost predicate Masked(n: nat, before: seq<bool>, after: seq<bool>, reserved: seq<bool>, mask: int)
    requires |before| == |after| == |reserved| == n * n
  {
    forall r: nat, c: nat | r < n && c < n ::
      Cell(after, n, r, c) == (Cell(before, n, r, c) != (!Cell(reserved, n, r, c) && Flips(mask, r, c)))
  }

  /** The masking loop: unreserved modules under the mask are flipped, nothing else changes. */
  method ApplyMask(matrix: Matrix, mask: int)
    requires matrix.Valid()
    modifies matrix.dark
    ensures Masked(matrix.size, old(matrix.dark[..]), matrix.dark[..], matrix.reserved[..], mask)
  {
    hide Cell, Flips, MaskAt;
    var n := matrix.size;
    ghost var before := matrix.dark[..];
    for r := 0 to n
      invariant forall i: nat, j: nat | i < n && j < n ::
                  Cell(matrix.dark[..], n, i, j) ==
                  (Cell(before, n, i, j) != (i < r && !Cell(matrix.reserved[..], n, i, j) && Flips(mask, i, j)))
    {
      for c := 0 to n
        invariant forall i: nat, j: nat | i < n && j < n ::
                    Cell(matrix.dark[..], n, i, j) ==
                    (Cell(before, n, i, j) != ((i < r || (i == r && j < c)) && !Cell(matrix.reserved[..], n, i, j) && Flips(mask, i, j)))
      {
        if matrix.IsReserved(r, c) { continue; }
        MaskIsTiled(mask, r, c);
        if MaskAt(mask, r, c) {
          UpdateCell(matrix.dark[..], n, r, c, !matrix.IsDark(r, c));
          var i := Idx(n, r, c);
          CellAt(matrix.dark[..], n, r, c);
          matrix.dark[i] := !matrix.dark[i];
        }
      }
    }
  }
}

/** The whole encoder: from the bytes of a text to the module grid, and back again by a reader. */
module QrSymbol {
  import opened Arithmetic
  import opened Text
  import opened Galois
  import opened BitStream
  import opened Versions
  import opened ReedSolomon
  import opened TextSegment
  import opened Zigzag
  import opened Grid
  import opened DataPlacement
  import opened SymbolMatrix
  import opened MaskTiles
  import opened FunctionPatterns
  import opened PatternShades
  import opened ModuleCount
  import Interleaving

  /** Unmask the free modules in zigzag order. */
  function ReadBits(n: nat, dark: seq<bool>, reserved: seq<bool>, mask: int): (s: seq<bool>)
    requires OddSize(n) && |dark| == |reserved| == n * n
  {
    var free := FreeModules(n, reserved);
    seq(|free|, k requires 0 <= k < |free| => Cell(dark, n, free[k].row, free[k].col) != Flips(mask, free[k].row, free[k].col))
  }

  /** The free modules of the whole grid in zigzag order. */
  function FreeModules(n: nat, reserved: seq<bool>): (f: seq<Module>)
    requires OddSize(n) && |reserved| == n * n
    ensures forall k | 0 <= k < |f| :: f[k].row < n && f[k].col < n
  {
    OrderIsExact(n);
    FreeIsSubset(n, Order(n), reserved);
    var f := Free(n, Order(n), reserved);
    assert forall k | 0 <= k < |f| :: f[k] in f;
    f
  }

  /** With column 6 reserved, the free modules are exactly the unreserved ones, each listed once. */
  lemma {:induction false} FreeModulesAreExact(n: nat, reserved: seq<bool>)
    requires OddSize(n) && |reserved| == n * n
    requires forall r: nat | r < n :: Cell(reserved, n, r, 6)
    ensures forall m: Module | m.row < n && m.col < n :: m in FreeModules(n, reserved) <==> !Cell(reserved, n, m.row, m.col)
    ensures forall i, j | 0 <= i < j < |FreeModules(n, reserved)| :: FreeModules(n, reserved)[i] != FreeModules(n, reserved)[j]
  {
    hide Cell, Order;
    OrderIsExact(n);
    FreeIsSubset(n, Order(n), reserved);
    FreeIsDistinct(n, Order(n), reserved);
  }

  /** A module of some fixed pattern, format or version field of a version's grid. */
  ghost predicate PatternCell(v: Version, r: nat, c: nat)
  {
    || PatternModule(v, r, c) || TimingCell(SymbolSize(v), r, c) || FormatCell(SymbolSize(v), Module(r, c))
    || (v >= 7 && VersionCell(SymbolSize(v), r, c))
  }

  /** The same for the module stored at an index. */
  ghost predicate PatternAt(v: Version, i: nat)
  {
    PatternCell(v, RowOf(i, SymbolSize(v)), ColOf(i, SymbolSize(v)))
  }

  function RowOf(i: nat, n: nat): nat
    requires n > 0
  {
    i / n
  }

  function ColOf(i: nat, n: nat): nat
    requires n > 0
  {
    i % n
  }

  /** The modules that carry no data, as anyone can tell from the version. */
  ghost function ReservedMap(v: Version): (s: seq<bool>)
    ensures |s| == SymbolSize(v) * SymbolSize(v)
  {
    seq(SymbolSize(v) * SymbolSize(v), i requires 0 <= i => PatternAt(v, i))
  }

  /** A reader who knows the version and the mask: collect the codewords and decode them. */
  ghost function ReadSymbol(dark: seq<bool>, mask: int, v: Version): Option<seq<Byte>>
    requires |dark| == SymbolSize(v) * SymbolSize(v)
  {
    var s := ReadBits(SymbolSize(v), dark, ReservedMap(v), mask);
    if |s| < 8 * Total(v) then None else CodewordsOf(s, v)
  }

  ghost function CodewordsOf(s: seq<bool>, v: Version): Option<seq<Byte>>
    requires |s| >= 8 * Total(v)
  {
    PackLength(s[..8 * Total(v)]);
    Decode(Pack(s[..8 * Total(v)]), v)
  }

  lemma {:induction false} PackLength(s: seq<bool>)
    requires |s| % 8 == 0
    ensures |Pack(s)| == |s| / 8
    decreases |s|
  {
    if s != [] { PackLength(s[8..]); }
  }

  /** `symbolSize`. */
  function SymbolSize(v: Version): (n: nat)
    ensures n >= 21 && OddSize(n)
  {
    4 * v + 17
  }

  /** The first n bits of the codewords, then zeros. */
  function DataBits(data: seq<Byte>, n: nat): (s: seq<bool>)
    ensures |s| == n && forall k | 0 <= k < n :: s[k] == DataBit(data, k)
  {
    seq(n, k requires 0 <= k < n => DataBit(data, k))
  }

  ghost predicate SameFree(n: nat, before: seq<bool>, after: seq<bool>, reserved: seq<bool>)
    requires |before| == |after| == |reserved| == n * n
  {
    forall r: nat, c: nat | r < n && c < n && !Cell(reserved, n, r, c) :: Cell(after, n, r, c) == Cell(before, n, r, c)
  }

  ghost predicate PlacedAll(n: nat, reserved: seq<bool>, before: seq<bool>, after: seq<bool>, data: seq<Byte>)
    requires OddSize(n) && |reserved| == |before| == |after| == n * n
  {
    (forall m | m in Order(n) :: m.row < n && m.col < n) && Placed(n, Order(n), reserved, before, after, data)
  }

  /** Placement, then masking, then rewriting reserved modules: the reader sees the data bits and then zeros. */
  lemma {:induction false} ReadBack(n: nat, reserved: seq<bool>, dark0: seq<bool>, dark1: seq<bool>, dark2: seq<bool>, dark3: seq<bool>, mask: int, data: seq<Byte>)
    requires OddSize(n) && |reserved| == |dark0| == |dark1| == |dark2| == |dark3| == n * n
    requires PlacedAll(n, reserved, dark0, dark1, data)
    requires Masked(n, dark1, dark2, reserved, mask)
    requires SameFree(n, dark2, dark3, reserved)
    ensures ReadBits(n, dark3, reserved, mask) == DataBits(data, |FreeModules(n, reserved)|)
  {
    hide Cell, Flips, Order, DataBit;
    var free := FreeModules(n, reserved);
    FreeIsSubset(n, Order(n), reserved);
    forall k | 0 <= k < |free|
      ensures (Cell(dark3, n, free[k].row, free[k].col) != Flips(mask, free[k].row, free[k].col)) == DataBit(data, k)
    {
      assert free[k] in free;
    }
  }

  /** The leading data bits are the codewords. */
  lemma ReadCodewords(data: seq<Byte>, n: nat)
    requires n >= 8 * |data|
    ensures DataBits(data, n)[..8 * |data|] == AllBits(data)
  {
    hide Bit, AllBits;
    forall k | 0 <= k < 8 * |data| ensures DataBit(data, k) == AllBits(data)[k] {
      AllBitsAt(data, k);
    }
  }

  /** Exactly the modules of the patterns are reserved. */
  ghost predicate ReservesPatterns(v: Version, reserved: seq<bool>)
    requires |reserved| == SymbolSize(v) * SymbolSize(v)
  {
    forall r: nat, c: nat | r < SymbolSize(v) && c < SymbolSize(v) :: Cell(reserved, SymbolSize(v), r, c) <==> PatternCell(v, r, c)
  }

  lemma MapCell(v: Version, r: nat, c: nat)
    requires r < SymbolSize(v) && c < SymbolSize(v)
    ensures Cell(ReservedMap(v), SymbolSize(v), r, c) <==> PatternCell(v, r, c)
  {
    hide PatternCell;
    var n := SymbolSize(v);
    IdxInRange(n, r, c);
    RowAndColumn(n, r, c);
  }

  lemma RowAndColumn(n: nat, r: nat, c: nat)
    requires c < n
    ensures (r * n + c) / n == r && (r * n + c) % n == c
  {
    Quotients(r * n + c, n, r, c);
  }

  /** So the reserved modules are the reader's. */
  lemma ReservedIsMap(v: Version, reserved: seq<bool>)
    requires |reserved| == SymbolSize(v) * SymbolSize(v) && ReservesPatterns(v, reserved)
    ensures reserved == ReservedMap(v)
  {
    hide Cell, PatternCell, ReservedMap;
    forall r: nat, c: nat | r < SymbolSize(v) && c < SymbolSize(v)
      ensures Cell(reserved, SymbolSize(v), r, c) == Cell(ReservedMap(v), SymbolSize(v), r, c)
    {
      MapCell(v, r, c);
    }
    CellsDetermine(SymbolSize(v), reserved, ReservedMap(v));
  }

  lemma WholeFinder(n: nat, row: nat, col: nat, dark0: seq<bool>, dark: seq<bool>, reserved0: seq<bool>, reserved: seq<bool>)
    requires |dark0| == |dark| == |reserved0| == |reserved| == n * n && Drawn(n, Finder(row, col), dark0, dark, reserved0, reserved)
    ensures forall r: nat, c: nat | r < n && c < n ::
              Cell(reserved, n, r, c) <==> Covers(Finder(row, col), r, c) || Cell(reserved0, n, r, c)
  {
    hide Cell, Shade;
    forall r: nat, c: nat | r < n && c < n ensures Cell(reserved, n, r, c) <==> Covers(Finder(row, col), r, c) || Cell(reserved0, n, r, c) {
      WholeShape(Finder(row, col), r, c);
    }
  }

  lemma WholeTiming(n: nat, dark0: seq<bool>, dark: seq<bool>, reserved0: seq<bool>, reserved: seq<bool>)
    requires n >= 21 && |dark0| == |dark| == |reserved0| == |reserved| == n * n && Timed(n, n - 8, dark0, dark, reserved0, reserved)
    ensures forall r: nat, c: nat | r < n && c < n :: Cell(reserved, n, r, c) <==> TimingCell(n, r, c) || Cell(reserved0, n, r, c)
  {
    hide Cell;
  }

  lemma AlignedMeans(coords: seq<nat>, r: nat, c: nat)
    ensures Aligned(coords, |coords|, 0, r, c, true) || Aligned(coords, |coords|, 0, r, c, false) <==>
              exists a: nat, b: nat :: a < |coords| && b < |coords| && !Corner(|coords|, a, b) && Covers(Alignment(coords[a], coords[b]), r, c)
  {
    hide Covers, Shade, Corner;
    if a: nat, b: nat :| a < |coords| && b < |coords| && !Corner(|coords|, a, b) && Covers(Alignment(coords[a], coords[b]), r, c) {
      assert Aligned(coords, |coords|, 0, r, c, Shade(Alignment(coords[a], coords[b]), r, c));
    }
  }

  /** The module of an alignment pattern, off the corners. */
  ghost predicate AlignmentModule(v: Version, r: nat, c: nat)
  {
    exists a: nat, b: nat :: a < AlignmentCount(v) && b < AlignmentCount(v) && !Corner(AlignmentCount(v), a, b)
                             && Covers(Alignment(Positions(v)[a], Positions(v)[b]), r, c)
  }

  lemma WholeAlignment(v: Version, n: nat, dark0: seq<bool>, dark: seq<bool>, reserved0: seq<bool>, reserved: seq<bool>)
    requires |dark0| == |dark| == |reserved0| == |reserved| == n * n
    requires AlignedSoFar(n, Positions(v), AlignmentCount(v), 0, dark0, dark, reserved0, reserved)
    ensures forall r: nat, c: nat | r < n && c < n :: Cell(reserved, n, r, c) <==> AlignmentModule(v, r, c) || Cell(reserved0, n, r, c)
  {
    hide Cell, Aligned, Covers, Corner, Positions;
    forall r: nat, c: nat | r < n && c < n ensures Cell(reserved, n, r, c) <==> AlignmentModule(v, r, c) || Cell(reserved0, n, r, c) {
      AlignedMeans(Positions(v), r, c);
    }
  }

  lemma WholeVersion(n: nat, bits: seq<bool>, dark0: seq<bool>, dark: seq<bool>, reserved0: seq<bool>, reserved: seq<bool>)
    requires n >= 21 && |bits| == 18 && |dark0| == |dark| == |reserved0| == |reserved| == n * n
    requires Versioned(n, 18, bits, dark0, dark, reserved0, reserved)
    ensures forall r: nat, c: nat | r < n && c < n :: Cell(reserved, n, r, c) <==> VersionCell(n, r, c) || Cell(reserved0, n, r, c)
  {
    hide Cell;
  }

  lemma WholeFormat(n: nat, bits: seq<bool>, dark0: seq<bool>, dark: seq<bool>, reserved0: seq<bool>, reserved: seq<bool>)
    requires n >= 21 && |bits| == 15 && |dark0| == |dark| == |reserved0| == |reserved| == n * n
    requires FormatPlaced(n, 15, bits, dark0, dark, reserved0, reserved)
    requires forall r: nat, c: nat | r < n && c < n && FormatCell(n, Module(r, c)) :: Cell(reserved, n, r, c)
    ensures forall r: nat, c: nat | r < n && c < n :: Cell(reserved, n, r, c) <==> FormatCell(n, Module(r, c)) || Cell(reserved0, n, r, c)
  {
    hide Cell;
  }

  lemma NothingReserved(n: nat, reserved: seq<bool>)
    requires |reserved| == n * n && forall i | 0 <= i < n * n :: !reserved[i]
    ensures forall r: nat, c: nat | r < n && c < n :: !Cell(reserved, n, r, c)
  {
    hide Idx;
    forall r: nat, c: nat | r < n && c < n ensures !Cell(reserved, n, r, c) {
      IdxInRange(n, r, c);
    }
  }

  /**
    The finders, timing lines, alignment patterns, format and version information, on an empty grid:
    exactly their modules are reserved, and every one of them shows its pattern.
  */
  method DrawFunctionPatterns(matrix: Matrix, version: Version, formatBits: seq<bool>, versionBits: seq<bool>)
    requires matrix.Valid() && matrix.size == SymbolSize(version) && |formatBits| == 15 && |versionBits| == 18
    requires forall i | 0 <= i < matrix.size * matrix.size :: !matrix.reserved[i]
    modifies matrix.dark, matrix.reserved
    ensures ReservesPatterns(version, matrix.reserved[..])
    ensures PatternsShown(version, matrix.size, formatBits, versionBits, matrix.dark[..])
  {
    hide Cell, Drawn, Timed, AlignedSoFar, Versioned, FormatPlaced, Aligned, Covers, TimingCell, VersionCell, FormatCell, Positions;
    hide FindersShown, TimingShown, AlignmentsShown, FormatShown, VersionShown, ReservesPatterns, PatternsShown;
    var n := matrix.size;
    ghost var d0, r0 := matrix.dark[..], matrix.reserved[..];
    DrawFinder(matrix, 0, 0);
    ghost var d1, r1 := matrix.dark[..], matrix.reserved[..];
    DrawFinder(matrix, n - 7, 0);
    ghost var d2, r2 := matrix.dark[..], matrix.reserved[..];
    DrawFinder(matrix, 0, n - 7);
    ghost var d3, r3 := matrix.dark[..], matrix.reserved[..];
    FinderStages(n, d0, d1, d2, d3, r0, r1, r2, r3);
    FinderReserves(n, d0, d1, d2, d3, r0, r1, r2, r3);
    DrawTiming(matrix);
    ghost var d4, r4 := matrix.dark[..], matrix.reserved[..];
    TimingStage(n, d3, d4, r3, r4);
    WholeTiming(n, d3, d4, r3, r4);
    var coords := AlignmentCoords(version);
    DrawAlignment(matrix, coords);
    ghost var d5, r5 := matrix.dark[..], matrix.reserved[..];
    AlignmentStage(version, n, d4, d5, r4, r5);
    WholeAlignment(version, n, d4, d5, r4, r5);
    PlaceFormat(matrix, formatBits);
    ghost var d6, r6 := matrix.dark[..], matrix.reserved[..];
    FormatStage(version, n, formatBits, d5, d6, r5, r6);
    WholeFormat(n, formatBits, d5, d6, r5, r6);
    if version >= 7 {
      DrawVersion(matrix, versionBits);
      WholeVersion(n, versionBits, d6, matrix.dark[..], r6, matrix.reserved[..]);
      LastStage(version, n, formatBits, versionBits, d6, matrix.dark[..], r6, matrix.reserved[..]);
    }
    ReservedInTheEnd(version, n, r3, r4, r5, r6, matrix.reserved[..]);
    ShownInTheEnd(version, n, formatBits, versionBits, matrix.dark[..]);
  }

  predicate FinderCell(n: nat, r: nat, c: nat)
    requires n >= 21
  {
    Covers(Finder(0, 0), r, c) || Covers(Finder(n - 7, 0), r, c) || Covers(Finder(0, n - 7), r, c)
  }

  lemma FinderReserves(n: nat, d0: seq<bool>, d1: seq<bool>, d2: seq<bool>, d3: seq<bool>,
                       r0: seq<bool>, r1: seq<bool>, r2: seq<bool>, r3: seq<bool>)
    requires n >= 21 && |d0| == |d1| == |d2| == |d3| == |r0| == |r1| == |r2| == |r3| == n * n
    requires Drawn(n, Finder(0, 0), d0, d1, r0, r1) && Drawn(n, Finder(n - 7, 0), d1, d2, r1, r2) && Drawn(n, Finder(0, n - 7), d2, d3, r2, r3)
    requires forall i | 0 <= i < n * n :: !r0[i]
    ensures forall r: nat, c: nat | r < n && c < n :: Cell(r3, n, r, c) <==> FinderCell(n, r, c)
  {
    hide Cell, Drawn, Covers;
    NothingReserved(n, r0);
    WholeFinder(n, 0, 0, d0, d1, r0, r1);
    WholeFinder(n, n - 7, 0, d1, d2, r1, r2);
    WholeFinder(n, 0, n - 7, d2, d3, r2, r3);
  }

  lemma FormatStage(v: Version, n: nat, bits: seq<bool>, dark0: seq<bool>, dark: seq<bool>, reserved0: seq<bool>, reserved: seq<bool>)
    requires n == SymbolSize(v) && |bits| == 15 && |dark0| == |dark| == |reserved0| == |reserved| == n * n
    requires FindersShown(n, dark0) && TimingShown(n, dark0) && AlignmentsShown(v, n, dark0)
    requires FormatPlaced(n, 15, bits, dark0, dark, reserved0, reserved) && Cell(dark, n, n - 8, 8)
    ensures FindersShown(n, dark) && TimingShown(n, dark) && AlignmentsShown(v, n, dark) && FormatShown(n, bits, dark)
  {
    hide Cell, FindersShown, TimingShown, AlignmentsShown, PatternModule, TimingCell, FormatCell, VersionCell;
    FormatAppears(n, bits, dark0, dark, reserved0, reserved);
    PatternsKept(v, n, dark0, dark);
  }

  lemma LastStage(v: Version, n: nat, formatBits: seq<bool>, versionBits: seq<bool>, dark0: seq<bool>, dark: seq<bool>, reserved0: seq<bool>, reserved: seq<bool>)
    requires n == SymbolSize(v) && |formatBits| == 15 && |versionBits| == 18 && |dark0| == |dark| == |reserved0| == |reserved| == n * n
    requires FindersShown(n, dark0) && TimingShown(n, dark0) && AlignmentsShown(v, n, dark0) && FormatShown(n, formatBits, dark0)
    requires Versioned(n, 18, versionBits, dark0, dark, reserved0, reserved)
    ensures FindersShown(n, dark) && TimingShown(n, dark) && AlignmentsShown(v, n, dark) && FormatShown(n, formatBits, dark)
    ensures VersionShown(n, versionBits, dark)
  {
    hide Cell, FindersShown, TimingShown, AlignmentsShown, PatternModule, TimingCell, FormatCell, VersionCell;
    VersionStage(n, formatBits, versionBits, dark0, dark, reserved0, reserved);
    PatternsKept(v, n, dark0, dark);
  }

  lemma ReservedInTheEnd(v: Version, n: nat, r3: seq<bool>, r4: seq<bool>, r5: seq<bool>, r6: seq<bool>, r7: seq<bool>)
    requires n == SymbolSize(v) && |r3| == |r4| == |r5| == |r6| == |r7| == n * n
    requires forall r: nat, c: nat | r < n && c < n :: Cell(r3, n, r, c) <==> FinderCell(n, r, c)
    requires forall r: nat, c: nat | r < n && c < n :: Cell(r4, n, r, c) <==> TimingCell(n, r, c) || Cell(r3, n, r, c)
    requires forall r: nat, c: nat | r < n && c < n :: Cell(r5, n, r, c) <==> AlignmentModule(v, r, c) || Cell(r4, n, r, c)
    requires forall r: nat, c: nat | r < n && c < n :: Cell(r6, n, r, c) <==> FormatCell(n, Module(r, c)) || Cell(r5, n, r, c)
    requires if v >= 7 then forall r: nat, c: nat | r < n && c < n :: Cell(r7, n, r, c) <==> VersionCell(n, r, c) || Cell(r6, n, r, c) else r7 == r6
    ensures ReservesPatterns(v, r7)
  {
    hide Cell, Covers, TimingCell, FormatCell, VersionCell, Positions, Corner;
  }

  lemma ShownInTheEnd(v: Version, n: nat, formatBits: seq<bool>, versionBits: seq<bool>, dark: seq<bool>)
    requires n == SymbolSize(v) && |formatBits| == 15 && |versionBits| == 18 && |dark| == n * n
    requires FindersShown(n, dark) && TimingShown(n, dark) && AlignmentsShown(v, n, dark) && FormatShown(n, formatBits, dark)
    requires v >= 7 ==> VersionShown(n, versionBits, dark)
    ensures PatternsShown(v, n, formatBits, versionBits, dark)
  {
  }

  // ---------------------------------------------------------------- counting the free modules

  lemma InFinders(n: nat, m: Module)
    requires n >= 21 && m.row < n && m.col < n
    requires Covers(Finder(0, 0), m.row, m.col) || Covers(Finder(n - 7, 0), m.row, m.col) || Covers(Finder(0, n - 7), m.row, m.col)
    ensures m in FinderSet(n)
  {
    hide Rect;
    InRect(0, 8, 0, 8, m);
    InRect(n - 8, 8, 0, 8, m);
    InRect(0, 8, n - 8, 8, m);
  }

  lemma InTiming(n: nat, m: Module)
    requires n >= 21 && TimingCell(n, m.row, m.col)
    ensures m in TimingSet(n)
  {
    hide Rect;
    InRect(6, 1, 8, n - 16, m);
    InRect(8, n - 16, 6, 1, m);
  }

  lemma InFormat(n: nat, m: Module)
    requires n >= 21 && m.row < n && m.col < n && FormatCell(n, m)
    ensures m in FormatSet(n)
  {
    hide Rect;
    InRect(0, 6, 8, 1, m);
    InRect(7, 2, 8, 1, m);
    InRect(n - 8, 8, 8, 1, m);
    InRect(8, 1, 0, 6, m);
    InRect(8, 1, 7, 1, m);
    InRect(8, 1, n - 8, 8, m);
  }

  lemma InVersion(n: nat, m: Module)
    requires n >= 21 && VersionCell(n, m.row, m.col)
    ensures m in VersionSet(n)
  {
    hide Rect;
    InRect(0, 6, n - 11, 3, m);
    InRect(n - 11, 3, 0, 6, m);
  }

  lemma LinesAreDrawn(n: nat, r: nat, c: nat)
    requires n >= 21 && r < n && c < n && (r == 6 || c == 6)
    ensures Covers(Finder(0, 0), r, c) || Covers(Finder(n - 7, 0), r, c) || Covers(Finder(0, n - 7), r, c) || TimingCell(n, r, c)
  {
  }

  /** A module on row 6 or column 6 belongs to a finder or a timing line. */
  lemma OnTheLines(n: nat, m: Module)
    requires n >= 21 && m.row < n && m.col < n && (m.row == 6 || m.col == 6)
    ensures m in FinderSet(n) || m in TimingSet(n)
  {
    hide Rect, FinderSet, TimingSet;
    if TimingCell(n, m.row, m.col) { InTiming(n, m); } else { InFinders(n, m); }
  }

  lemma InAlignment(v: Version, m: Module)
    requires m.row < SymbolSize(v) && m.col < SymbolSize(v) && AlignmentModule(v, m.row, m.col)
    ensures m in FinderSet(SymbolSize(v)) || m in TimingSet(SymbolSize(v)) || m in AllBlocks(Positions(v), AlignmentCount(v))
  {
    hide Rect, FinderSet, TimingSet, AllBlocks, Shade;
    var coords := Positions(v);
    if m.row == 6 || m.col == 6 {
      OnTheLines(SymbolSize(v), m);
    } else {
      var a: nat, b: nat :| a < |coords| && b < |coords| && !Corner(|coords|, a, b) && Covers(Alignment(coords[a], coords[b]), m.row, m.col);
      InRect(4, 2, Edge(coords, b), 5, m);
      InRect(7, 2, Edge(coords, b), 5, m);
      InRect(Edge(coords, a), 5, 4, 2, m);
      InRect(Edge(coords, a), 5, 7, 2, m);
      InRect(Edge(coords, a), 5, Edge(coords, b), 5, m);
      assert m in Block(coords, a, b);
      InAll(coords, |coords|, a, b, m);
    }
  }

  lemma PatternIsCovered(v: Version, m: Module)
    requires m.row < SymbolSize(v) && m.col < SymbolSize(v) && PatternCell(v, m.row, m.col)
    ensures m in Cover(v, Positions(v))
  {
    hide Rect, FinderSet, TimingSet, FormatSet, VersionSet, AllBlocks, Covers, TimingCell, FormatCell, VersionCell, Positions, Corner;
    var n := SymbolSize(v);
    if FinderCell(n, m.row, m.col) {
      InFinders(n, m);
    } else if TimingCell(n, m.row, m.col) {
      InTiming(n, m);
    } else if FormatCell(n, m) {
      InFormat(n, m);
    } else if v >= 7 && VersionCell(n, m.row, m.col) {
      InVersion(n, m);
    } else {
      InAlignment(v, m);
    }
  }

  lemma {:induction false} AsManyAsElements(s: seq<Module>)
    requires forall i, j | 0 <= i < j < |s| :: s[i] != s[j]
    ensures |set m | m in s| == |s|
  {
    if s != [] {
      var front := s[..|s| - 1];
      AsManyAsElements(front);
      assert (set m | m in s) == (set m | m in front) + {s[|s| - 1]};
    }
  }

  lemma LinesArePatterns(v: Version, r: nat)
    requires r < SymbolSize(v)
    ensures PatternCell(v, r, 6)
  {
    hide Covers, TimingCell, FormatCell, VersionCell, Positions, Corner;
    LinesAreDrawn(SymbolSize(v), r, 6);
  }

  lemma ColumnSixIsReserved(v: Version, reserved: seq<bool>)
    requires |reserved| == SymbolSize(v) * SymbolSize(v) && ReservesPatterns(v, reserved)
    ensures forall r: nat | r < SymbolSize(v) :: Cell(reserved, SymbolSize(v), r, 6)
  {
    hide Cell, PatternCell;
    forall r: nat | r < SymbolSize(v) ensures Cell(reserved, SymbolSize(v), r, 6) {
      LinesArePatterns(v, r);
    }
  }

  /** The free modules hold all codewords of the version. */
  lemma {:induction false} FreeModulesSuffice(v: Version, reserved: seq<bool>)
    requires |reserved| == SymbolSize(v) * SymbolSize(v) && ReservesPatterns(v, reserved)
    ensures 8 * Total(v) <= |FreeModules(SymbolSize(v), reserved)|
  {
    hide Cell, FreeModules, PatternCell, Cover, CoverSize, Total, Rect, Positions;
    var n := SymbolSize(v);
    var free, cover, grid := FreeModules(n, reserved), Cover(v, Positions(v)), Rect(0, n, 0, n);
    var listed := set m | m in free;
    ColumnSixIsReserved(v, reserved);
    FreeModulesAreExact(n, reserved);
    AsManyAsElements(free);
    forall m | m in grid ensures m in listed + cover {
      InRect(0, n, 0, n, m);
      if Cell(reserved, n, m.row, m.col) { PatternIsCovered(v, m); }
    }
    SubsetSize(grid, listed + cover);
    GridSize(n, n);
    CoverFits(v, Positions(v));
    EveryVersionHasRoom(v);
  }

  lemma CellsDetermine(n: nat, f: seq<bool>, g: seq<bool>)
    requires |f| == |g| == n * n && forall r: nat, c: nat | r < n && c < n :: Cell(f, n, r, c) == Cell(g, n, r, c)
    ensures f == g
  {
    forall i | 0 <= i < |f| ensures f[i] == g[i] {
      var r, c := i / n, i % n;
      assert i == r * n + c;
      if r >= n { Scaled(n, r, n); }
      assert Cell(f, n, r, c) == Cell(g, n, r, c);
    }
  }

  /** The second `placeFormat` writes reserved modules only. */
  lemma FormatKeepsFree(n: nat, bits: seq<bool>, dark0: seq<bool>, dark: seq<bool>, reserved0: seq<bool>, reserved: seq<bool>)
    requires n >= 21 && |bits| == 15 && |dark0| == |dark| == |reserved0| == |reserved| == n * n
    requires FormatPlaced(n, 15, bits, dark0, dark, reserved0, reserved)
    requires forall r: nat, c: nat | r < n && c < n && FormatCell(n, Module(r, c)) :: Cell(reserved0, n, r, c)
    ensures reserved == reserved0
    ensures SameFree(n, dark0, dark, reserved0)
  {
    hide Cell;
    CellsDetermine(n, reserved, reserved0);
  }

  /** If the free modules hold the codewords, the reader decodes them. */
  lemma SymbolReads(dark: seq<bool>, mask: int, v: Version, data: seq<Byte>, bytes: seq<Byte>)
    requires |dark| == SymbolSize(v) * SymbolSize(v) && |data| == Total(v)
    requires ReadBits(SymbolSize(v), dark, ReservedMap(v), mask) == DataBits(data, |FreeModules(SymbolSize(v), ReservedMap(v))|)
    requires Decode(data, v) == Some(bytes) && 8 * Total(v) <= |FreeModules(SymbolSize(v), ReservedMap(v))|
    ensures ReadSymbol(dark, mask, v) == Some(bytes)
  {
    hide Cell, Total, ReadBits, FreeModules, Decode, Pack, DataBit, AllBits, ReservedMap;
    ReadCodewords(data, |FreeModules(SymbolSize(v), ReservedMap(v))|);
    PackAllBits(data);
  }

  lemma PatternsAreReserved(v: Version, reserved: seq<bool>)
    requires |reserved| == SymbolSize(v) * SymbolSize(v) && ReservesPatterns(v, reserved)
    ensures forall r: nat, c: nat | r < SymbolSize(v) && c < SymbolSize(v) && FormatCell(SymbolSize(v), Module(r, c)) ::
              Cell(reserved, SymbolSize(v), r, c)
  {
    hide Cell, PatternModule, TimingCell;
  }

  datatype Outcome = Built(version: Version) | TextTooLong

  /**
    `buildMatrix`: the smallest version that holds the text; the finished symbol shows its finders,
    timing lines, alignment patterns, both copies of the format bits and of the version bits; and
    a reader who knows the version and the mask gets the bytes of the text.
  */
  method BuildMatrix(t: Tables, bytes: seq<Byte>, mask: int, formatBits: seq<bool>, versionBits: seq<bool>)
    returns (r: Outcome, matrix: Matrix)
    requires t.Ready() && |formatBits| == 15 && |versionBits| == 18
    ensures r.TextTooLong? <==> forall v: Version :: Capacity(v) < |bytes|
    ensures r.Built? ==> |bytes| <= Capacity(r.version) && forall v: Version | v < r.version :: Capacity(v) < |bytes|
    ensures r.Built? ==> matrix.Valid() && matrix.size == SymbolSize(r.version) && matrix.reserved[..] == ReservedMap(r.version)
    ensures r.Built? ==> PatternsShown(r.version, matrix.size, formatBits, versionBits, matrix.dark[..])
    ensures r.Built? ==> ReadSymbol(matrix.dark[..], mask, r.version) == Some(bytes)
  {
    hide Capacity, Cell, ReservesPatterns, PatternsShown, ReadSymbol, ReservedMap;
    var choice := PickVersion(|bytes|);
    if choice.TooLong? {
      r := TextTooLong;
      matrix := new Matrix(21);
      return;
    }
    var version := choice.version;
    r := Built(version);
    matrix := new Matrix(SymbolSize(version));
    DrawFunctionPatterns(matrix, version, formatBits, versionBits);
    FillSymbol(t, matrix, version, bytes, mask, formatBits, versionBits);
  }

  /** The rest of `buildMatrix`: the data, the mask, and the format bits of the mask once more. */
  method FillSymbol(t: Tables, matrix: Matrix, version: Version, bytes: seq<Byte>, mask: int, formatBits: seq<bool>, ghost versionBits: seq<bool>)
    requires t.Ready() && |formatBits| == 15 && |versionBits| == 18 && |bytes| <= Capacity(version)
    requires matrix.Valid() && matrix.size == SymbolSize(version) && ReservesPatterns(version, matrix.reserved[..])
    requires PatternsShown(version, matrix.size, formatBits, versionBits, matrix.dark[..])
    modifies matrix.dark, matrix.reserved
    ensures matrix.reserved[..] == ReservedMap(version)
    ensures PatternsShown(version, matrix.size, formatBits, versionBits, matrix.dark[..])
    ensures ReadSymbol(matrix.dark[..], mask, version) == Some(bytes)
  {
    hide Capacity, Cell, Total, ReservesPatterns, FormatPlaced, Order, Placed, FormatCell, Flips, ReadSymbol, Stream, ReservedMap, PatternsShown, Masked, AllBits,
      PlacedAll, OddSize, SymbolSize, LayoutOf, Interleaving.Layout.BlocksAreCodewords, Interleaving.Layout.Deinterleave, Blocks, PadCount, Tables.Ready;
    SizeIsLarge(version);
    var n := matrix.size;
    ghost var reserved, dark0 := matrix.reserved[..], matrix.dark[..];
    var data := EncodeData(t, bytes, version);
    PlaceData(matrix, data);
    ghost var dark1 := matrix.dark[..];
    DataIsPlaced(n, reserved, dark0, dark1, data);
    ApplyMask(matrix, mask);
    ghost var dark2 := matrix.dark[..];
    PlaceFormat(matrix, formatBits);
    FilledReads(version, bytes, data, mask, formatBits, dark0, dark1, dark2, matrix.dark[..], reserved, matrix.reserved[..]);
    FilledShows(version, data, mask, formatBits, versionBits, dark0, dark1, dark2, matrix.dark[..], reserved, matrix.reserved[..]);
  }

  lemma DataIsPlaced(n: nat, reserved: seq<bool>, before: seq<bool>, after: seq<bool>, data: seq<Byte>)
    requires OddSize(n) && |reserved| == |before| == |after| == n * n
    requires forall m | m in Order(n) :: m.row < n && m.col < n
    requires Placed(n, Order(n), reserved, before, after, data)
    ensures PlacedAll(n, reserved, before, after, data)
  {
    hide Placed, Order;
  }

  /** Placement, masking and the second format pass on a drawn grid: the reader gets the text. */
  lemma {:induction false} FilledReads(version: Version, bytes: seq<Byte>, data: seq<Byte>, mask: int, formatBits: seq<bool>,
                                       dark0: seq<bool>, dark1: seq<bool>, dark2: seq<bool>, dark3: seq<bool>,
                                       reserved: seq<bool>, reserved1: seq<bool>)
    requires |formatBits| == 15 && |bytes| <= Capacity(version) && PadCount(|bytes|, version) >= 0 && |data| == Total(version)
    requires AllBits(LayoutOf(version).Deinterleave(data, Blocks(version))) == Stream(bytes, version)
    requires |dark0| == |dark1| == |dark2| == |dark3| == |reserved| == |reserved1| == SymbolSize(version) * SymbolSize(version)
    requires ReservesPatterns(version, reserved)
    requires PlacedAll(SymbolSize(version), reserved, dark0, dark1, data)
    requires Masked(SymbolSize(version), dark1, dark2, reserved, mask)
    requires FormatPlaced(SymbolSize(version), 15, formatBits, dark2, dark3, reserved, reserved1)
    ensures reserved1 == reserved == ReservedMap(version)
    ensures ReadSymbol(dark3, mask, version) == Some(bytes)
  {
    hide *;
    SizeIsLarge(version);
    PatternsAreReserved(version, reserved);
    ReservedIsMap(version, reserved);
    FormatKeepsFree(SymbolSize(version), formatBits, dark2, dark3, reserved, reserved1);
    ReadBack(SymbolSize(version), reserved, dark0, dark1, dark2, dark3, mask, data);
    DecodeEncoded(data, bytes, version);
    FreeModulesSuffice(version, reserved);
    SymbolReads(dark3, mask, version, data, bytes);
  }

  /** And the patterns are as they were drawn. */
  lemma {:induction false} FilledShows(version: Version, data: seq<Byte>, mask: int, formatBits: seq<bool>, versionBits: seq<bool>,
                                       dark0: seq<bool>, dark1: seq<bool>, dark2: seq<bool>, dark3: seq<bool>,
                                       reserved: seq<bool>, reserved1: seq<bool>)
    requires |formatBits| == 15 && |versionBits| == 18
    requires |dark0| == |dark1| == |dark2| == |dark3| == |reserved| == |reserved1| == SymbolSize(version) * SymbolSize(version)
    requires ReservesPatterns(version, reserved) && PatternsShown(version, SymbolSize(version), formatBits, versionBits, dark0)
    requires PlacedAll(SymbolSize(version), reserved, dark0, dark1, data)
    requires Masked(SymbolSize(version), dark1, dark2, reserved, mask)
    requires FormatPlaced(SymbolSize(version), 15, formatBits, dark2, dark3, reserved, reserved1)
    requires Cell(dark3, SymbolSize(version), SymbolSize(version) - 8, 8)
    ensures PatternsShown(version, SymbolSize(version), formatBits, versionBits, dark3)
  {
    hide Cell, Order, Placed, PlacedAll, PatternModule, TimingCell, FormatCell, VersionCell, PatternsShown, FormatShown, FormatPlaced, Flips;
    var n := SymbolSize(version);
    FormatAppears(n, formatBits, dark2, dark3, reserved, reserved1);
    PlacementKeepsReserved(n, reserved, dark0, dark1, data);
    FormatKeepsRest(n, formatBits, dark2, dark3, reserved, reserved1);
    PatternsSurvive(version, n, formatBits, versionBits, dark0, dark3);
  }

  lemma PlacementKeepsReserved(n: nat, reserved: seq<bool>, dark0: seq<bool>, dark1: seq<bool>, data: seq<Byte>)
    requires OddSize(n) && |reserved| == |dark0| == |dark1| == n * n && PlacedAll(n, reserved, dark0, dark1, data)
    ensures forall r: nat, c: nat | r < n && c < n && Cell(reserved, n, r, c) :: Cell(dark1, n, r, c) == Cell(dark0, n, r, c)
  {
    hide Cell, Order, DataBit;
    FreeIsSubset(n, Order(n), reserved);
    forall r: nat, c: nat | r < n && c < n && Cell(reserved, n, r, c) ensures Cell(dark1, n, r, c) == Cell(dark0, n, r, c) {
      assert Module(r, c) !in Free(n, Order(n), reserved);
    }
  }

  lemma FormatKeepsRest(n: nat, bits: seq<bool>, dark0: seq<bool>, dark: seq<bool>, reserved0: seq<bool>, reserved: seq<bool>)
    requires n >= 21 && |bits| == 15 && |dark0| == |dark| == |reserved0| == |reserved| == n * n
    requires FormatPlaced(n, 15, bits, dark0, dark, reserved0, reserved)
    ensures forall r: nat, c: nat | r < n && c < n && !FormatCell(n, Module(r, c)) :: Cell(dark, n, r, c) == Cell(dark0, n, r, c)
  {
    hide Cell;
  }

  lemma SizeIsLarge(v: Version)
    ensures SymbolSize(v) >= 21 && OddSize(SymbolSize(v))
  {
  }
}
