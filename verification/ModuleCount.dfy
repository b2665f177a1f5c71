/** How many modules the fixed patterns take: every version has room for all its codewords. */
module ModuleCount {
  import opened Zigzag
  import opened Grid
  import opened FunctionPatterns
  import opened Versions

  // ---------------------------------------------------------------- rectangles

  function Line(row: nat, col: int, w: nat): (s: set<Module>)
  {
    if w == 0 then {} else Line(row, col, w - 1) + (if col + w - 1 >= 0 then {Module(row, col + w - 1)} else {})
  }

  /** The modules of h rows and w columns, from (row, col). */
  function Rect(row: int, h: nat, col: int, w: nat): set<Module>
  {
    if h == 0 then {} else Rect(row, h - 1, col, w) + (if row + h - 1 >= 0 then Line(row + h - 1, col, w) else {})
  }

  lemma {:induction false} InLine(row: nat, col: int, w: nat, m: Module)
    ensures m in Line(row, col, w) <==> m.row == row && col <= m.col < col + w
  {
    if w > 0 { InLine(row, col, w - 1, m); }
  }

  lemma {:induction false} InRect(row: int, h: nat, col: int, w: nat, m: Module)
    ensures m in Rect(row, h, col, w) <==> row <= m.row < row + h && col <= m.col < col + w
  {
    if h > 0 {
      InRect(row, h - 1, col, w, m);
      if row + h - 1 >= 0 { InLine(row + h - 1, col, w, m); }
    }
  }

  lemma {:induction false} LineSize(row: nat, col: int, w: nat)
    ensures |Line(row, col, w)| <= w
  {
    if w > 0 { LineSize(row, col, w - 1); }
  }

  lemma RectStep(row: int, h: nat, col: int, w: nat)
    requires h > 0
    ensures |Rect(row, h, col, w)| <= |Rect(row, h - 1, col, w)| + w
    ensures row == 0 ==> Rect(row, h, col, w) == Rect(row, h - 1, col, w) + Line(h - 1, col, w)
  {
    hide Line;
    if row + h - 1 >= 0 { LineSize(row + h - 1, col, w); }
  }

  lemma OneMore(h: nat, w: nat)
    requires h > 0
    ensures h * w == (h - 1) * w + w
  {
  }

  lemma EmptyRect(row: int, col: int, w: nat)
    ensures Rect(row, 0, col, w) == {} && 0 * w == 0
  {
  }

  lemma {:induction false} RectSize(row: int, h: nat, col: int, w: nat)
    ensures |Rect(row, h, col, w)| <= h * w
  {
    hide Rect;
    if h == 0 {
      EmptyRect(row, col, w);
    } else {
      RectSize(row, h - 1, col, w);
      RectStep(row, h, col, w);
      OneMore(h, w);
    }
  }

  lemma LineIsBelow(n: nat, h: nat)
    ensures Rect(0, h, 0, n) !! Line(h, 0, n)
  {
    hide Rect, Line;
    var above, line := Rect(0, h, 0, n), Line(h, 0, n);
    forall m | m in above ensures m !in line {
      InRect(0, h, 0, n, m);
      InLine(h, 0, n, m);
    }
  }

  lemma {:induction false} GridSize(n: nat, h: nat)
    ensures |Rect(0, h, 0, n)| == h * n
  {
    hide Rect, Line;
    if h == 0 {
      EmptyRect(0, 0, n);
    } else {
      GridSize(n, h - 1);
      FullLine(h - 1, n);
      LineIsBelow(n, h - 1);
      RectStep(0, h, 0, n);
      OneMore(h, n);
    }
  }

  lemma {:induction false} FullLine(row: nat, w: nat)
    ensures |Line(row, 0, w)| == w
  {
    if w > 0 {
      FullLine(row, w - 1);
      InLine(row, 0, w - 1, Module(row, w - 1));
    }
  }

  // ---------------------------------------------------------------- what the patterns cover

  /** Where the pattern around a coordinate begins. */
  function Edge(coords: seq<nat>, i: nat): int
    requires i < |coords|
  {
    coords[i] as int - 2
  }

  /** The part of an alignment pattern that is not on a timing line. */
  function Block(coords: seq<nat>, i: nat, j: nat): set<Module>
    requires i < |coords| && j < |coords|
  {
    if Corner(|coords|, i, j) then {}
    else if i == 0 then Rect(4, 2, Edge(coords, j), 5) + Rect(7, 2, Edge(coords, j), 5)
    else if j == 0 then Rect(Edge(coords, i), 5, 4, 2) + Rect(Edge(coords, i), 5, 7, 2)
    else Rect(Edge(coords, i), 5, Edge(coords, j), 5)
  }

  function BlockSize(count: nat, i: nat, j: nat): nat
  {
    if Corner(count, i, j) then 0 else if i == 0 || j == 0 then 20 else 25
  }

  function RowOfBlocks(coords: seq<nat>, i: nat, m: nat): set<Module>
    requires i < |coords| && m <= |coords|
  {
    if m == 0 then {} else RowOfBlocks(coords, i, m - 1) + Block(coords, i, m - 1)
  }

  function RowSize(count: nat, i: nat, m: nat): nat
  {
    if m == 0 then 0 else RowSize(count, i, m - 1) + BlockSize(count, i, m - 1)
  }

  function AllBlocks(coords: seq<nat>, l: nat): set<Module>
    requires l <= |coords|
  {
    if l == 0 then {} else AllBlocks(coords, l - 1) + RowOfBlocks(coords, l - 1, |coords|)
  }

  function AllSize(count: nat, l: nat): nat
  {
    if l == 0 then 0 else AllSize(count, l - 1) + RowSize(count, l - 1, count)
  }

  lemma BlockFits(coords: seq<nat>, i: nat, j: nat)
    requires i < |coords| && j < |coords|
    ensures |Block(coords, i, j)| <= BlockSize(|coords|, i, j)
  {
    hide Rect;
    RectSize(4, 2, Edge(coords, j), 5);
    RectSize(7, 2, Edge(coords, j), 5);
    RectSize(Edge(coords, i), 5, 4, 2);
    RectSize(Edge(coords, i), 5, 7, 2);
    RectSize(Edge(coords, i), 5, Edge(coords, j), 5);
  }

  lemma {:induction false} RowFits(coords: seq<nat>, i: nat, m: nat)
    requires i < |coords| && m <= |coords|
    ensures |RowOfBlocks(coords, i, m)| <= RowSize(|coords|, i, m)
  {
    hide Block, BlockSize;
    if m > 0 {
      RowFits(coords, i, m - 1);
      BlockFits(coords, i, m - 1);
    }
  }

  lemma {:induction false} AllFits(coords: seq<nat>, l: nat)
    requires l <= |coords|
    ensures |AllBlocks(coords, l)| <= AllSize(|coords|, l)
  {
    hide RowOfBlocks, RowSize;
    if l > 0 {
      AllFits(coords, l - 1);
      RowFits(coords, l - 1, |coords|);
    }
  }

  lemma {:induction false} InRow(coords: seq<nat>, i: nat, m: nat, j: nat, x: Module)
    requires i < |coords| && j < m <= |coords| && x in Block(coords, i, j)
    ensures x in RowOfBlocks(coords, i, m)
  {
    hide Block;
    if j < m - 1 { InRow(coords, i, m - 1, j, x); }
  }

  lemma {:induction false} InAll(coords: seq<nat>, l: nat, i: nat, j: nat, x: Module)
    requires i < l <= |coords| && j < |coords| && x in Block(coords, i, j)
    ensures x in AllBlocks(coords, l)
  {
    hide Block, RowOfBlocks;
    if i < l - 1 {
      InAll(coords, l - 1, i, j, x);
    } else {
      InRow(coords, i, |coords|, j, x);
    }
  }

  // ---------------------------------------------------------------- everything that is reserved

  function FinderSet(n: nat): set<Module> { Rect(0, 8, 0, 8) + Rect(n - 8, 8, 0, 8) + Rect(0, 8, n - 8, 8) }

  function TimingSet(n: nat): set<Module>
    requires n >= 21
  {
    Rect(6, 1, 8, n - 16) + Rect(8, n - 16, 6, 1)
  }

  function FormatSet(n: nat): set<Module>
  {
    Rect(0, 6, 8, 1) + Rect(7, 2, 8, 1) + Rect(n - 8, 8, 8, 1) + Rect(8, 1, 0, 6) + Rect(8, 1, 7, 1) + Rect(8, 1, n - 8, 8)
  }

  function VersionSet(n: nat): set<Module> { Rect(0, 6, n - 11, 3) + Rect(n - 11, 3, 0, 6) }

  function Cover(v: Version, coords: seq<nat>): set<Module>
  {
    var n := 4 * v + 17;
    FinderSet(n) + TimingSet(n) + FormatSet(n) + (if v >= 7 then VersionSet(n) else {}) + AllBlocks(coords, |coords|)
  }

  function CoverSize(v: Version): nat
  {
    192 + 2 * (4 * v + 17 - 16) + 31 + (if v >= 7 then 36 else 0) + AllSize(AlignmentCount(v), AlignmentCount(v))
  }

  lemma FinderFits(n: nat)
    ensures |FinderSet(n)| <= 192
  {
    hide Rect;
    RectSize(0, 8, 0, 8);
    RectSize(n - 8, 8, 0, 8);
    RectSize(0, 8, n - 8, 8);
  }

  lemma TimingFits(n: nat)
    requires n >= 21
    ensures |TimingSet(n)| <= 2 * (n - 16)
  {
    hide Rect;
    RectSize(6, 1, 8, n - 16);
    RectSize(8, n - 16, 6, 1);
  }

  lemma FormatFits(n: nat)
    ensures |FormatSet(n)| <= 31
  {
    hide Rect;
    RectSize(0, 6, 8, 1);
    RectSize(7, 2, 8, 1);
    RectSize(n - 8, 8, 8, 1);
    RectSize(8, 1, 0, 6);
    RectSize(8, 1, 7, 1);
    RectSize(8, 1, n - 8, 8);
  }

  lemma VersionFits(n: nat)
    ensures |VersionSet(n)| <= 36
  {
    hide Rect;
    RectSize(0, 6, n - 11, 3);
    RectSize(n - 11, 3, 0, 6);
  }

  lemma CoverFits(v: Version, coords: seq<nat>)
    requires |coords| == AlignmentCount(v)
    ensures |Cover(v, coords)| <= CoverSize(v)
  {
    hide FinderSet, TimingSet, FormatSet, VersionSet, AllBlocks, AllSize;
    var n := 4 * v + 17;
    FinderFits(n);
    TimingFits(n);
    FormatFits(n);
    VersionFits(n);
    AllFits(coords, |coords|);
  }

  // ---------------------------------------------------------------- room for the codewords

  lemma RowSizeIs(count: nat, i: nat, m: nat)
    requires 2 <= count <= 8 && i < count && 1 <= m <= count
    ensures i == 0 ==> RowSize(count, i, m) == if m == count then 20 * (count - 2) else 20 * (m - 1)
    ensures 0 < i < count - 1 ==> RowSize(count, i, m) == 20 + 25 * (m - 1)
    ensures 0 < i == count - 1 ==> RowSize(count, i, m) == 25 * (m - 1)
  {
    if m > 1 {
      RowSizeIs(count, i, m - 1);
    } else {
      assert RowSize(count, i, 0) == 0;
    }
  }

  lemma AllSizeStep(count: nat, l: nat)
    requires l > 0
    ensures AllSize(count, l) == AllSize(count, l - 1) + RowSize(count, l - 1, count) && AllSize(count, 0) == 0
  {
    hide RowSize;
  }

  lemma {:induction false} AllSizeIs(count: nat, l: nat)
    requires 2 <= count <= 8 && 1 <= l < count
    ensures AllSize(count, l) == 20 * (count - 2) + (l - 1) * (20 + 25 * (count - 1))
  {
    hide AllSize, RowSize;
    RowSizeIs(count, l - 1, count);
    AllSizeStep(count, l);
    if l > 1 {
      AllSizeIs(count, l - 1);
      OneMore(l - 1, 20 + 25 * (count - 1));
    }
  }

  /** The modules that alignment patterns add for a number of coordinates. */
  lemma AlignmentSize(count: nat)
    requires 2 <= count <= 8
    ensures AllSize(count, count) == 40 * (count - 2) + 25 * (count - 1) * (count - 1)
  {
    hide AllSize, RowSize;
    RowSizeIs(count, count - 1, count);
    AllSizeStep(count, count);
    AllSizeIs(count, count - 1);
    assert (count - 2) * (20 + 25 * (count - 1)) == 20 * (count - 2) + 25 * (count - 2) * (count - 1);
  }

  predicate HasRoom(v: Version)
  {
    (4 * v + 17) * (4 * v + 17) >= CoverSize(v) + 8 * Total(v)
  }

  /** The module arithmetic of a version, with the alignment patterns counted. */
  function Room(v: Version): int
  {
    (4 * v + 17) * (4 * v + 17) - 192 - 2 * (4 * v + 1) - 31 - (if v >= 7 then 36 else 0)
    - (if v == 1 then 0 else 40 * (v / 7) + 25 * (v / 7 + 1) * (v / 7 + 1))
  }

  /** The cover leaves exactly that room. */
  lemma RoomIsLeft(v: Version)
    ensures (4 * v + 17) * (4 * v + 17) - CoverSize(v) == Room(v)
  {
    hide AllSize;
    if v > 1 {
      AlignmentSize(v / 7 + 2);
    } else {
      NoAlignment();
    }
  }

  lemma NoAlignment()
    ensures AllSize(0, 0) == 0
  {
  }

  /** Every one of the 40 versions has room for all its codewords. */
  lemma EveryVersionHasRoom(v: Version)
    ensures HasRoom(v)
  {
    hide CoverSize, Room, Total;
    RoomIsLeft(v);
    if v <= 10 { RoomTo10(v); } else if v <= 20 { RoomTo20(v); } else if v <= 30 { RoomTo30(v); } else { RoomTo40(v); }
  }

  lemma RoomTo10(v: Version)
    requires v <= 10
    ensures Room(v) >= 8 * Total(v)
  {
    if v == 1 {} else if v == 2 {} else if v == 3 {} else if v == 4 {} else if v == 5 {}
    else if v == 6 {} else if v == 7 {} else if v == 8 {} else if v == 9 {} else { assert v == 10; }
  }

  lemma RoomTo20(v: Version)
    requires 10 < v <= 20
    ensures Room(v) >= 8 * Total(v)
  {
    if v == 11 {} else if v == 12 {} else if v == 13 {} else if v == 14 {} else if v == 15 {}
    else if v == 16 {} else if v == 17 {} else if v == 18 {} else if v == 19 {} else { assert v == 20; }
  }

  lemma RoomTo30(v: Version)
    requires 20 < v <= 30
    ensures Room(v) >= 8 * Total(v)
  {
    if v == 21 {} else if v == 22 {} else if v == 23 {} else if v == 24 {} else if v == 25 {}
    else if v == 26 {} else if v == 27 {} else if v == 28 {} else if v == 29 {} else { assert v == 30; }
  }

  lemma RoomTo40(v: Version)
    requires 30 < v
    ensures Room(v) >= 8 * Total(v)
  {
    if v == 31 {} else if v == 32 {} else if v == 33 {} else if v == 34 {} else if v == 35 {}
    else if v == 36 {} else if v == 37 {} else if v == 38 {} else if v == 39 {} else { assert v == 40; }
  }
}
