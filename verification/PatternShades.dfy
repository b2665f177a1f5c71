/** What the fixed patterns look like, and that each later drawing leaves the earlier ones as they were. */
module PatternShades {
  import opened Zigzag
  import opened Grid
  import opened FunctionPatterns
  import opened SymbolMatrix

  // ---------------------------------------------------------------- patterns on a grid

  /** The whole shape is on the grid with its shades. */
  ghost predicate ShapeShown(n: nat, s: Shape, dark: seq<bool>)
    requires |dark| == n * n
  {
    forall r: nat, c: nat | r < n && c < n && Covers(s, r, c) :: Cell(dark, n, r, c) == Shade(s, r, c)
  }

  ghost predicate FindersShown(n: nat, dark: seq<bool>)
    requires n >= 21 && |dark| == n * n
  {
    ShapeShown(n, Finder(0, 0), dark) && ShapeShown(n, Finder(n - 7, 0), dark) && ShapeShown(n, Finder(0, n - 7), dark)
  }

  ghost predicate TimingShown(n: nat, dark: seq<bool>)
    requires |dark| == n * n
  {
    forall r: nat, c: nat | r < n && c < n && TimingCell(n, r, c) :: Cell(dark, n, r, c) == ((r + c) % 2 == 0)
  }

  /** Every alignment pattern of the version, off the three finder corners. */
  ghost predicate AlignmentsShown(v: nat, n: nat, dark: seq<bool>)
    requires 1 <= v <= 40 && |dark| == n * n
  {
    forall a: nat, b: nat | a < AlignmentCount(v) && b < AlignmentCount(v) && !Corner(AlignmentCount(v), a, b) ::
      ShapeShown(n, Alignment(Positions(v)[a], Positions(v)[b]), dark)
  }

  /** Both copies of the format bits, and the dark module. */
  ghost predicate FormatShown(n: nat, bits: seq<bool>, dark: seq<bool>)
    requires n >= 21 && |bits| == 15 && |dark| == n * n
  {
    && Cell(dark, n, n - 8, 8)
    && forall k: nat | k < 15 ::
         Cell(dark, n, FirstCopy(n, k).row, FirstCopy(n, k).col) == bits[k] == Cell(dark, n, SecondCopy(n, k).row, SecondCopy(n, k).col)
  }

  ghost predicate VersionShown(n: nat, bits: seq<bool>, dark: seq<bool>)
    requires n >= 21 && |bits| == 18 && |dark| == n * n
  {
    forall r: nat, c: nat | r < n && c < n && VersionCell(n, r, c) :: Cell(dark, n, r, c) == bits[VersionIndex(n, r, c)]
  }

  /** All patterns of a version's grid. */
  ghost predicate PatternsShown(v: nat, n: nat, formatBits: seq<bool>, versionBits: seq<bool>, dark: seq<bool>)
    requires 1 <= v <= 40 && n >= 21 && |formatBits| == 15 && |versionBits| == 18 && |dark| == n * n
  {
    && FindersShown(n, dark) && TimingShown(n, dark) && AlignmentsShown(v, n, dark) && FormatShown(n, formatBits, dark)
    && (v >= 7 ==> VersionShown(n, versionBits, dark))
  }

  // ---------------------------------------------------------------- who touches whom

  lemma FinderApart(n: nat, r: nat, c: nat)
    requires n >= 21 && r < n && c < n
    requires Covers(Finder(0, 0), r, c) || Covers(Finder(n - 7, 0), r, c) || Covers(Finder(0, n - 7), r, c)
    ensures !TimingCell(n, r, c) && !FormatCell(n, Module(r, c)) && !VersionCell(n, r, c)
    ensures !(Covers(Finder(0, 0), r, c) && Covers(Finder(n - 7, 0), r, c)) && !(Covers(Finder(0, 0), r, c) && Covers(Finder(0, n - 7), r, c))
    ensures !(Covers(Finder(n - 7, 0), r, c) && Covers(Finder(0, n - 7), r, c))
  {
  }

  lemma TimingApart(n: nat, r: nat, c: nat)
    requires n >= 21 && r < n && c < n && TimingCell(n, r, c)
    ensures !FormatCell(n, Module(r, c)) && !VersionCell(n, r, c)
  {
  }

  /** Where the centre of an alignment pattern can be. */
  lemma AlignmentCentres(v: nat, a: nat, b: nat)
    requires 2 <= v <= 40 && a < AlignmentCount(v) && b < AlignmentCount(v) && !Corner(AlignmentCount(v), a, b)
    ensures Positions(v)[a] == Position(v, a) && Positions(v)[b] == Position(v, b)
    ensures Position(v, a) % 2 == 0 && Position(v, b) % 2 == 0
    ensures Position(v, a) == 6 ==> 18 <= Position(v, b) <= 4 * v - 2
    ensures Position(v, b) == 6 ==> 18 <= Position(v, a) <= 4 * v - 2
    ensures Position(v, a) == 6 || 18 <= Position(v, a) <= 4 * v + 10
    ensures Position(v, b) == 6 || 18 <= Position(v, b) <= 4 * v + 10
  {
    hide Position;
    PositionEnds(v);
    PositionIsEven(v, a);
    PositionIsEven(v, b);
    if a > 0 { PositionsApart(v, 0, a); }
    if b > 0 { PositionsApart(v, 0, b); }
    if a < AlignmentCount(v) - 1 { PositionsApart(v, a, AlignmentCount(v) - 1); }
    if b < AlignmentCount(v) - 1 { PositionsApart(v, b, AlignmentCount(v) - 1); }
  }

  lemma AlignmentApart(v: nat, n: nat, a: nat, b: nat, r: nat, c: nat)
    requires 2 <= v <= 40 && n == 4 * v + 17 && r < n && c < n
    requires a < AlignmentCount(v) && b < AlignmentCount(v) && !Corner(AlignmentCount(v), a, b)
    requires Covers(Alignment(Positions(v)[a], Positions(v)[b]), r, c)
    ensures !Covers(Finder(0, 0), r, c) && !Covers(Finder(n - 7, 0), r, c) && !Covers(Finder(0, n - 7), r, c)
    ensures !FormatCell(n, Module(r, c)) && !VersionCell(n, r, c)
    ensures TimingCell(n, r, c) ==> Shade(Alignment(Positions(v)[a], Positions(v)[b]), r, c) == ((r + c) % 2 == 0)
  {
    hide Position, Positions;
    AlignmentCentres(v, a, b);
  }

  /** No two alignment patterns overlap. */
  lemma AlignmentsDisjoint(v: nat, a: nat, b: nat, a': nat, b': nat, r: nat, c: nat)
    requires 2 <= v <= 40 && a < AlignmentCount(v) && b < AlignmentCount(v) && a' < AlignmentCount(v) && b' < AlignmentCount(v)
    requires Covers(Alignment(Positions(v)[a], Positions(v)[b]), r, c) && Covers(Alignment(Positions(v)[a'], Positions(v)[b']), r, c)
    ensures a == a' && b == b'
  {
    hide Position;
    if a < a' { PositionsApart(v, a, a'); } else if a' < a { PositionsApart(v, a', a); }
    if b < b' { PositionsApart(v, b, b'); } else if b' < b { PositionsApart(v, b', b); }
  }

  // ---------------------------------------------------------------- stage by stage

  lemma ShapeStage(n: nat, s: Shape, dark0: seq<bool>, dark: seq<bool>, reserved0: seq<bool>, reserved: seq<bool>)
    requires |dark0| == |dark| == |reserved0| == |reserved| == n * n && Drawn(n, s, dark0, dark, reserved0, reserved)
    ensures ShapeShown(n, s, dark)
    ensures forall r: nat, c: nat | r < n && c < n && !Covers(s, r, c) :: Cell(dark, n, r, c) == Cell(dark0, n, r, c)
  {
    hide Cell, Shade;
    forall r: nat, c: nat | r < n && c < n && Covers(s, r, c) ensures Cell(dark, n, r, c) == Shade(s, r, c) {
      WholeShape(s, r, c);
    }
  }

  /** A shape stays shown where nothing it covers has changed. */
  lemma ShapeKept(n: nat, s: Shape, dark0: seq<bool>, dark: seq<bool>)
    requires |dark0| == |dark| == n * n && ShapeShown(n, s, dark0)
    requires forall r: nat, c: nat | r < n && c < n && Covers(s, r, c) :: Cell(dark, n, r, c) == Cell(dark0, n, r, c)
    ensures ShapeShown(n, s, dark)
  {
    hide Cell, Shade, Covers;
  }

  lemma FindersKept(n: nat, dark0: seq<bool>, dark: seq<bool>)
    requires n >= 21 && |dark0| == |dark| == n * n && FindersShown(n, dark0)
    requires forall r: nat, c: nat | r < n && c < n
               && (Covers(Finder(0, 0), r, c) || Covers(Finder(n - 7, 0), r, c) || Covers(Finder(0, n - 7), r, c)) ::
               Cell(dark, n, r, c) == Cell(dark0, n, r, c)
    ensures FindersShown(n, dark)
  {
    hide Cell, Shade, Covers, ShapeShown;
    ShapeKept(n, Finder(0, 0), dark0, dark);
    ShapeKept(n, Finder(n - 7, 0), dark0, dark);
    ShapeKept(n, Finder(0, n - 7), dark0, dark);
  }

  lemma FinderStages(n: nat, d0: seq<bool>, d1: seq<bool>, d2: seq<bool>, d3: seq<bool>,
                     r0: seq<bool>, r1: seq<bool>, r2: seq<bool>, r3: seq<bool>)
    requires n >= 21 && |d0| == |d1| == |d2| == |d3| == |r0| == |r1| == |r2| == |r3| == n * n
    requires Drawn(n, Finder(0, 0), d0, d1, r0, r1) && Drawn(n, Finder(n - 7, 0), d1, d2, r1, r2) && Drawn(n, Finder(0, n - 7), d2, d3, r2, r3)
    ensures FindersShown(n, d3)
  {
    hide Cell, Shade, Covers, ShapeShown, Drawn;
    ShapeStage(n, Finder(0, 0), d0, d1, r0, r1);
    ShapeStage(n, Finder(n - 7, 0), d1, d2, r1, r2);
    ShapeStage(n, Finder(0, n - 7), d2, d3, r2, r3);
    forall r: nat, c: nat | r < n && c < n && Covers(Finder(0, 0), r, c) ensures Cell(d3, n, r, c) == Cell(d1, n, r, c) {
      FinderApart(n, r, c);
    }
    forall r: nat, c: nat | r < n && c < n && Covers(Finder(n - 7, 0), r, c) ensures Cell(d3, n, r, c) == Cell(d2, n, r, c) {
      FinderApart(n, r, c);
    }
    ShapeKept(n, Finder(0, 0), d1, d3);
    ShapeKept(n, Finder(n - 7, 0), d2, d3);
  }

  lemma TimingStage(n: nat, dark0: seq<bool>, dark: seq<bool>, reserved0: seq<bool>, reserved: seq<bool>)
    requires n >= 21 && |dark0| == |dark| == |reserved0| == |reserved| == n * n && FindersShown(n, dark0)
    requires Timed(n, n - 8, dark0, dark, reserved0, reserved)
    ensures FindersShown(n, dark) && TimingShown(n, dark)
  {
    hide Cell, Covers, FindersShown;
    forall r: nat, c: nat | r < n && c < n && (Covers(Finder(0, 0), r, c) || Covers(Finder(n - 7, 0), r, c) || Covers(Finder(0, n - 7), r, c))
      ensures Cell(dark, n, r, c) == Cell(dark0, n, r, c)
    {
      FinderApart(n, r, c);
    }
    FindersKept(n, dark0, dark);
  }

  /** After the alignment loops, a covered module shows the one pattern that covers it. */
  lemma AlignedShows(v: nat, n: nat, a: nat, b: nat, r: nat, c: nat, dark0: seq<bool>, dark: seq<bool>, reserved0: seq<bool>, reserved: seq<bool>)
    requires 2 <= v <= 40 && |dark0| == |dark| == |reserved0| == |reserved| == n * n
    requires AlignedSoFar(n, Positions(v), AlignmentCount(v), 0, dark0, dark, reserved0, reserved)
    requires a < AlignmentCount(v) && b < AlignmentCount(v) && !Corner(AlignmentCount(v), a, b)
    requires r < n && c < n && Covers(Alignment(Positions(v)[a], Positions(v)[b]), r, c)
    ensures Cell(dark, n, r, c) == Shade(Alignment(Positions(v)[a], Positions(v)[b]), r, c)
  {
    hide Cell, Covers, Shade, Positions, Corner, AlignedSoFar;
    var coords := Positions(v);
    assert Aligned(coords, |coords|, 0, r, c, Shade(Alignment(coords[a], coords[b]), r, c));
    AlignedCell(n, coords, r, c, dark0, dark, reserved0, reserved);
    var a': nat, b': nat :| a' < |coords| && b' < |coords| && !Corner(|coords|, a', b')
                            && Covers(Alignment(coords[a'], coords[b']), r, c) && Shade(Alignment(coords[a'], coords[b']), r, c) == Cell(dark, n, r, c);
    AlignmentsDisjoint(v, a, b, a', b', r, c);
  }

  lemma AlignedCell(n: nat, coords: seq<nat>, r: nat, c: nat, dark0: seq<bool>, dark: seq<bool>, reserved0: seq<bool>, reserved: seq<bool>)
    requires |dark0| == |dark| == |reserved0| == |reserved| == n * n && r < n && c < n
    requires AlignedSoFar(n, coords, |coords|, 0, dark0, dark, reserved0, reserved)
    ensures if Aligned(coords, |coords|, 0, r, c, true) || Aligned(coords, |coords|, 0, r, c, false)
            then Aligned(coords, |coords|, 0, r, c, Cell(dark, n, r, c)) else Cell(dark, n, r, c) == Cell(dark0, n, r, c)
  {
    hide Cell, Aligned;
  }

  /** A module that an alignment pattern changed is covered by one, off the corners. */
  lemma ChangedIsAligned(v: nat, n: nat, r: nat, c: nat, dark0: seq<bool>, dark: seq<bool>, reserved0: seq<bool>, reserved: seq<bool>) returns (a: nat, b: nat)
    requires 1 <= v <= 40 && |dark0| == |dark| == |reserved0| == |reserved| == n * n && r < n && c < n
    requires AlignedSoFar(n, Positions(v), AlignmentCount(v), 0, dark0, dark, reserved0, reserved)
    requires Cell(dark, n, r, c) != Cell(dark0, n, r, c)
    ensures v >= 2 && a < AlignmentCount(v) && b < AlignmentCount(v) && !Corner(AlignmentCount(v), a, b)
    ensures Covers(Alignment(Positions(v)[a], Positions(v)[b]), r, c)
  {
    hide Cell, Covers, Shade, Corner, AlignedSoFar, Position;
    var coords := Positions(v);
    AlignedCell(n, coords, r, c, dark0, dark, reserved0, reserved);
    var d := Cell(dark, n, r, c);
    assert Aligned(coords, |coords|, 0, r, c, d);
    a, b :| a < |coords| && b < |coords| && !Corner(|coords|, a, b)
            && Covers(Alignment(coords[a], coords[b]), r, c) && Shade(Alignment(coords[a], coords[b]), r, c) == d;
  }

  lemma AlignmentStage(v: nat, n: nat, dark0: seq<bool>, dark: seq<bool>, reserved0: seq<bool>, reserved: seq<bool>)
    requires 1 <= v <= 40 && n == 4 * v + 17 && |dark0| == |dark| == |reserved0| == |reserved| == n * n
    requires AlignedSoFar(n, Positions(v), AlignmentCount(v), 0, dark0, dark, reserved0, reserved)
    requires FindersShown(n, dark0) && TimingShown(n, dark0)
    ensures FindersShown(n, dark) && TimingShown(n, dark) && AlignmentsShown(v, n, dark)
  {
    hide Cell, Covers, Shade, Corner, AlignedSoFar, Positions, TimingCell, FindersShown, FormatCell, VersionCell;
    forall r: nat, c: nat | r < n && c < n && (Covers(Finder(0, 0), r, c) || Covers(Finder(n - 7, 0), r, c) || Covers(Finder(0, n - 7), r, c))
      ensures Cell(dark, n, r, c) == Cell(dark0, n, r, c)
    {
      if Cell(dark, n, r, c) != Cell(dark0, n, r, c) {
        var a, b := ChangedIsAligned(v, n, r, c, dark0, dark, reserved0, reserved);
        AlignmentApart(v, n, a, b, r, c);
      }
    }
    FindersKept(n, dark0, dark);
    forall r: nat, c: nat | r < n && c < n && TimingCell(n, r, c) ensures Cell(dark, n, r, c) == ((r + c) % 2 == 0) {
      if Cell(dark, n, r, c) != Cell(dark0, n, r, c) {
        var a, b := ChangedIsAligned(v, n, r, c, dark0, dark, reserved0, reserved);
        AlignmentApart(v, n, a, b, r, c);
        AlignedShows(v, n, a, b, r, c, dark0, dark, reserved0, reserved);
      }
    }
    AlignmentsAppear(v, n, dark0, dark, reserved0, reserved);
  }

  lemma AlignmentsAppear(v: nat, n: nat, dark0: seq<bool>, dark: seq<bool>, reserved0: seq<bool>, reserved: seq<bool>)
    requires 1 <= v <= 40 && |dark0| == |dark| == |reserved0| == |reserved| == n * n
    requires AlignedSoFar(n, Positions(v), AlignmentCount(v), 0, dark0, dark, reserved0, reserved)
    ensures AlignmentsShown(v, n, dark)
  {
    hide Cell, Covers, Shade, Corner, AlignedSoFar, Positions;
    forall a: nat, b: nat | a < AlignmentCount(v) && b < AlignmentCount(v) && !Corner(AlignmentCount(v), a, b)
      ensures ShapeShown(n, Alignment(Positions(v)[a], Positions(v)[b]), dark)
    {
      forall r: nat, c: nat | r < n && c < n && Covers(Alignment(Positions(v)[a], Positions(v)[b]), r, c)
        ensures Cell(dark, n, r, c) == Shade(Alignment(Positions(v)[a], Positions(v)[b]), r, c)
      {
        AlignedShows(v, n, a, b, r, c, dark0, dark, reserved0, reserved);
      }
    }
  }

  /** A later drawing that writes only format and version modules leaves finders, timing and alignment as they are. */
  lemma PatternsKept(v: nat, n: nat, dark0: seq<bool>, dark: seq<bool>)
    requires 1 <= v <= 40 && n == 4 * v + 17 && |dark0| == |dark| == n * n
    requires forall r: nat, c: nat | r < n && c < n && !FormatCell(n, Module(r, c)) && !VersionCell(n, r, c)
               && (PatternModule(v, r, c) || TimingCell(n, r, c)) :: Cell(dark, n, r, c) == Cell(dark0, n, r, c)
    requires FindersShown(n, dark0) && TimingShown(n, dark0) && AlignmentsShown(v, n, dark0)
    ensures FindersShown(n, dark) && TimingShown(n, dark) && AlignmentsShown(v, n, dark)
  {
    hide Cell, Covers, Shade, Corner, Positions, TimingCell, FindersShown, FormatCell, VersionCell, ShapeShown;
    forall r: nat, c: nat | r < n && c < n && (Covers(Finder(0, 0), r, c) || Covers(Finder(n - 7, 0), r, c) || Covers(Finder(0, n - 7), r, c))
      ensures Cell(dark, n, r, c) == Cell(dark0, n, r, c)
    {
      FinderApart(n, r, c);
    }
    FindersKept(n, dark0, dark);
    forall r: nat, c: nat | r < n && c < n && TimingCell(n, r, c) ensures Cell(dark, n, r, c) == Cell(dark0, n, r, c) {
      TimingApart(n, r, c);
    }
    forall a: nat, b: nat | a < AlignmentCount(v) && b < AlignmentCount(v) && !Corner(AlignmentCount(v), a, b)
      ensures ShapeShown(n, Alignment(Positions(v)[a], Positions(v)[b]), dark)
    {
      forall r: nat, c: nat | r < n && c < n && Covers(Alignment(Positions(v)[a], Positions(v)[b]), r, c)
        ensures Cell(dark, n, r, c) == Cell(dark0, n, r, c)
      {
        AlignmentApart(v, n, a, b, r, c);
      }
      ShapeKept(n, Alignment(Positions(v)[a], Positions(v)[b]), dark0, dark);
    }
  }

  /** A module of a finder or an alignment pattern. */
  ghost predicate PatternModule(v: nat, r: nat, c: nat)
    requires 1 <= v <= 40
  {
    || Covers(Finder(0, 0), r, c) || Covers(Finder(4 * v + 10, 0), r, c) || Covers(Finder(0, 4 * v + 10), r, c)
    || exists a: nat, b: nat :: a < AlignmentCount(v) && b < AlignmentCount(v) && !Corner(AlignmentCount(v), a, b)
                                && Covers(Alignment(Positions(v)[a], Positions(v)[b]), r, c)
  }

  lemma FormatAppears(n: nat, bits: seq<bool>, dark0: seq<bool>, dark: seq<bool>, reserved0: seq<bool>, reserved: seq<bool>)
    requires n >= 21 && |bits| == 15 && |dark0| == |dark| == |reserved0| == |reserved| == n * n
    requires FormatPlaced(n, 15, bits, dark0, dark, reserved0, reserved) && Cell(dark, n, n - 8, 8)
    ensures FormatShown(n, bits, dark)
  {
    hide Cell;
  }

  lemma VersionStage(n: nat, formatBits: seq<bool>, versionBits: seq<bool>, dark0: seq<bool>, dark: seq<bool>, reserved0: seq<bool>, reserved: seq<bool>)
    requires n >= 21 && |formatBits| == 15 && |versionBits| == 18 && |dark0| == |dark| == |reserved0| == |reserved| == n * n
    requires FormatShown(n, formatBits, dark0) && Versioned(n, 18, versionBits, dark0, dark, reserved0, reserved)
    ensures FormatShown(n, formatBits, dark) && VersionShown(n, versionBits, dark)
  {
    hide Cell;
  }

  lemma FormatAndVersionApart(n: nat, r: nat, c: nat)
    requires n >= 21 && r < n && c < n && VersionCell(n, r, c)
    ensures !FormatCell(n, Module(r, c))
  {
  }

  /**
    Filling in the data: when only free modules and format modules have changed, and the format bits
    are the same again, all patterns are as they were drawn.
  */
  lemma {:induction false} PatternsSurvive(v: nat, n: nat, formatBits: seq<bool>, versionBits: seq<bool>, dark0: seq<bool>, dark: seq<bool>)
    requires 1 <= v <= 40 && n == 4 * v + 17 && |formatBits| == 15 && |versionBits| == 18 && |dark0| == |dark| == n * n
    requires PatternsShown(v, n, formatBits, versionBits, dark0) && FormatShown(n, formatBits, dark)
    requires forall r: nat, c: nat | r < n && c < n && !FormatCell(n, Module(r, c))
               && (PatternModule(v, r, c) || TimingCell(n, r, c) || (v >= 7 && VersionCell(n, r, c))) ::
               Cell(dark, n, r, c) == Cell(dark0, n, r, c)
    ensures PatternsShown(v, n, formatBits, versionBits, dark)
  {
    hide Cell, PatternModule, TimingCell, FindersShown, TimingShown, AlignmentsShown, FormatShown, FormatCell, VersionCell;
    PatternsKept(v, n, dark0, dark);
    if v >= 7 {
      forall r: nat, c: nat | r < n && c < n && VersionCell(n, r, c) ensures Cell(dark, n, r, c) == Cell(dark0, n, r, c) {
        FormatAndVersionApart(n, r, c);
      }
    }
  }
}
