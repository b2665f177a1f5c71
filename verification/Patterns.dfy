/** The fixed patterns around the data: finders, timing lines, alignment patterns and version information. */
module FunctionPatterns {
  import opened Zigzag
  import opened Grid

  // ---------------------------------------------------------------- square patterns

  /** A finder, by its top left corner inside the light border, or an alignment pattern, by its centre. */
  datatype Shape = Finder(row: nat, col: nat) | Alignment(row: nat, col: nat)

  function Top(s: Shape): int { if s.Finder? then s.row - 1 else s.row - 2 }

  function Left(s: Shape): int { if s.Finder? then s.col - 1 else s.col - 2 }

  function Side(s: Shape): nat { if s.Finder? then 9 else 5 }

  predicate Covers(s: Shape, r: int, c: int)
  {
    Top(s) <= r < Top(s) + Side(s) && Left(s) <= c < Left(s) + Side(s)
  }

  /** Dark rings around a dark core: the ring number of a module decides. */
  function Ring(s: Shape, r: int, c: int): nat
  {
    var dr, dc := Away(r - (if s.Finder? then s.row + 3 else s.row)), Away(c - (if s.Finder? then s.col + 3 else s.col));
    if dr > dc then dr else dc
  }

  function Away(d: int): nat { if d < 0 then -d else d }

  /** Finder: a 3 by 3 core and a ring three modules out. Alignment: one module and a ring two out. */
  predicate Shade(s: Shape, r: int, c: int)
  {
    if s.Finder? then Ring(s, r, c) <= 1 || Ring(s, r, c) == 3 else Ring(s, r, c) == 0 || Ring(s, r, c) == 2
  }

  predicate Before(r: int, c: int, y: int, x: int)
  {
    r < y || (r == y && c < x)
  }

  /** The modules of the shape that come before (y, x) in row order are drawn and reserved; nothing else changed. */
  ghost predicate Painted(n: nat, s: Shape, y: int, x: int, dark0: seq<bool>, dark: seq<bool>, reserved0: seq<bool>, reserved: seq<bool>)
    requires |dark0| == |dark| == |reserved0| == |reserved| == n * n
  {
    forall r: nat, c: nat | r < n && c < n ::
      && Cell(dark, n, r, c) == (if Covers(s, r, c) && Before(r, c, y, x) then Shade(s, r, c) else Cell(dark0, n, r, c))
      && Cell(reserved, n, r, c) == ((Covers(s, r, c) && Before(r, c, y, x)) || Cell(reserved0, n, r, c))
  }

  ghost predicate Drawn(n: nat, s: Shape, dark0: seq<bool>, dark: seq<bool>, reserved0: seq<bool>, reserved: seq<bool>)
    requires |dark0| == |dark| == |reserved0| == |reserved| == n * n
  {
    Painted(n, s, Top(s) + Side(s), Left(s), dark0, dark, reserved0, reserved)
  }

  lemma PaintStep(n: nat, s: Shape, y: nat, x: nat, dark0: seq<bool>, dark1: seq<bool>, dark2: seq<bool>,
                  reserved0: seq<bool>, reserved1: seq<bool>, reserved2: seq<bool>)
    requires |dark0| == |dark1| == |dark2| == |reserved0| == |reserved1| == |reserved2| == n * n
    requires y < n && x < n && Covers(s, y, x) && Painted(n, s, y, x, dark0, dark1, reserved0, reserved1)
    requires Updated(dark1, dark2, n, y, x, Shade(s, y, x)) && Updated(reserved1, reserved2, n, y, x, true)
    ensures Painted(n, s, y, x + 1, dark0, dark2, reserved0, reserved2)
  {
    hide Cell, Shade, Covers;
  }

  /** Modules off the grid are skipped, and a finished row ends where the next begins. */
  lemma PaintSkip(n: nat, s: Shape, y: int, x: int, y': int, x': int, dark0: seq<bool>, dark: seq<bool>, reserved0: seq<bool>, reserved: seq<bool>)
    requires |dark0| == |dark| == |reserved0| == |reserved| == n * n
    requires Painted(n, s, y, x, dark0, dark, reserved0, reserved)
    requires forall r: nat, c: nat | r < n && c < n && Covers(s, r, c) :: Before(r, c, y, x) <==> Before(r, c, y', x')
    ensures Painted(n, s, y', x', dark0, dark, reserved0, reserved)
  {
    hide Cell, Shade, Covers, Before;
  }

  lemma PaintStart(n: nat, s: Shape, dark: seq<bool>, reserved: seq<bool>)
    requires |dark| == |reserved| == n * n
    ensures Painted(n, s, Top(s), Left(s), dark, dark, reserved, reserved)
  {
    hide Cell, Shade;
  }

  /** One finder with its light border, clipped to the grid. */
  method DrawFinder(matrix: Matrix, row: nat, col: nat)
    requires matrix.Valid()
    modifies matrix.dark, matrix.reserved
    ensures Drawn(matrix.size, Finder(row, col), old(matrix.dark[..]), matrix.dark[..], old(matrix.reserved[..]), matrix.reserved[..])
  {
    hide Cell, Painted, Shade, Updated;
    var n, s := matrix.size, Finder(row, col);
    ghost var dark0, reserved0 := matrix.dark[..], matrix.reserved[..];
    PaintStart(n, s, dark0, reserved0);
    for r := -1 to 8
      invariant Painted(n, s, row + r, Left(s), dark0, matrix.dark[..], reserved0, matrix.reserved[..])
    {
      if row + r < 0 || row + r >= n {
        PaintSkip(n, s, row + r, Left(s), row + r + 1, Left(s), dark0, matrix.dark[..], reserved0, matrix.reserved[..]);
        continue;
      }
      for c := -1 to 8
        invariant Painted(n, s, row + r, col + c, dark0, matrix.dark[..], reserved0, matrix.reserved[..])
      {
        if col + c < 0 || col + c >= n {
          PaintSkip(n, s, row + r, col + c, row + r, col + c + 1, dark0, matrix.dark[..], reserved0, matrix.reserved[..]);
          continue;
        }
        var on :=
          || (r >= 0 && r <= 6 && (c == 0 || c == 6))
          || (c >= 0 && c <= 6 && (r == 0 || r == 6))
          || (r >= 2 && r <= 4 && c >= 2 && c <= 4);
        FinderShade(row, col, r, c);
        ghost var dark1, reserved1 := matrix.dark[..], matrix.reserved[..];
        matrix.SetModule(row + r, col + c, on, true);
        PaintStep(n, s, row + r, col + c, dark0, dark1, matrix.dark[..], reserved0, reserved1, matrix.reserved[..]);
      }
      PaintSkip(n, s, row + r, col + 8, row + r + 1, Left(s), dark0, matrix.dark[..], reserved0, matrix.reserved[..]);
    }
  }

  lemma FinderShade(row: nat, col: nat, r: int, c: int)
    requires -1 <= r <= 7 && -1 <= c <= 7
    ensures Shade(Finder(row, col), row + r, col + c) <==>
              || (r >= 0 && r <= 6 && (c == 0 || c == 6))
              || (c >= 0 && c <= 6 && (r == 0 || r == 6))
              || (r >= 2 && r <= 4 && c >= 2 && c <= 4)
  {
  }

  /** One alignment pattern. */
  method DrawAlignmentAt(matrix: Matrix, row: nat, col: nat)
    requires matrix.Valid() && 2 <= row < matrix.size - 2 && 2 <= col < matrix.size - 2
    modifies matrix.dark, matrix.reserved
    ensures Drawn(matrix.size, Alignment(row, col), old(matrix.dark[..]), matrix.dark[..], old(matrix.reserved[..]), matrix.reserved[..])
  {
    hide Cell, Painted, Shade, Updated;
    var n, s := matrix.size, Alignment(row, col);
    ghost var dark0, reserved0 := matrix.dark[..], matrix.reserved[..];
    PaintStart(n, s, dark0, reserved0);
    for r := -2 to 3
      invariant Painted(n, s, row + r, Left(s), dark0, matrix.dark[..], reserved0, matrix.reserved[..])
    {
      for c := -2 to 3
        invariant Painted(n, s, row + r, col + c, dark0, matrix.dark[..], reserved0, matrix.reserved[..])
      {
        var on := r == -2 || r == 2 || c == -2 || c == 2 || (r == 0 && c == 0);
        AlignmentShade(row, col, r, c);
        ghost var dark1, reserved1 := matrix.dark[..], matrix.reserved[..];
        matrix.SetModule(row + r, col + c, on, true);
        PaintStep(n, s, row + r, col + c, dark0, dark1, matrix.dark[..], reserved0, reserved1, matrix.reserved[..]);
      }
      PaintSkip(n, s, row + r, col + 3, row + r + 1, Left(s), dark0, matrix.dark[..], reserved0, matrix.reserved[..]);
    }
  }

  lemma AlignmentShade(row: nat, col: nat, r: int, c: int)
    requires -2 <= r <= 2 && -2 <= c <= 2
    ensures Shade(Alignment(row, col), row + r, col + c) <==> r == -2 || r == 2 || c == -2 || c == 2 || (r == 0 && c == 0)
  {
  }

  // ---------------------------------------------------------------- timing lines

  predicate TimingCell(n: nat, r: int, c: int)
  {
    (c == 6 && 8 <= r < n - 8) || (r == 6 && 8 <= c < n - 8)
  }

  /** The timing modules up to line `k` alternate, dark on even lines. */
  ghost predicate Timed(n: nat, k: int, dark0: seq<bool>, dark: seq<bool>, reserved0: seq<bool>, reserved: seq<bool>)
    requires |dark0| == |dark| == |reserved0| == |reserved| == n * n
  {
    forall r: nat, c: nat | r < n && c < n ::
      && Cell(dark, n, r, c) == (if TimingCell(n, r, c) && (r < k && c < k) then (r + c) % 2 == 0 else Cell(dark0, n, r, c))
      && Cell(reserved, n, r, c) == ((TimingCell(n, r, c) && (r < k && c < k)) || Cell(reserved0, n, r, c))
  }

  method DrawTiming(matrix: Matrix)
    requires matrix.Valid() && matrix.size >= 21
    modifies matrix.dark, matrix.reserved
    ensures Timed(matrix.size, matrix.size - 8, old(matrix.dark[..]), matrix.dark[..], old(matrix.reserved[..]), matrix.reserved[..])
  {
    hide Cell, Timed, Updated;
    var n := matrix.size;
    ghost var dark0, reserved0 := matrix.dark[..], matrix.reserved[..];
    TimedStart(n, dark0, reserved0);
    for r := 8 to n - 8
      invariant Timed(n, r, dark0, matrix.dark[..], reserved0, matrix.reserved[..])
    {
      var on := r % 2 == 0;
      ghost var dark1, reserved1 := matrix.dark[..], matrix.reserved[..];
      matrix.SetModule(r, 6, on, true);
      ghost var dark2, reserved2 := matrix.dark[..], matrix.reserved[..];
      matrix.SetModule(6, r, on, true);
      TimedStep(n, r, dark0, dark1, dark2, matrix.dark[..], reserved0, reserved1, reserved2, matrix.reserved[..]);
    }
  }

  lemma TimedStart(n: nat, dark: seq<bool>, reserved: seq<bool>)
    requires |dark| == |reserved| == n * n
    ensures Timed(n, 8, dark, dark, reserved, reserved)
  {
    hide Cell;
  }

  lemma TimedStep(n: nat, k: nat, dark0: seq<bool>, dark1: seq<bool>, dark2: seq<bool>, dark3: seq<bool>,
                  reserved0: seq<bool>, reserved1: seq<bool>, reserved2: seq<bool>, reserved3: seq<bool>)
    requires 8 <= k < n - 8
    requires |dark0| == |dark1| == |dark2| == |dark3| == |reserved0| == |reserved1| == |reserved2| == |reserved3| == n * n
    requires Timed(n, k, dark0, dark1, reserved0, reserved1)
    requires Updated(dark1, dark2, n, k, 6, k % 2 == 0) && Updated(reserved1, reserved2, n, k, 6, true)
    requires Updated(dark2, dark3, n, 6, k, k % 2 == 0) && Updated(reserved2, reserved3, n, 6, k, true)
    ensures Timed(n, k + 1, dark0, dark3, reserved0, reserved3)
  {
    hide Cell;
  }

  // ---------------------------------------------------------------- alignment patterns

  /** How many alignment coordinates a version has. */
  function AlignmentCount(version: nat): nat
  {
    if version == 1 then 0 else version / 7 + 2
  }

  function Intervals(version: nat): nat
  {
    if version == 32 then 26
    else (version * 4 + 4 + (2 * (version / 7 + 2) - 2) - 1) / (2 * (version / 7 + 2) - 2) * 2
  }

  /** The first step is at least twelve modules, and the others at least sixteen. */
  lemma IntervalsFit(version: nat)
    requires 2 <= version <= 40
    ensures version * 4 + 10 - (version / 7) * Intervals(version) >= 18
    ensures version >= 7 ==> Intervals(version) >= 16
    ensures Intervals(version) % 2 == 0
  {
    var k := version / 7;
    if k == 0 {} else if k == 1 {} else if k == 2 {} else if k == 3 {} else if k == 4 {} else { assert k == 5; }
  }

  lemma Scaled(a: nat, b: nat, s: nat)
    requires a <= b
    ensures a * s <= b * s
  {
  }

  /** The k-th alignment coordinate: 6, and from the far end in even steps. */
  function Position(version: nat, k: nat): (p: nat)
    requires 2 <= version <= 40 && k < AlignmentCount(version)
    ensures 6 <= p <= 4 * version + 10
  {
    if k == 0 then 6
    else
      IntervalsFit(version);
      Scaled(AlignmentCount(version) - 1 - k, version / 7, Intervals(version));
      4 * version + 10 - (AlignmentCount(version) - 1 - k) * Intervals(version)
  }

  function Positions(version: nat): (s: seq<nat>)
    requires 1 <= version <= 40
    ensures |s| == AlignmentCount(version) && forall x | x in s :: 6 <= x <= 4 * version + 10
  {
    if version == 1 then [] else seq(AlignmentCount(version), k requires 0 <= k < AlignmentCount(version) => Position(version, k))
  }

  lemma PositionStep(version: nat, k: nat)
    requires 2 <= version <= 40 && 1 <= k && k + 1 < AlignmentCount(version)
    ensures Position(version, k + 1) == Position(version, k) + Intervals(version)
  {
    var m := AlignmentCount(version) - 1 - k;
    assert m * Intervals(version) == (m - 1) * Intervals(version) + Intervals(version);
  }

  lemma PositionEnds(version: nat)
    requires 2 <= version <= 40
    ensures Position(version, 0) == 6 && Position(version, AlignmentCount(version) - 1) == 4 * version + 10
    ensures Position(version, 1) >= 18
  {
    IntervalsFit(version);
  }

  /** Coordinates are even, and any two are at least twelve apart. */
  lemma {:induction false} PositionsApart(version: nat, i: nat, j: nat)
    requires 2 <= version <= 40 && i < j < AlignmentCount(version)
    ensures Position(version, j) >= Position(version, i) + 12
    ensures Position(version, i) % 2 == 0 && Position(version, j) % 2 == 0
    decreases j
  {
    hide Position, Intervals;
    PositionEnds(version);
    PositionIsEven(version, i);
    PositionIsEven(version, j);
    if j > 1 {
      PositionStep(version, j - 1);
      IntervalsFit(version);
      if i < j - 1 { PositionsApart(version, i, j - 1); }
    }
  }

  lemma PositionIsEven(version: nat, k: nat)
    requires 2 <= version <= 40 && k < AlignmentCount(version)
    ensures Position(version, k) % 2 == 0
  {
    hide Intervals;
    IntervalsFit(version);
    if k > 0 { EvenMultiple(AlignmentCount(version) - 1 - k, Intervals(version)); }
  }

  lemma {:induction false} EvenMultiple(a: nat, s: nat)
    requires s % 2 == 0
    ensures (a * s) % 2 == 0
  {
    if a > 0 {
      EvenMultiple(a - 1, s);
      assert a * s == (a - 1) * s + s;
    }
  }

  /** `alignmentCoords`. */
  method AlignmentCoords(version: nat) returns (coords: seq<nat>)
    requires 1 <= version <= 40
    ensures coords == Positions(version)
    ensures version > 1 ==> coords[0] == 6 && coords[|coords| - 1] == 4 * version + 10
    ensures forall k | 1 < k < |coords| :: coords[k] == coords[k - 1] + Intervals(version)
  {
    hide Position, Intervals;
    if version == 1 { return []; }
    var posCount := version / 7 + 2;
    var size := version * 4 + 17;
    var intervals := if size == 145 then 26 else (size - 13 + (2 * posCount - 2) - 1) / (2 * posCount - 2) * 2;
    SameIntervals(version);
    PositionEnds(version);
    coords := [size - 7];
    for i := 1 to posCount - 1
      invariant |coords| == i && forall k | 0 <= k < i :: coords[k] == Position(version, posCount - i + k)
    {
      PositionStep(version, posCount - i - 1);
      coords := [coords[0] - intervals] + coords;
    }
    coords := [6] + coords;
    EvenlySpaced(version, coords);
  }

  lemma EvenlySpaced(version: nat, coords: seq<nat>)
    requires 2 <= version <= 40 && coords == Positions(version)
    ensures forall k | 1 < k < |coords| :: coords[k] == coords[k - 1] + Intervals(version)
  {
    hide Position, Intervals;
    forall k | 1 < k < |coords| ensures coords[k] == coords[k - 1] + Intervals(version) { PositionStep(version, k - 1); }
  }

  lemma SameIntervals(version: nat)
    requires 2 <= version <= 40
    ensures var posCount, size := version / 7 + 2, version * 4 + 17;
            Intervals(version) == if size == 145 then 26 else (size - 13 + (2 * posCount - 2) - 1) / (2 * posCount - 2) * 2
  {
  }

  /** The three corners that finders occupy have no alignment pattern. */
  predicate Corner(count: nat, i: nat, j: nat)
  {
    (i == 0 && j == 0) || (i == 0 && j == count - 1) || (i == count - 1 && j == 0)
  }

  /** Some alignment pattern before (i, j) covers the module, and gives it this shade. */
  ghost predicate Aligned(coords: seq<nat>, i: nat, j: nat, r: int, c: int, dark: bool)
  {
    exists a: nat, b: nat :: a < |coords| && b < |coords| && (a < i || (a == i && b < j)) && !Corner(|coords|, a, b)
                             && Covers(Alignment(coords[a], coords[b]), r, c) && Shade(Alignment(coords[a], coords[b]), r, c) == dark
  }

  ghost predicate AlignedSoFar(n: nat, coords: seq<nat>, i: nat, j: nat, dark0: seq<bool>, dark: seq<bool>, reserved0: seq<bool>, reserved: seq<bool>)
    requires |dark0| == |dark| == |reserved0| == |reserved| == n * n
  {
    forall r: nat, c: nat | r < n && c < n ::
      if Aligned(coords, i, j, r, c, true) || Aligned(coords, i, j, r, c, false)
      then Cell(reserved, n, r, c) && Aligned(coords, i, j, r, c, Cell(dark, n, r, c))
      else Cell(reserved, n, r, c) == Cell(reserved0, n, r, c) && Cell(dark, n, r, c) == Cell(dark0, n, r, c)
  }

  lemma AlignStart(n: nat, coords: seq<nat>, dark: seq<bool>, reserved: seq<bool>)
    requires |dark| == |reserved| == n * n
    ensures AlignedSoFar(n, coords, 0, 0, dark, dark, reserved, reserved)
  {
    hide Cell;
  }

  lemma AlignedGrows(coords: seq<nat>, i: nat, j: nat, r: int, c: int, dark: bool)
    requires i < |coords| && j < |coords|
    ensures Aligned(coords, i, j + 1, r, c, dark) <==>
              Aligned(coords, i, j, r, c, dark)
              || (!Corner(|coords|, i, j) && Covers(Alignment(coords[i], coords[j]), r, c) && Shade(Alignment(coords[i], coords[j]), r, c) == dark)
  {
    hide Covers, Shade, Corner;
  }

  lemma AlignedRow(coords: seq<nat>, i: nat, r: int, c: int, dark: bool)
    ensures Aligned(coords, i, |coords|, r, c, dark) <==> Aligned(coords, i + 1, 0, r, c, dark)
  {
    hide Covers, Shade, Corner;
  }

  lemma AlignStep(n: nat, coords: seq<nat>, i: nat, j: nat, dark0: seq<bool>, dark1: seq<bool>, dark2: seq<bool>,
                  reserved0: seq<bool>, reserved1: seq<bool>, reserved2: seq<bool>)
    requires |dark0| == |dark1| == |dark2| == |reserved0| == |reserved1| == |reserved2| == n * n
    requires i < |coords| && j < |coords| && AlignedSoFar(n, coords, i, j, dark0, dark1, reserved0, reserved1)
    requires if Corner(|coords|, i, j) then dark2 == dark1 && reserved2 == reserved1
             else Drawn(n, Alignment(coords[i], coords[j]), dark1, dark2, reserved1, reserved2)
    ensures AlignedSoFar(n, coords, i, j + 1, dark0, dark2, reserved0, reserved2)
  {
    hide Cell, Aligned, Covers, Shade, Corner;
    var s := Alignment(coords[i], coords[j]);
    forall r: nat, c: nat | r < n && c < n
      ensures if Aligned(coords, i, j + 1, r, c, true) || Aligned(coords, i, j + 1, r, c, false)
              then Cell(reserved2, n, r, c) && Aligned(coords, i, j + 1, r, c, Cell(dark2, n, r, c))
              else Cell(reserved2, n, r, c) == Cell(reserved0, n, r, c) && Cell(dark2, n, r, c) == Cell(dark0, n, r, c)
    {
      AlignedGrows(coords, i, j, r, c, true);
      AlignedGrows(coords, i, j, r, c, false);
      WholeShape(s, r, c);
    }
  }

  lemma WholeShape(s: Shape, r: int, c: int)
    ensures Covers(s, r, c) ==> Before(r, c, Top(s) + Side(s), Left(s))
  {
  }

  lemma AlignRow(n: nat, coords: seq<nat>, i: nat, dark0: seq<bool>, dark: seq<bool>, reserved0: seq<bool>, reserved: seq<bool>)
    requires |dark0| == |dark| == |reserved0| == |reserved| == n * n
    requires AlignedSoFar(n, coords, i, |coords|, dark0, dark, reserved0, reserved)
    ensures AlignedSoFar(n, coords, i + 1, 0, dark0, dark, reserved0, reserved)
  {
    hide Cell, Aligned;
    forall r: nat, c: nat, d: bool ensures Aligned(coords, i, |coords|, r, c, d) <==> Aligned(coords, i + 1, 0, r, c, d) {
      AlignedRow(coords, i, r, c, d);
    }
  }

  method DrawAlignment(matrix: Matrix, coords: seq<nat>)
    requires matrix.Valid() && matrix.size >= 21 && forall x | x in coords :: 6 <= x <= matrix.size - 7
    modifies matrix.dark, matrix.reserved
    ensures AlignedSoFar(matrix.size, coords, |coords|, 0, old(matrix.dark[..]), matrix.dark[..], old(matrix.reserved[..]), matrix.reserved[..])
  {
    hide Cell, AlignedSoFar, Drawn;
    ghost var n, dark0, reserved0 := matrix.size, matrix.dark[..], matrix.reserved[..];
    AlignStart(n, coords, dark0, reserved0);
    for i := 0 to |coords|
      invariant AlignedSoFar(n, coords, i, 0, dark0, matrix.dark[..], reserved0, matrix.reserved[..])
    {
      for j := 0 to |coords|
        invariant AlignedSoFar(n, coords, i, j, dark0, matrix.dark[..], reserved0, matrix.reserved[..])
      {
        ghost var dark1, reserved1 := matrix.dark[..], matrix.reserved[..];
        if (i == 0 && j == 0) || (i == 0 && j == |coords| - 1) || (i == |coords| - 1 && j == 0) {
          AlignStep(n, coords, i, j, dark0, dark1, dark1, reserved0, reserved1, reserved1);
          continue;
        }
        var row, col := coords[i], coords[j];
        assert row in coords && col in coords;
        DrawAlignmentAt(matrix, row, col);
        AlignStep(n, coords, i, j, dark0, dark1, matrix.dark[..], reserved0, reserved1, matrix.reserved[..]);
      }
      AlignRow(n, coords, i, dark0, matrix.dark[..], reserved0, matrix.reserved[..]);
    }
  }

  // ---------------------------------------------------------------- version information

  predicate VersionCell(n: nat, r: int, c: int)
  {
    (0 <= r < 6 && n - 11 <= c < n - 8) || (0 <= c < 6 && n - 11 <= r < n - 8)
  }

  /** Which of the 18 bits a module of either copy shows. */
  function VersionIndex(n: nat, r: int, c: int): int
  {
    if c >= n - 11 then 3 * r + c - (n - 11) else 3 * c + r - (n - 11)
  }

  ghost predicate Versioned(n: nat, k: int, bits: seq<bool>, dark0: seq<bool>, dark: seq<bool>, reserved0: seq<bool>, reserved: seq<bool>)
    requires n >= 21 && |bits| == 18 && |dark0| == |dark| == |reserved0| == |reserved| == n * n
  {
    forall r: nat, c: nat | r < n && c < n ::
      && Cell(dark, n, r, c) == (if VersionCell(n, r, c) && VersionIndex(n, r, c) < k then bits[VersionIndex(n, r, c)] else Cell(dark0, n, r, c))
      && Cell(reserved, n, r, c) == ((VersionCell(n, r, c) && VersionIndex(n, r, c) < k) || Cell(reserved0, n, r, c))
  }

  /** The two copies of the 18 version bits, lowest bit first. */
  method DrawVersion(matrix: Matrix, bits: seq<bool>)
    requires matrix.Valid() && matrix.size >= 21 && |bits| == 18
    modifies matrix.dark, matrix.reserved
    ensures Versioned(matrix.size, 18, bits, old(matrix.dark[..]), matrix.dark[..], old(matrix.reserved[..]), matrix.reserved[..])
  {
    hide Cell, Versioned, Updated;
    ghost var n, dark0, reserved0 := matrix.size, matrix.dark[..], matrix.reserved[..];
    VersionStart(n, bits, dark0, reserved0);
    for i := 0 to 18
      invariant Versioned(n, i, bits, dark0, matrix.dark[..], reserved0, matrix.reserved[..])
    {
      var row, col := i / 3, i % 3 + matrix.size - 11;
      ghost var dark1, reserved1 := matrix.dark[..], matrix.reserved[..];
      matrix.SetModule(row, col, bits[i], true);
      ghost var dark2, reserved2 := matrix.dark[..], matrix.reserved[..];
      matrix.SetModule(col, row, bits[i], true);
      VersionStep(n, i, bits, dark0, dark1, dark2, matrix.dark[..], reserved0, reserved1, reserved2, matrix.reserved[..]);
    }
  }

  lemma VersionStart(n: nat, bits: seq<bool>, dark: seq<bool>, reserved: seq<bool>)
    requires n >= 21 && |bits| == 18 && |dark| == |reserved| == n * n
    ensures Versioned(n, 0, bits, dark, dark, reserved, reserved)
  {
    hide Cell;
  }

  lemma VersionStep(n: nat, k: nat, bits: seq<bool>, dark0: seq<bool>, dark1: seq<bool>, dark2: seq<bool>, dark3: seq<bool>,
                    reserved0: seq<bool>, reserved1: seq<bool>, reserved2: seq<bool>, reserved3: seq<bool>)
    requires n >= 21 && k < 18 && |bits| == 18
    requires |dark0| == |dark1| == |dark2| == |dark3| == |reserved0| == |reserved1| == |reserved2| == |reserved3| == n * n
    requires Versioned(n, k, bits, dark0, dark1, reserved0, reserved1)
    requires Updated(dark1, dark2, n, k / 3, k % 3 + n - 11, bits[k]) && Updated(reserved1, reserved2, n, k / 3, k % 3 + n - 11, true)
    requires Updated(dark2, dark3, n, k % 3 + n - 11, k / 3, bits[k]) && Updated(reserved2, reserved3, n, k % 3 + n - 11, k / 3, true)
    ensures Versioned(n, k + 1, bits, dark0, dark3, reserved0, reserved3)
  {
    hide Cell;
  }
}
