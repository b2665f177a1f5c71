/**
  The zigzag of section 7.7 of ISO/IEC 18004:2015 for any odd size from 7 up: two-column strips from
  right to left, upwards and downwards in turn, skipping column 6.
*/
module Zigzag {
  datatype Module = Module(row: nat, col: nat)

  predicate OddSize(n: nat) { n >= 7 && n % 2 == 1 }

  function Strips(n: nat): nat
    requires OddSize(n)
  {
    (n - 1) / 2
  }

  /** The right column of strip p. */
  function RightColumn(n: nat, p: int): int
  {
    if n - 1 - 2 * p > 6 then n - 1 - 2 * p else n - 2 - 2 * p
  }

  /** The row at step s of strip p: even strips go up, odd strips go down. */
  function RowAt(n: nat, p: nat, s: nat): int
  {
    if p % 2 == 0 then n - 1 - s else s
  }

  function At(n: nat, p: nat, s: nat, side: nat): Module
    requires OddSize(n) && p < Strips(n) && s < n && side < 2
  {
    Module(RowAt(n, p, s), RightColumn(n, p) - side)
  }

  /** The modules visited before step s of strip p. */
  function Visited(n: nat, p: nat, s: nat): seq<Module>
    requires OddSize(n) && s <= n && (p < Strips(n) || (p == Strips(n) && s == 0))
    decreases p, s
  {
    if s > 0 then Visited(n, p, s - 1) + [At(n, p, s - 1, 0), At(n, p, s - 1, 1)]
    else if p > 0 then Visited(n, p - 1, n)
    else []
  }

  function Order(n: nat): seq<Module>
    requires OddSize(n)
  {
    Visited(n, Strips(n), 0)
  }

  // ---------------------------------------------------------------- where a module is in the order

  function StripOf(n: nat, m: Module): int
  {
    if m.col > 6 then (n - 1 - m.col) / 2 else (n - 2 - m.col) / 2
  }

  function StepOf(n: nat, m: Module): int
  {
    if StripOf(n, m) % 2 == 0 then n - 1 - m.row else m.row
  }

  function SideOf(n: nat, m: Module): int
  {
    RightColumn(n, StripOf(n, m)) - m.col
  }

  predicate OnGrid(n: nat, m: Module) { m.row < n && m.col < n && m.col != 6 }

  lemma PlaceOfAt(n: nat, p: nat, s: nat, side: nat)
    requires OddSize(n) && p < Strips(n) && s < n && side < 2
    ensures var m := At(n, p, s, side); OnGrid(n, m) && StripOf(n, m) == p && StepOf(n, m) == s && SideOf(n, m) == side
  {
  }

  lemma AtOfPlace(n: nat, m: Module)
    requires OddSize(n) && OnGrid(n, m)
    ensures 0 <= StripOf(n, m) < Strips(n) && 0 <= StepOf(n, m) < n && 0 <= SideOf(n, m) < 2
    ensures At(n, StripOf(n, m), StepOf(n, m), SideOf(n, m)) == m
  {
  }

  predicate Earlier(n: nat, m: Module, p: nat, s: nat)
  {
    StripOf(n, m) < p || (StripOf(n, m) == p && StepOf(n, m) < s)
  }

  /** Exactly the modules of earlier steps have been visited, and none of them twice. */
  lemma {:induction false} VisitedIsEarlier(n: nat, p: nat, s: nat)
    requires OddSize(n) && s <= n && (p < Strips(n) || (p == Strips(n) && s == 0))
    ensures forall m: Module :: m in Visited(n, p, s) <==> OnGrid(n, m) && Earlier(n, m, p, s)
    ensures forall i, j | 0 <= i < j < |Visited(n, p, s)| :: Visited(n, p, s)[i] != Visited(n, p, s)[j]
    decreases p, s
  {
    if s > 0 {
      var v, a, b := Visited(n, p, s - 1), At(n, p, s - 1, 0), At(n, p, s - 1, 1);
      VisitedIsEarlier(n, p, s - 1);
      PlaceOfAt(n, p, s - 1, 0);
      PlaceOfAt(n, p, s - 1, 1);
      forall m: Module | OnGrid(n, m) && Earlier(n, m, p, s) && m !in v ensures m == a || m == b {
        AtOfPlace(n, m);
      }
    } else if p > 0 {
      VisitedIsEarlier(n, p - 1, n);
      forall m: Module | OnGrid(n, m) ensures Earlier(n, m, p - 1, n) <==> Earlier(n, m, p, 0) {
        AtOfPlace(n, m);
      }
    } else {
      forall m: Module | OnGrid(n, m) ensures !Earlier(n, m, 0, 0) {
        AtOfPlace(n, m);
      }
    }
  }

  /** The zigzag visits every module outside column 6 exactly once. */
  lemma OrderIsExact(n: nat)
    requires OddSize(n)
    ensures forall m: Module :: m in Order(n) <==> OnGrid(n, m)
    ensures forall i, j | 0 <= i < j < |Order(n)| :: Order(n)[i] != Order(n)[j]
  {
    VisitedIsEarlier(n, Strips(n), 0);
    forall m: Module | OnGrid(n, m) ensures Earlier(n, m, Strips(n), 0) {
      AtOfPlace(n, m);
    }
  }
}

/** The flat module grid of src/lib/paymentQr.ts. */
module Grid {
  function Idx(n: nat, row: nat, col: nat): nat
  {
    row * n + col
  }

  lemma IdxInRange(n: nat, row: nat, col: nat)
    requires row < n && col < n
    ensures Idx(n, row, col) < n * n
  {
    assert (row + 1) * n <= n * n;
  }

  lemma IdxInjective(n: nat, row: nat, col: nat, row': nat, col': nat)
    requires col < n && col' < n && Idx(n, row, col) == Idx(n, row', col')
    ensures row == row' && col == col'
  {
    assert (row - row') * n == col' - col;
    if row > row' { Multiple(row - row', n); } else if row < row' { Multiple(row' - row, n); }
  }

  lemma Multiple(k: int, n: nat)
    requires k >= 1
    ensures k * n >= n
  {
  }

  /** The cell of a flat grid. */
  function Cell(cells: seq<bool>, n: nat, row: nat, col: nat): bool
    requires |cells| == n * n && row < n && col < n
  {
    IdxInRange(n, row, col);
    cells[Idx(n, row, col)]
  }

  /** `g` is `f` with one cell changed. */
  ghost predicate Updated(f: seq<bool>, g: seq<bool>, n: nat, row: nat, col: nat, value: bool)
    requires |f| == |g| == n * n && row < n && col < n
  {
    forall r: nat, c: nat | r < n && c < n :: Cell(g, n, r, c) == if r == row && c == col then value else Cell(f, n, r, c)
  }

  lemma UpdateCell(f: seq<bool>, n: nat, row: nat, col: nat, value: bool)
    requires |f| == n * n && row < n && col < n
    ensures Idx(n, row, col) < n * n && Updated(f, f[Idx(n, row, col) := value], n, row, col, value)
  {
    hide Idx;
    IdxInRange(n, row, col);
    var g := f[Idx(n, row, col) := value];
    forall r: nat, c: nat | r < n && c < n
      ensures Cell(g, n, r, c) == if r == row && c == col then value else Cell(f, n, r, c)
    {
      IdxInRange(n, r, c);
      if Idx(n, r, c) == Idx(n, row, col) { IdxInjective(n, r, c, row, col); }
    }
  }

  class Matrix {
    const size: nat
    const dark: array<bool>
    const reserved: array<bool>

    ghost predicate Valid()
      reads this
    {
      dark.Length == reserved.Length == size * size && dark != reserved
    }

    constructor (size: nat)
      ensures Valid() && this.size == size && fresh(dark) && fresh(reserved)
      ensures forall i | 0 <= i < size * size :: !dark[i] && !reserved[i]
    {
      this.size := size;
      dark := new bool[size * size](_ => false);
      reserved := new bool[size * size](_ => false);
    }

    function IsDark(row: nat, col: nat): bool
      requires Valid() && row < size && col < size
      reads this, dark
    {
      Cell(dark[..], size, row, col)
    }

    function IsReserved(row: nat, col: nat): bool
      requires Valid() && row < size && col < size
      reads this, reserved
    {
      Cell(reserved[..], size, row, col)
    }

    /** `setModule`. */
    method SetModule(row: nat, col: nat, on: bool, reserve: bool)
      requires Valid() && row < size && col < size
      modifies dark, reserved
      ensures Updated(old(dark[..]), dark[..], size, row, col, on)
      ensures if reserve then Updated(old(reserved[..]), reserved[..], size, row, col, true) else reserved[..] == old(reserved[..])
    {
      UpdateCell(dark[..], size, row, col, on);
      UpdateCell(reserved[..], size, row, col, true);
      var i := row * size + col;
      dark[i] := on;
      if reserve { reserved[i] := true; }
    }
  }
}

/** Writing the codeword bits along the zigzag, and the reader that undoes it. */
module DataPlacement {
  import opened Galois
  import opened BitStream
  import opened Zigzag
  import opened Grid

  /** The unreserved modules of `v`, in order. */
  function Free(n: nat, v: seq<Module>, reserved: seq<bool>): seq<Module>
    requires |reserved| == n * n && forall m | m in v :: m.row < n && m.col < n
  {
    if v == [] then []
    else
      var m := v[|v| - 1];
      Free(n, v[..|v| - 1], reserved) + if Cell(reserved, n, m.row, m.col) then [] else [m]
  }

  lemma {:induction false} FreeIsSubset(n: nat, v: seq<Module>, reserved: seq<bool>)
    requires |reserved| == n * n && forall m | m in v :: m.row < n && m.col < n
    ensures forall m: Module :: m in Free(n, v, reserved) <==> m in v && !Cell(reserved, n, m.row, m.col)
    decreases |v|
  {
    if v != [] {
      FreeIsSubset(n, v[..|v| - 1], reserved);
      assert v == v[..|v| - 1] + [v[|v| - 1]];
    }
  }

  lemma {:induction false} FreeIsDistinct(n: nat, v: seq<Module>, reserved: seq<bool>)
    requires |reserved| == n * n && forall m | m in v :: m.row < n && m.col < n
    requires forall i, j | 0 <= i < j < |v| :: v[i] != v[j]
    ensures forall i, j | 0 <= i < j < |Free(n, v, reserved)| :: Free(n, v, reserved)[i] != Free(n, v, reserved)[j]
    decreases |v|
  {
    if v != [] {
      FreeIsDistinct(n, v[..|v| - 1], reserved);
      FreeIsSubset(n, v[..|v| - 1], reserved);
    }
  }

  /** Bit k of the codewords, most significant bit of each byte first; zero past the end. */
  function DataBit(data: seq<Byte>, k: nat): bool
  {
    k / 8 < |data| && Bit(data[k / 8], 7 - k % 8)
  }

  /** The free modules of `v` hold the data bits in order, and no other module has changed. */
  ghost predicate Placed(n: nat, v: seq<Module>, reserved: seq<bool>, before: seq<bool>, dark: seq<bool>, data: seq<Byte>)
    requires |reserved| == |before| == |dark| == n * n && forall m | m in v :: m.row < n && m.col < n
  {
    && (forall m | m in Free(n, v, reserved) :: m.row < n && m.col < n)
    && (forall k | 0 <= k < |Free(n, v, reserved)| ::
          Cell(dark, n, Free(n, v, reserved)[k].row, Free(n, v, reserved)[k].col) == DataBit(data, k))
    && (forall m: Module | m.row < n && m.col < n && m !in Free(n, v, reserved) ::
          Cell(dark, n, m.row, m.col) == Cell(before, n, m.row, m.col))
  }

  lemma PlacedStart(n: nat, reserved: seq<bool>, dark: seq<bool>, data: seq<Byte>)
    requires |reserved| == |dark| == n * n
    ensures Placed(n, [], reserved, dark, dark, data)
  {
  }

  lemma PlacedReserved(n: nat, v: seq<Module>, m: Module, reserved: seq<bool>, before: seq<bool>, dark: seq<bool>, data: seq<Byte>)
    requires |reserved| == |before| == |dark| == n * n && (forall k | k in v :: k.row < n && k.col < n) && m.row < n && m.col < n
    requires Placed(n, v, reserved, before, dark, data) && Cell(reserved, n, m.row, m.col)
    ensures Placed(n, v + [m], reserved, before, dark, data)
    ensures Free(n, v + [m], reserved) == Free(n, v, reserved)
  {
    assert (v + [m])[..|v|] == v;
  }

  lemma FreeSnoc(n: nat, v: seq<Module>, m: Module, reserved: seq<bool>)
    requires |reserved| == n * n && (forall k | k in v :: k.row < n && k.col < n) && m.row < n && m.col < n && m !in v
    requires !Cell(reserved, n, m.row, m.col)
    ensures Free(n, v + [m], reserved) == Free(n, v, reserved) + [m] && m !in Free(n, v, reserved)
  {
    hide Cell;
    assert (v + [m])[..|v|] == v;
    FreeIsSubset(n, v, reserved);
  }

  lemma PlacedFree(n: nat, v: seq<Module>, m: Module, reserved: seq<bool>, before: seq<bool>, dark: seq<bool>, after: seq<bool>, data: seq<Byte>)
    requires |reserved| == |before| == |dark| == |after| == n * n
    requires (forall k | k in v :: k.row < n && k.col < n) && m.row < n && m.col < n && m !in v
    requires Placed(n, v, reserved, before, dark, data) && !Cell(reserved, n, m.row, m.col)
    requires Updated(dark, after, n, m.row, m.col, DataBit(data, |Free(n, v, reserved)|))
    ensures Placed(n, v + [m], reserved, before, after, data)
    ensures |Free(n, v + [m], reserved)| == |Free(n, v, reserved)| + 1
  {
    hide Free, Cell, DataBit;
    var f, g := Free(n, v, reserved), Free(n, v + [m], reserved);
    FreeSnoc(n, v, m, reserved);
    forall k | 0 <= k < |g| ensures Cell(after, n, g[k].row, g[k].col) == DataBit(data, k) {
      if k < |f| {
        assert f[k] in f;
        assert g[k] == f[k] && f[k] != m;
      }
    }
    forall x: Module | x.row < n && x.col < n && x !in g ensures Cell(after, n, x.row, x.col) == Cell(before, n, x.row, x.col) {
      assert x !in f && x != m;
    }
  }

  /** The loops have visited everything before step s of strip p and consumed k bits. */
  ghost predicate Progress(n: nat, p: nat, s: nat, reserved: seq<bool>, before: seq<bool>, dark: seq<bool>, data: seq<Byte>, k: int)
    requires OddSize(n) && s <= n && (p < Strips(n) || (p == Strips(n) && s == 0))
  {
    && |reserved| == |before| == |dark| == n * n
    && (forall m | m in Visited(n, p, s) :: m.row < n && m.col < n)
    && Placed(n, Visited(n, p, s), reserved, before, dark, data)
    && k == |Free(n, Visited(n, p, s), reserved)|
  }

  lemma ProgressStart(n: nat, reserved: seq<bool>, dark: seq<bool>, data: seq<Byte>)
    requires OddSize(n) && |reserved| == |dark| == n * n
    ensures Progress(n, 0, 0, reserved, dark, dark, data, 0)
  {
    PlacedStart(n, reserved, dark, data);
  }

  lemma ProgressWrap(n: nat, p: nat, reserved: seq<bool>, before: seq<bool>, dark: seq<bool>, data: seq<Byte>, k: int)
    requires OddSize(n) && p < Strips(n) && Progress(n, p, n, reserved, before, dark, data, k)
    ensures Progress(n, p + 1, 0, reserved, before, dark, data, k)
  {
    assert Visited(n, p + 1, 0) == Visited(n, p, n);
  }

  /** `buildMatrix`, the placement loop. */
  method PlaceData(matrix: Matrix, data: seq<Byte>)
    requires matrix.Valid() && OddSize(matrix.size)
    modifies matrix.dark
    ensures forall m | m in Order(matrix.size) :: m.row < matrix.size && m.col < matrix.size
    ensures Placed(matrix.size, Order(matrix.size), matrix.reserved[..], old(matrix.dark[..]), matrix.dark[..], data)
  {
    hide Progress;
    var n := matrix.size;
    ghost var before, res := matrix.dark[..], matrix.reserved[..];
    ghost var p := 0;
    var inc := -1;
    var row: int := n - 1;
    var bitIndex: int := 7;
    var byteIndex: nat := 0;
    ProgressStart(n, res, before, data);
    var col: int := n - 1;
    while col > 0
      invariant p <= Strips(n)
      invariant col == if n - 1 - 2 * p >= 6 then n - 1 - 2 * p else n - 2 - 2 * p
      invariant inc == if p % 2 == 0 then -1 else 1
      invariant row == if p % 2 == 0 then n - 1 else 0
      invariant 0 <= bitIndex <= 7
      invariant Progress(n, p, 0, res, before, matrix.dark[..], data, 8 * byteIndex + 7 - bitIndex)
      decreases col
    {
      if col == 6 { col := col - 1; }
      byteIndex, bitIndex, row, inc := PlaceStrip(matrix, data, p, row, col, inc, byteIndex, bitIndex, before);
      p := p + 1;
      col := col - 2;
    }
    FinishPlacement(n, p, res, before, matrix.dark[..], data, 8 * byteIndex + 7 - bitIndex);
  }

  /** The inner loop: one strip from end to end, leaving the row at the edge it reached and the direction turned. */
  method PlaceStrip(matrix: Matrix, data: seq<Byte>, ghost p: nat, row: nat, col: nat, inc: int, byteIndex: nat, bitIndex: nat,
                    ghost before: seq<bool>) returns (byteIndex': nat, bitIndex': nat, row': int, inc': int)
    requires matrix.Valid() && OddSize(matrix.size) && p < Strips(matrix.size)
    requires col == RightColumn(matrix.size, p) && inc == (if p % 2 == 0 then -1 else 1)
    requires row == RowAt(matrix.size, p, 0) && bitIndex <= 7
    requires Progress(matrix.size, p, 0, matrix.reserved[..], before, matrix.dark[..], data, 8 * byteIndex + 7 - bitIndex)
    modifies matrix.dark
    ensures bitIndex' <= 7 && row' == RowAt(matrix.size, p + 1, 0) && inc' == -inc
    ensures Progress(matrix.size, p + 1, 0, matrix.reserved[..], before, matrix.dark[..], data, 8 * byteIndex' + 7 - bitIndex')
  {
    hide Progress;
    var n := matrix.size;
    ghost var s := 0;
    row', inc', byteIndex', bitIndex' := row, inc, byteIndex, bitIndex;
    while true
      invariant s < n && row' == RowAt(n, p, s) && inc' == inc
      invariant bitIndex' <= 7
      invariant Progress(n, p, s, matrix.reserved[..], before, matrix.dark[..], data, 8 * byteIndex' + 7 - bitIndex')
      decreases n - s
    {
      byteIndex', bitIndex' := PlaceStep(matrix, data, p, s, row', col, byteIndex', bitIndex', before);
      s := s + 1;
      row' := row' + inc';
      if row' < 0 || row' >= n {
        row' := row' - inc';
        inc' := -inc';
        break;
      }
    }
    ProgressWrap(n, p, matrix.reserved[..], before, matrix.dark[..], data, 8 * byteIndex' + 7 - bitIndex');
  }

  lemma FinishPlacement(n: nat, p: nat, reserved: seq<bool>, before: seq<bool>, dark: seq<bool>, data: seq<Byte>, k: int)
    requires OddSize(n) && p == Strips(n) && Progress(n, p, 0, reserved, before, dark, data, k)
    ensures forall m | m in Order(n) :: m.row < n && m.col < n
    ensures |reserved| == |before| == |dark| == n * n && Placed(n, Order(n), reserved, before, dark, data)
  {
  }

  /** The `c` loop: both modules of one step. */
  method PlaceStep(matrix: Matrix, data: seq<Byte>, ghost p: nat, ghost s: nat, row: nat, col: nat, byteIndex: nat, bitIndex: nat,
                   ghost before: seq<bool>) returns (byteIndex': nat, bitIndex': nat)
    requires matrix.Valid() && OddSize(matrix.size) && p < Strips(matrix.size) && s < matrix.size
    requires row == RowAt(matrix.size, p, s) && col == RightColumn(matrix.size, p) && bitIndex <= 7
    requires Progress(matrix.size, p, s, matrix.reserved[..], before, matrix.dark[..], data, 8 * byteIndex + 7 - bitIndex)
    modifies matrix.dark
    ensures bitIndex' <= 7
    ensures Progress(matrix.size, p, s + 1, matrix.reserved[..], before, matrix.dark[..], data, 8 * byteIndex' + 7 - bitIndex')
  {
    ghost var n, v := matrix.size, Visited(matrix.size, p, s);
    PlaceOfAt(n, p, s, 1);
    ghost var a, b := At(n, p, s, 0), At(n, p, s, 1);
    assert v == v + [];
    byteIndex', bitIndex' := PlaceSide(matrix, data, p, s, 0, row, col, byteIndex, bitIndex, v, before);
    byteIndex', bitIndex' := PlaceSide(matrix, data, p, s, 1, row, col - 1, byteIndex', bitIndex', v + [a], before);
    assert Visited(n, p, s + 1) == v + [a] + [b];
  }

  /** One turn of the `c` loop. */
  method PlaceSide(matrix: Matrix, data: seq<Byte>, ghost p: nat, ghost s: nat, ghost side: nat, row: nat, cc: nat, byteIndex: nat, bitIndex: nat,
                   ghost v: seq<Module>, ghost before: seq<bool>) returns (byteIndex': nat, bitIndex': nat)
    requires matrix.Valid() && OddSize(matrix.size) && p < Strips(matrix.size) && s < matrix.size && side < 2
    requires Module(row, cc) == At(matrix.size, p, s, side) && bitIndex <= 7
    requires v == Visited(matrix.size, p, s) + if side == 0 then [] else [At(matrix.size, p, s, 0)]
    requires (forall m | m in v :: m.row < matrix.size && m.col < matrix.size) && |before| == matrix.size * matrix.size
    requires Placed(matrix.size, v, matrix.reserved[..], before, matrix.dark[..], data)
    requires 8 * byteIndex + 7 - bitIndex == |Free(matrix.size, v, matrix.reserved[..])|
    modifies matrix.dark
    ensures row < matrix.size && cc < matrix.size && bitIndex' <= 7
    ensures Placed(matrix.size, v + [Module(row, cc)], matrix.reserved[..], before, matrix.dark[..], data)
    ensures 8 * byteIndex' + 7 - bitIndex' == |Free(matrix.size, v + [Module(row, cc)], matrix.reserved[..])|
  {
    hide Placed, Free, Visited, DataBit, Bit, RowAt, RightColumn, Cell, Updated;
    ghost var n, m, res := matrix.size, Module(row, cc), matrix.reserved[..];
    NotYetVisited(n, p, s, side, v, m);
    byteIndex', bitIndex' := byteIndex, bitIndex;
    if !matrix.IsReserved(row, cc) {
      var dark := false;
      if byteIndex < |data| { dark := Bit(data[byteIndex], bitIndex); }
      ghost var now := matrix.dark[..];
      CursorBit(data, byteIndex, bitIndex);
      UpdateCell(now, n, row, cc, dark);
      matrix.dark[row * matrix.size + cc] := dark;
      PlacedFree(n, v, m, res, before, now, matrix.dark[..], data);
      if bitIndex == 0 {
        byteIndex', bitIndex' := byteIndex + 1, 7;
      } else {
        bitIndex' := bitIndex - 1;
      }
    } else {
      PlacedReserved(n, v, m, res, before, matrix.dark[..], data);
    }
  }

  /** The next module of the zigzag is on the grid and has not been visited. */
  lemma NotYetVisited(n: nat, p: nat, s: nat, side: nat, v: seq<Module>, m: Module)
    requires OddSize(n) && p < Strips(n) && s < n && side < 2 && m == At(n, p, s, side)
    requires v == Visited(n, p, s) + if side == 0 then [] else [At(n, p, s, 0)]
    ensures m !in v && m.row < n && m.col < n
  {
    hide Visited;
    PlaceOfAt(n, p, s, side);
    VisitedIsEarlier(n, p, s);
    PlaceOfAt(n, p, s, 0);
  }

  /** The byte and bit counters point at the next data bit. */
  lemma CursorBit(data: seq<Byte>, byteIndex: nat, bitIndex: nat)
    requires bitIndex <= 7
    ensures DataBit(data, 8 * byteIndex + 7 - bitIndex) == if byteIndex < |data| then Bit(data[byteIndex], bitIndex) else false
  {
    hide Bit;
    var k := 8 * byteIndex + 7 - bitIndex;
    assert k / 8 == byteIndex && 7 - k % 8 == bitIndex;
  }
}
