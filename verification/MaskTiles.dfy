/**
  The eight mask patterns as tiles that repeat over the grid from the upper left module, as they are
  pictured in section 7.8.2 of ISO/IEC 18004:2015.
*/
module MaskTiles {
  import opened Arithmetic

  /** One period of a mask, row by row; `X` is a module that is flipped. No other number has a mask. */
  function Tile(mask: int): (rows: seq<string>)
    ensures |rows| > 0 && forall i | 0 <= i < |rows| :: |rows[i]| == |rows[0]| > 0
  {
    match mask
    case 0 => ["X.",
               ".X"]
    case 1 => ["X",
               "."]
    case 2 => ["X.."]
    case 3 => ["X..",
               "..X",
               ".X."]
    case 4 => ["XXX...",
               "XXX...",
               "...XXX",
               "...XXX"]
    case 5 => ["XXXXXX",
               "X.....",
               "X..X..",
               "X.X.X.",
               "X..X..",
               "X....."]
    case 6 => ["XXXXXX",
               "XXX...",
               "XX.XX.",
               "X.X.X.",
               "X.XX.X",
               "X...XX"]
    case 7 => ["X.X.X.",
               "...XXX",
               "X...XX",
               ".X.X.X",
               "XXX...",
               ".XXX.."]
    case _ => ["."]
  }

  /** The mask flips this module. */
  predicate Flips(mask: int, row: nat, col: nat)
  {
    var tile := Tile(mask);
    tile[row % |tile|][col % |tile[0]|] == 'X'
  }

  /** `maskAt`. */
  function MaskAt(mask: int, row: nat, col: nat): bool
  {
    if mask == 0 then (row + col) % 2 == 0
    else if mask == 1 then row % 2 == 0
    else if mask == 2 then col % 3 == 0
    else if mask == 3 then (row + col) % 3 == 0
    else if mask == 4 then (row / 2 + col / 3) % 2 == 0
    else if mask == 5 then (row * col) % 2 + (row * col) % 3 == 0
    else if mask == 6 then ((row * col) % 2 + (row * col) % 3) % 2 == 0
    else if mask == 7 then ((row * col) % 3 + (row + col) % 2) % 2 == 0
    else false
  }

  // ---------------------------------------------------------------- the formulas draw the tiles

  lemma MaskZero(row: nat, col: nat)
    ensures MaskAt(0, row, col) == Flips(0, row, col)
  {
    var s := row % 2;
    assert col % 2 == 0 || col % 2 == 1;
    if s == 0 {} else {}
  }

  lemma MaskOneTwo(row: nat, col: nat)
    ensures MaskAt(1, row, col) == Flips(1, row, col) && MaskAt(2, row, col) == Flips(2, row, col)
  {
  }

  lemma MaskThree(row: nat, col: nat)
    ensures MaskAt(3, row, col) == Flips(3, row, col)
  {
    var s, t := row % 3, col % 3;
    assert (row + col) % 3 == (s + t) % 3;
    if s == 0 {} else if s == 1 {} else {}
  }

  lemma FourTile(s: nat, t: nat)
    requires s < 4 && t < 6
    ensures MaskAt(4, s, t) == Flips(4, s, t)
  {
    if s == 0 {} else if s == 1 {} else if s == 2 {} else {}
  }

  lemma FourRepeats(row: nat, col: nat)
    ensures MaskAt(4, row, col) == MaskAt(4, row % 4, col % 6)
  {
    var s, t := row % 4, col % 6;
    assert row / 2 == 2 * (row / 4) + s / 2 && col / 3 == 2 * (col / 6) + t / 3;
  }

  lemma FourBySix(row: nat, col: nat)
    ensures Flips(4, row, col) == Flips(4, row % 4, col % 6)
  {
    var s, t := row % 4, col % 6;
    assert |Tile(4)| == 4 && |Tile(4)[0]| == 6;
    hide Tile;
    assert s % 4 == s && t % 6 == t;
  }

  lemma MaskFour(row: nat, col: nat)
    ensures MaskAt(4, row, col) == Flips(4, row, col)
  {
    hide MaskAt, Flips, Tile;
    FourRepeats(row, col);
    FourBySix(row, col);
    FourTile(row % 4, col % 6);
  }

  /** A product's remainder depends on the factors' remainders only. */
  lemma ProductMod(a: nat, b: nat, m: nat)
    requires m > 0
    ensures (a * b) % m == ((a % m) * (b % m)) % m
  {
    var q, s, p, t := a / m, a % m, b / m, b % m;
    var st := s * t;
    var k := m * q * p + q * t + p * s;
    assert a * b == (m * q + s) * (m * p + t) == k * m + st;
    Quotients(k * m + st, m, k + st / m, st % m);
  }

  lemma Products(row: nat, col: nat)
    ensures (row * col) % 2 == if row % 2 == 0 || col % 2 == 0 then 0 else 1
    ensures (row * col) % 3 == if row % 3 == 0 || col % 3 == 0 then 0 else if row % 3 == col % 3 then 1 else 2
  {
    ProductMod(row, col, 2);
    ProductMod(row, col, 3);
    if row % 3 == 0 {} else if row % 3 == 1 {} else {}
  }

  /** The three masks that look at products, as functions of the remainders by six. */
  predicate ProductMask(mask: int, s: nat, t: nat)
  {
    var two := if s % 2 == 0 || t % 2 == 0 then 0 else 1;
    var three := if s % 3 == 0 || t % 3 == 0 then 0 else if s % 3 == t % 3 then 1 else 2;
    ProductFormula(mask, two, three, (s + t) % 2)
  }

  lemma ProductTileFive(s: nat, t: nat)
    requires s < 6 && t < 6
    ensures ProductMask(5, s, t) == Flips(5, s, t)
  {
    if s == 0 {} else if s == 1 {} else if s == 2 {} else if s == 3 {} else if s == 4 {} else {}
  }

  lemma ProductTileSix(s: nat, t: nat)
    requires s < 6 && t < 6
    ensures ProductMask(6, s, t) == Flips(6, s, t)
  {
    if s == 0 {} else if s == 1 {} else if s == 2 {} else if s == 3 {} else if s == 4 {} else {}
  }

  lemma ProductTileSeven(s: nat, t: nat)
    requires s < 6 && t < 6
    ensures ProductMask(7, s, t) == Flips(7, s, t)
  {
    if s == 0 {} else if s == 1 {} else if s == 2 {} else if s == 3 {} else if s == 4 {} else {}
  }

  lemma SixRemainders(n: nat)
    ensures n % 6 % 2 == n % 2 && n % 6 % 3 == n % 3 && n % 6 < 6
  {
  }

  lemma SumParity(row: nat, col: nat)
    ensures (row + col) % 2 == (row % 6 + col % 6) % 2
  {
  }

  /** The formulas on the two remainders of the product and the parity of the sum. */
  predicate ProductFormula(mask: int, two: nat, three: nat, parity: nat)
  {
    if mask == 5 then two + three == 0 else if mask == 6 then (two + three) % 2 == 0 else (three + parity) % 2 == 0
  }

  lemma ByFormula(mask: int, row: nat, col: nat)
    requires 5 <= mask <= 7
    ensures MaskAt(mask, row, col) == ProductFormula(mask, (row * col) % 2, (row * col) % 3, (row + col) % 2)
  {
  }

  lemma MasksOfProducts(mask: int, row: nat, col: nat)
    requires 5 <= mask <= 7
    ensures MaskAt(mask, row, col) == ProductMask(mask, row % 6, col % 6)
  {
    hide Flips, ProductFormula;
    assert MaskAt(mask, row, col) == ProductFormula(mask, (row * col) % 2, (row * col) % 3, (row + col) % 2) by { ByFormula(mask, row, col); }
    hide MaskAt;
    Products(row, col);
    SixRemainders(row);
    SixRemainders(col);
    SumParity(row, col);
  }

  lemma SixBySix(mask: int, row: nat, col: nat)
    requires 5 <= mask <= 7
    ensures Flips(mask, row, col) == Flips(mask, row % 6, col % 6)
  {
    var s, t := row % 6, col % 6;
    assert |Tile(mask)| == 6 && |Tile(mask)[0]| == 6;
    hide Tile;
    assert s % 6 == s && t % 6 == t;
  }

  lemma NoOtherMask(mask: int, row: nat, col: nat)
    requires !(0 <= mask < 8)
    ensures !MaskAt(mask, row, col) && !Flips(mask, row, col)
  {
  }

  /** The formula of every mask flips exactly the modules its tile marks. */
  lemma MaskIsTiled(mask: int, row: nat, col: nat)
    ensures MaskAt(mask, row, col) == Flips(mask, row, col)
  {
    hide MaskAt, Flips, ProductMask, Tile;
    if mask == 0 {
      MaskZero(row, col);
    } else if mask == 1 || mask == 2 {
      MaskOneTwo(row, col);
    } else if mask == 3 {
      MaskThree(row, col);
    } else if mask == 4 {
      MaskFour(row, col);
    } else if 5 <= mask <= 7 {
      MasksOfProducts(mask, row, col);
      SixBySix(mask, row, col);
      if mask == 5 { ProductTileFive(row % 6, col % 6); }
      if mask == 6 { ProductTileSix(row % 6, col % 6); }
      if mask == 7 { ProductTileSeven(row % 6, col % 6); }
    } else {
      NoOtherMask(mask, row, col);
    }
  }

  /** Mask 0 is a chessboard that starts flipped. */
  lemma ChessboardLaw(row: nat, col: nat)
    ensures Flips(0, 0, 0) && Flips(0, row + 1, col) != Flips(0, row, col) && Flips(0, row, col + 1) != Flips(0, row, col)
  {
    hide Flips;
    MaskZero(0, 0);
    MaskZero(row, col);
    MaskZero(row + 1, col);
    MaskZero(row, col + 1);
  }

  /** Mask 1 flips every second row and mask 2 every third column, from the first. */
  lemma StripeLaw(row: nat, col: nat)
    ensures Flips(1, 0, col) && Flips(1, row + 1, col) != Flips(1, row, col)
    ensures Flips(2, row, 0) && (Flips(2, row, col) <==> Flips(2, row, col + 3)) && !Flips(2, row, 1) && !Flips(2, row, 2)
  {
    hide Flips;
    MaskOneTwo(0, col);
    MaskOneTwo(row, col);
    MaskOneTwo(row + 1, col);
    MaskOneTwo(row, 0);
    MaskOneTwo(row, 1);
    MaskOneTwo(row, 2);
    MaskOneTwo(row, col + 3);
  }

  /** Mask 3 flips every third diagonal, from the corner: a step down and left stays on one. */
  lemma DiagonalLaw(row: nat, col: nat)
    ensures Flips(3, 0, 0) && !Flips(3, 0, 1) && !Flips(3, 0, 2)
    ensures Flips(3, row, col) == Flips(3, row, col + 3) && Flips(3, row + 1, col) == Flips(3, row, col + 1)
  {
    hide Flips;
    MaskThree(0, 0);
    MaskThree(0, 1);
    MaskThree(0, 2);
    MaskThree(row, col);
    MaskThree(row, col + 3);
    MaskThree(row + 1, col);
    MaskThree(row, col + 1);
  }

  /** Mask 4 flips a block of two rows and three columns, then leaves one alone, in both directions. */
  lemma BlockLaw(row: nat, col: nat)
    ensures row < 2 && col < 3 ==> Flips(4, row, col)
    ensures Flips(4, row + 2, col) != Flips(4, row, col) && Flips(4, row, col + 3) != Flips(4, row, col)
  {
    hide Flips;
    MaskFour(row, col);
    MaskFour(row + 2, col);
    MaskFour(row, col + 3);
    assert (row + 2) / 2 == row / 2 + 1 && (col + 3) / 3 == col / 3 + 1;
  }
}
