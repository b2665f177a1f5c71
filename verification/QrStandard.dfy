/**
  What ISO/IEC 18004:2015 prescribes in its own tables and pictures, against what the encoder
  computes: capacities, alignment positions, the shapes, and where the bits go.
*/
module QrStandard {
  import opened Versions
  import opened FunctionPatterns

  // ---------------------------------------------------------------- tables

  /** Bytes that fit at level M, by version: Table 7. */
  const BYTE_CAPACITIES_M: seq<nat> :=
    [
      14, 26, 42, 62, 84, 106, 122, 152, 180, 213,
      251, 287, 331, 362, 412, 450, 504, 560, 624, 666,
      711, 779, 857, 911, 997, 1059, 1125, 1190, 1264, 1370,
      1452, 1538, 1628, 1722, 1809, 1911, 1989, 2099, 2213, 2331
    ]

  lemma Capacities1To5(v: Version)
    requires 1 <= v <= 5
    ensures Capacity(v) == BYTE_CAPACITIES_M[v - 1]
  {
    if v == 1 {} else if v == 2 {} else if v == 3 {} else if v == 4 {} else {}
  }

  lemma Capacities6To10(v: Version)
    requires 6 <= v <= 10
    ensures Capacity(v) == BYTE_CAPACITIES_M[v - 1]
  {
    if v == 6 {} else if v == 7 {} else if v == 8 {} else if v == 9 {} else {}
  }

  lemma Capacities11To15(v: Version)
    requires 11 <= v <= 15
    ensures Capacity(v) == BYTE_CAPACITIES_M[v - 1]
  {
    if v == 11 {} else if v == 12 {} else if v == 13 {} else if v == 14 {} else {}
  }

  lemma Capacities16To20(v: Version)
    requires 16 <= v <= 20
    ensures Capacity(v) == BYTE_CAPACITIES_M[v - 1]
  {
    if v == 16 {} else if v == 17 {} else if v == 18 {} else if v == 19 {} else {}
  }

  lemma Capacities21To25(v: Version)
    requires 21 <= v <= 25
    ensures Capacity(v) == BYTE_CAPACITIES_M[v - 1]
  {
    if v == 21 {} else if v == 22 {} else if v == 23 {} else if v == 24 {} else {}
  }

  lemma Capacities26To30(v: Version)
    requires 26 <= v <= 30
    ensures Capacity(v) == BYTE_CAPACITIES_M[v - 1]
  {
    if v == 26 {} else if v == 27 {} else if v == 28 {} else if v == 29 {} else {}
  }

  lemma Capacities31To35(v: Version)
    requires 31 <= v <= 35
    ensures Capacity(v) == BYTE_CAPACITIES_M[v - 1]
  {
    if v == 31 {} else if v == 32 {} else if v == 33 {} else if v == 34 {} else {}
  }

  lemma Capacities36To40(v: Version)
    requires 36 <= v <= 40
    ensures Capacity(v) == BYTE_CAPACITIES_M[v - 1]
  {
    if v == 36 {} else if v == 37 {} else if v == 38 {} else if v == 39 {} else {}
  }

  /** The tables of codewords and the character count give every version the standard's capacity. */
  lemma CapacitiesAreStandard(v: Version)
    ensures Capacity(v) == BYTE_CAPACITIES_M[v - 1]
  {
    hide Capacity;
    if v <= 5 {
      Capacities1To5(v);
    } else if v <= 10 {
      Capacities6To10(v);
    } else if v <= 15 {
      Capacities11To15(v);
    } else if v <= 20 {
      Capacities16To20(v);
    } else if v <= 25 {
      Capacities21To25(v);
    } else if v <= 30 {
      Capacities26To30(v);
    } else if v <= 35 {
      Capacities31To35(v);
    } else {
      Capacities36To40(v);
    }
  }

  /** Row and column coordinates of the alignment patterns, by version: Table E.1. */
  const ALIGNMENT_POSITIONS: seq<seq<nat>> :=
    [
      [], [6, 18], [6, 22], [6, 26], [6, 30],
      [6, 34], [6, 22, 38], [6, 24, 42], [6, 26, 46], [6, 28, 50],
      [6, 30, 54], [6, 32, 58], [6, 34, 62], [6, 26, 46, 66], [6, 26, 48, 70],
      [6, 26, 50, 74], [6, 30, 54, 78], [6, 30, 56, 82], [6, 30, 58, 86], [6, 34, 62, 90],
      [6, 28, 50, 72, 94], [6, 26, 50, 74, 98], [6, 30, 54, 78, 102], [6, 28, 54, 80, 106], [6, 32, 58, 84, 110],
      [6, 30, 58, 86, 114], [6, 34, 62, 90, 118], [6, 26, 50, 74, 98, 122], [6, 30, 54, 78, 102, 126], [6, 26, 52, 78, 104, 130],
      [6, 30, 56, 82, 108, 134], [6, 34, 60, 86, 112, 138], [6, 30, 58, 86, 114, 142], [6, 34, 62, 90, 118, 146], [6, 30, 54, 78, 102, 126, 150],
      [6, 24, 50, 76, 102, 128, 154], [6, 28, 54, 80, 106, 132, 158], [6, 32, 58, 84, 110, 136, 162], [6, 26, 54, 82, 110, 138, 166], [6, 30, 58, 86, 114, 142, 170]
    ]

  lemma Positions1To2(v: Version)
    requires 1 <= v <= 2
    ensures Positions(v) == ALIGNMENT_POSITIONS[v - 1]
  {
    assert Intervals(1) == 8 && Intervals(2) == 12;
    hide Intervals;
    if v == 1 {} else {}
  }

  lemma Positions3To4(v: Version)
    requires 3 <= v <= 4
    ensures Positions(v) == ALIGNMENT_POSITIONS[v - 1]
  {
    assert Intervals(3) == 16 && Intervals(4) == 20;
    hide Intervals;
    if v == 3 {} else {}
  }

  lemma Positions5To6(v: Version)
    requires 5 <= v <= 6
    ensures Positions(v) == ALIGNMENT_POSITIONS[v - 1]
  {
    assert Intervals(5) == 24 && Intervals(6) == 28;
    hide Intervals;
    if v == 5 {} else {}
  }

  lemma Positions7To8(v: Version)
    requires 7 <= v <= 8
    ensures Positions(v) == ALIGNMENT_POSITIONS[v - 1]
  {
    assert Intervals(7) == 16 && Intervals(8) == 18;
    hide Intervals;
    if v == 7 {} else {}
  }

  lemma Positions9To10(v: Version)
    requires 9 <= v <= 10
    ensures Positions(v) == ALIGNMENT_POSITIONS[v - 1]
  {
    assert Intervals(9) == 20 && Intervals(10) == 22;
    hide Intervals;
    if v == 9 {} else {}
  }

  lemma Positions11To12(v: Version)
    requires 11 <= v <= 12
    ensures Positions(v) == ALIGNMENT_POSITIONS[v - 1]
  {
    assert Intervals(11) == 24 && Intervals(12) == 26;
    hide Intervals;
    if v == 11 {} else {}
  }

  lemma Positions13To14(v: Version)
    requires 13 <= v <= 14
    ensures Positions(v) == ALIGNMENT_POSITIONS[v - 1]
  {
    assert Intervals(13) == 28 && Intervals(14) == 20;
    hide Intervals;
    if v == 13 {} else {}
  }

  lemma Positions15To16(v: Version)
    requires 15 <= v <= 16
    ensures Positions(v) == ALIGNMENT_POSITIONS[v - 1]
  {
    assert Intervals(15) == 22 && Intervals(16) == 24;
    hide Intervals;
    if v == 15 {} else {}
  }

  lemma Positions17To18(v: Version)
    requires 17 <= v <= 18
    ensures Positions(v) == ALIGNMENT_POSITIONS[v - 1]
  {
    assert Intervals(17) == 24 && Intervals(18) == 26;
    hide Intervals;
    if v == 17 {} else {}
  }

  lemma Positions19To20(v: Version)
    requires 19 <= v <= 20
    ensures Positions(v) == ALIGNMENT_POSITIONS[v - 1]
  {
    assert Intervals(19) == 28 && Intervals(20) == 28;
    hide Intervals;
    if v == 19 {} else {}
  }

  lemma Positions21To22(v: Version)
    requires 21 <= v <= 22
    ensures Positions(v) == ALIGNMENT_POSITIONS[v - 1]
  {
    assert Intervals(21) == 22 && Intervals(22) == 24;
    hide Intervals;
    if v == 21 {} else {}
  }

  lemma Positions23To24(v: Version)
    requires 23 <= v <= 24
    ensures Positions(v) == ALIGNMENT_POSITIONS[v - 1]
  {
    assert Intervals(23) == 24 && Intervals(24) == 26;
    hide Intervals;
    if v == 23 {} else {}
  }

  lemma Positions25To26(v: Version)
    requires 25 <= v <= 26
    ensures Positions(v) == ALIGNMENT_POSITIONS[v - 1]
  {
    assert Intervals(25) == 26 && Intervals(26) == 28;
    hide Intervals;
    if v == 25 {} else {}
  }

  lemma Positions27To28(v: Version)
    requires 27 <= v <= 28
    ensures Positions(v) == ALIGNMENT_POSITIONS[v - 1]
  {
    assert Intervals(27) == 28 && Intervals(28) == 24;
    hide Intervals;
    if v == 27 {} else {}
  }

  lemma Positions29To30(v: Version)
    requires 29 <= v <= 30
    ensures Positions(v) == ALIGNMENT_POSITIONS[v - 1]
  {
    assert Intervals(29) == 24 && Intervals(30) == 26;
    hide Intervals;
    if v == 29 {} else {}
  }

  lemma Positions31To32(v: Version)
    requires 31 <= v <= 32
    ensures Positions(v) == ALIGNMENT_POSITIONS[v - 1]
  {
    assert Intervals(31) == 26 && Intervals(32) == 26;
    hide Intervals;
    if v == 31 {} else {}
  }

  lemma Positions33To34(v: Version)
    requires 33 <= v <= 34
    ensures Positions(v) == ALIGNMENT_POSITIONS[v - 1]
  {
    assert Intervals(33) == 28 && Intervals(34) == 28;
    hide Intervals;
    if v == 33 {} else {}
  }

  lemma Positions35To36(v: Version)
    requires 35 <= v <= 36
    ensures Positions(v) == ALIGNMENT_POSITIONS[v - 1]
  {
    assert Intervals(35) == 24 && Intervals(36) == 26;
    hide Intervals;
    if v == 35 {} else {}
  }

  lemma Positions37To38(v: Version)
    requires 37 <= v <= 38
    ensures Positions(v) == ALIGNMENT_POSITIONS[v - 1]
  {
    assert Intervals(37) == 26 && Intervals(38) == 26;
    hide Intervals;
    if v == 37 {} else {}
  }

  lemma Positions39To40(v: Version)
    requires 39 <= v <= 40
    ensures Positions(v) == ALIGNMENT_POSITIONS[v - 1]
  {
    assert Intervals(39) == 28 && Intervals(40) == 28;
    hide Intervals;
    if v == 39 {} else {}
  }

  /** The computed coordinates are the standard's for every version. */
  lemma PositionsAreStandard(v: Version)
    ensures Positions(v) == ALIGNMENT_POSITIONS[v - 1]
  {
    hide Positions;
    if v <= 2 {
      Positions1To2(v);
    } else if v <= 4 {
      Positions3To4(v);
    } else if v <= 6 {
      Positions5To6(v);
    } else if v <= 8 {
      Positions7To8(v);
    } else if v <= 10 {
      Positions9To10(v);
    } else if v <= 12 {
      Positions11To12(v);
    } else if v <= 14 {
      Positions13To14(v);
    } else if v <= 16 {
      Positions15To16(v);
    } else if v <= 18 {
      Positions17To18(v);
    } else if v <= 20 {
      Positions19To20(v);
    } else if v <= 22 {
      Positions21To22(v);
    } else if v <= 24 {
      Positions23To24(v);
    } else if v <= 26 {
      Positions25To26(v);
    } else if v <= 28 {
      Positions27To28(v);
    } else if v <= 30 {
      Positions29To30(v);
    } else if v <= 32 {
      Positions31To32(v);
    } else if v <= 34 {
      Positions33To34(v);
    } else if v <= 36 {
      Positions35To36(v);
    } else if v <= 38 {
      Positions37To38(v);
    } else {
      Positions39To40(v);
    }
  }
}
