/** Version tables, level M, of src/lib/paymentQr.ts, and version selection. */
module Versions {
  type Version = v: int | 1 <= v <= 40 witness 1

  /** `EC_BLOCKS_M[version - 1]`. */
  function Blocks(v: Version): nat
  {
    match v
    case 1 => 1 case 2 => 1 case 3 => 1 case 4 => 2 case 5 => 2
    case 6 => 4 case 7 => 4 case 8 => 4 case 9 => 5 case 10 => 5
    case 11 => 5 case 12 => 8 case 13 => 9 case 14 => 9 case 15 => 10
    case 16 => 10 case 17 => 11 case 18 => 13 case 19 => 14 case 20 => 16
    case 21 => 17 case 22 => 17 case 23 => 18 case 24 => 20 case 25 => 21
    case 26 => 23 case 27 => 25 case 28 => 26 case 29 => 28 case 30 => 29
    case 31 => 31 case 32 => 33 case 33 => 35 case 34 => 37 case 35 => 38
    case 36 => 40 case 37 => 43 case 38 => 45 case 39 => 47 case _ => 49
  }

  /** `EC_CODEWORDS_M[version - 1]`. */
  function EcTotal(v: Version): nat
  {
    match v
    case 1 => 10 case 2 => 16 case 3 => 26 case 4 => 36 case 5 => 48
    case 6 => 64 case 7 => 72 case 8 => 88 case 9 => 110 case 10 => 130
    case 11 => 150 case 12 => 176 case 13 => 198 case 14 => 216 case 15 => 240
    case 16 => 280 case 17 => 308 case 18 => 338 case 19 => 364 case 20 => 416
    case 21 => 442 case 22 => 476 case 23 => 504 case 24 => 560 case 25 => 588
    case 26 => 644 case 27 => 700 case 28 => 728 case 29 => 784 case 30 => 812
    case 31 => 868 case 32 => 924 case 33 => 980 case 34 => 1036 case 35 => 1064
    case 36 => 1120 case 37 => 1204 case 38 => 1260 case 39 => 1316 case _ => 1372
  }

  /** `TOTAL_CODEWORDS[version]`. */
  function Total(v: Version): nat
  {
    match v
    case 1 => 26 case 2 => 44 case 3 => 70 case 4 => 100 case 5 => 134
    case 6 => 172 case 7 => 196 case 8 => 242 case 9 => 292 case 10 => 346
    case 11 => 404 case 12 => 466 case 13 => 532 case 14 => 581 case 15 => 655
    case 16 => 733 case 17 => 815 case 18 => 901 case 19 => 991 case 20 => 1085
    case 21 => 1156 case 22 => 1258 case 23 => 1364 case 24 => 1474 case 25 => 1588
    case 26 => 1706 case 27 => 1828 case 28 => 1921 case 29 => 2051 case 30 => 2185
    case 31 => 2323 case 32 => 2465 case 33 => 2611 case 34 => 2761 case 35 => 2876
    case 36 => 3034 case 37 => 3196 case 38 => 3362 case 39 => 3532 case _ => 3706
  }

  function CharCountBits(v: Version): nat { if v < 10 then 8 else 16 }

  /** Bytes of text that fit: what is left after the mode nibble and the character count. */
  function Capacity(v: Version): int
  {
    ((Total(v) - EcTotal(v)) * 8 - 4 - CharCountBits(v)) / 8
  }

  predicate RowIsSound(v: Version)
  {
    && 0 < Blocks(v) <= EcTotal(v) < Total(v)
    && EcTotal(v) % Blocks(v) == 0
    && EcTotal(v) / Blocks(v) <= 512
    && 0 < Capacity(v) < if v < 10 then 256 else 65536
  }

  lemma Rows1To5()
    ensures RowIsSound(1) && RowIsSound(2) && RowIsSound(3) && RowIsSound(4) && RowIsSound(5)
  {
  }

  lemma Rows6To10()
    ensures RowIsSound(6) && RowIsSound(7) && RowIsSound(8) && RowIsSound(9) && RowIsSound(10)
  {
  }

  lemma Rows11To15()
    ensures RowIsSound(11) && RowIsSound(12) && RowIsSound(13) && RowIsSound(14) && RowIsSound(15)
  {
  }

  lemma Rows16To20()
    ensures RowIsSound(16) && RowIsSound(17) && RowIsSound(18) && RowIsSound(19) && RowIsSound(20)
  {
  }

  lemma Rows21To25()
    ensures RowIsSound(21) && RowIsSound(22) && RowIsSound(23) && RowIsSound(24) && RowIsSound(25)
  {
  }

  lemma Rows26To30()
    ensures RowIsSound(26) && RowIsSound(27) && RowIsSound(28) && RowIsSound(29) && RowIsSound(30)
  {
  }

  lemma Rows31To35()
    ensures RowIsSound(31) && RowIsSound(32) && RowIsSound(33) && RowIsSound(34) && RowIsSound(35)
  {
  }

  lemma Rows36To40()
    ensures RowIsSound(36) && RowIsSound(37) && RowIsSound(38) && RowIsSound(39) && RowIsSound(40)
  {
  }

  /** Every row of the three tables is consistent. */
  lemma {:induction false} TablesAreSound(v: Version)
    ensures RowIsSound(v)
  {
    hide RowIsSound;
    Rows1To5();
    Rows6To10();
    Rows11To15();
    Rows16To20();
    Rows21To25();
    Rows26To30();
    Rows31To35();
    Rows36To40();
  }

  datatype Choice = Fits(version: Version) | TooLong

  /** `pickVersion`: the smallest version that holds `length` bytes; the source throws when there is none. */
  method PickVersion(length: nat) returns (r: Choice)
    ensures r.Fits? ==> length <= Capacity(r.version) && forall v: Version | v < r.version :: Capacity(v) < length
    ensures r.TooLong? ==> forall v: Version :: Capacity(v) < length
  {
    hide Capacity;
    for version := 1 to 41
      invariant forall v: Version | v < version :: Capacity(v) < length
    {
      if length <= Capacity(version) {
        return Fits(version);
      }
    }
    return TooLong;
  }
}
