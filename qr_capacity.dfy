/**
 * Symbol capacities of the QR encoder in main/static/js/qr-code.js: the
 * per-version table of error correction codewords per block, block counts
 * and alignment pattern positions (Tables 1, 9 and E.1 of ISO/IEC 18004),
 * the number of data bits of a symbol (`m`), the width of the character
 * count indicator (`w`, Table 3), the number of characters that fit (`b`)
 * and the automatic choice of the smallest version that holds the data.
 *
 * Error correction levels are the encoder's indices: 0 is M, 1 is L, 2 is
 * H and 3 is Q.
 */
module QrCapacity {

  /** One value per error correction level, in the encoder's index order M, L, H, Q. */
  datatype Levels = Levels(m: nat, l: nat, h: nat, q: nat) {
    function At(e: int): nat {
      if e == 0 then m else if e == 1 then l else if e == 2 then h else q
    }
  }

  /** Error correction codewords per block, number of blocks, and alignment pattern centres. */
  datatype VersionRow = VersionRow(ecWords: Levels, blocks: Levels, alignment: seq<nat>)

  /** The data modes: numeric, alphanumeric, octet (byte) and kanji, with their mode indicators 1, 2, 4 and 8. */
  datatype Mode = Numeric | Alphanumeric | Octet | Kanji {
    function Indicator(): (r: nat)
      ensures r < 16
    {
      match this
      case Numeric => 1
      case Alphanumeric => 2
      case Octet => 4
      case Kanji => 8
    }
  }

  /** The table row of version v. */
  function Row(v: int): VersionRow
    requires 1 <= v <= 40
  {
    if v == 1 then VersionRow(Levels(10, 7, 17, 13), Levels(1, 1, 1, 1), [])
    else if v == 2 then VersionRow(Levels(16, 10, 28, 22), Levels(1, 1, 1, 1), [4, 16])
    else if v == 3 then VersionRow(Levels(26, 15, 22, 18), Levels(1, 1, 2, 2), [4, 20])
    else if v == 4 then VersionRow(Levels(18, 20, 16, 26), Levels(2, 1, 4, 2), [4, 24])
    else if v == 5 then VersionRow(Levels(24, 26, 22, 18), Levels(2, 1, 4, 4), [4, 28])
    else if v == 6 then VersionRow(Levels(16, 18, 28, 24), Levels(4, 2, 4, 4), [4, 32])
    else if v == 7 then VersionRow(Levels(18, 20, 26, 18), Levels(4, 2, 5, 6), [4, 20, 36])
    else if v == 8 then VersionRow(Levels(22, 24, 26, 22), Levels(4, 2, 6, 6), [4, 22, 40])
    else if v == 9 then VersionRow(Levels(22, 30, 24, 20), Levels(5, 2, 8, 8), [4, 24, 44])
    else if v == 10 then VersionRow(Levels(26, 18, 28, 24), Levels(5, 4, 8, 8), [4, 26, 48])
    else if v == 11 then VersionRow(Levels(30, 20, 24, 28), Levels(5, 4, 11, 8), [4, 28, 52])
    else if v == 12 then VersionRow(Levels(22, 24, 28, 26), Levels(8, 4, 11, 10), [4, 30, 56])
    else if v == 13 then VersionRow(Levels(22, 26, 22, 24), Levels(9, 4, 16, 12), [4, 32, 60])
    else if v == 14 then VersionRow(Levels(24, 30, 24, 20), Levels(9, 4, 16, 16), [4, 24, 44, 64])
    else if v == 15 then VersionRow(Levels(24, 22, 24, 30), Levels(10, 6, 18, 12), [4, 24, 46, 68])
    else if v == 16 then VersionRow(Levels(28, 24, 30, 24), Levels(10, 6, 16, 17), [4, 24, 48, 72])
    else if v == 17 then VersionRow(Levels(28, 28, 28, 28), Levels(11, 6, 19, 16), [4, 28, 52, 76])
    else if v == 18 then VersionRow(Levels(26, 30, 28, 28), Levels(13, 6, 21, 18), [4, 28, 54, 80])
    else if v == 19 then VersionRow(Levels(26, 28, 26, 26), Levels(14, 7, 25, 21), [4, 28, 56, 84])
    else if v == 20 then VersionRow(Levels(26, 28, 28, 30), Levels(16, 8, 25, 20), [4, 32, 60, 88])
    else if v == 21 then VersionRow(Levels(26, 28, 30, 28), Levels(17, 8, 25, 23), [4, 26, 48, 70, 92])
    else if v == 22 then VersionRow(Levels(28, 28, 24, 30), Levels(17, 9, 34, 23), [4, 24, 48, 72, 96])
    else if v == 23 then VersionRow(Levels(28, 30, 30, 30), Levels(18, 9, 30, 25), [4, 28, 52, 76, 100])
    else if v == 24 then VersionRow(Levels(28, 30, 30, 30), Levels(20, 10, 32, 27), [4, 26, 52, 78, 104])
    else if v == 25 then VersionRow(Levels(28, 26, 30, 30), Levels(21, 12, 35, 29), [4, 30, 56, 82, 108])
    else if v == 26 then VersionRow(Levels(28, 28, 30, 28), Levels(23, 12, 37, 34), [4, 28, 56, 84, 112])
    else if v == 27 then VersionRow(Levels(28, 30, 30, 30), Levels(25, 12, 40, 34), [4, 32, 60, 88, 116])
    else if v == 28 then VersionRow(Levels(28, 30, 30, 30), Levels(26, 13, 42, 35), [4, 24, 48, 72, 96, 120])
    else if v == 29 then VersionRow(Levels(28, 30, 30, 30), Levels(28, 14, 45, 38), [4, 28, 52, 76, 100, 124])
    else if v == 30 then VersionRow(Levels(28, 30, 30, 30), Levels(29, 15, 48, 40), [4, 24, 50, 76, 102, 128])
    else if v == 31 then VersionRow(Levels(28, 30, 30, 30), Levels(31, 16, 51, 43), [4, 28, 54, 80, 106, 132])
    else if v == 32 then VersionRow(Levels(28, 30, 30, 30), Levels(33, 17, 54, 45), [4, 32, 58, 84, 110, 136])
    else if v == 33 then VersionRow(Levels(28, 30, 30, 30), Levels(35, 18, 57, 48), [4, 28, 56, 84, 112, 140])
    else if v == 34 then VersionRow(Levels(28, 30, 30, 30), Levels(37, 19, 60, 51), [4, 32, 60, 88, 116, 144])
    else if v == 35 then VersionRow(Levels(28, 30, 30, 30), Levels(38, 19, 63, 53), [4, 28, 52, 76, 100, 124, 148])
    else if v == 36 then VersionRow(Levels(28, 30, 30, 30), Levels(40, 20, 66, 56), [4, 22, 48, 74, 100, 126, 152])
    else if v == 37 then VersionRow(Levels(28, 30, 30, 30), Levels(43, 21, 70, 59), [4, 26, 52, 78, 104, 130, 156])
    else if v == 38 then VersionRow(Levels(28, 30, 30, 30), Levels(45, 22, 74, 62), [4, 30, 56, 82, 108, 134, 160])
    else if v == 39 then VersionRow(Levels(28, 30, 30, 30), Levels(47, 24, 77, 65), [4, 24, 52, 80, 108, 136, 164])
    else VersionRow(Levels(28, 30, 30, 30), Levels(49, 25, 81, 68), [4, 28, 56, 84, 112, 140, 168])
  }

  /** Versions 7 and up carry version information. */
  predicate HasVersionInfo(v: int) {
    v > 6
  }

  /** Modules left for data and error correction: the symbol area minus function patterns. */
  function RawBits(v: int): int
    requires 1 <= v <= 40
  {
    var k := |Row(v).alignment|;
    16 * v * v + 128 * v + 64
    - (if HasVersionInfo(v) then 36 else 0)
    - (if k > 0 then 25 * k * k - 10 * k - 55 else 0)
  }

  /** `m(v, e)`: the raw bits rounded down to whole codewords, less the error correction codewords. */
  function DataBits(v: int, e: int): int
    requires 1 <= v <= 40 && 0 <= e < 4
  {
    var n := RawBits(v);
    n - n % 8 - 8 * (Row(v).ecWords.At(e) * Row(v).blocks.At(e))
  }

  /** `w(v, mode)`: bits of the character count indicator (Table 3 of ISO/IEC 18004). */
  function CountWidth(v: int, mode: Mode): (r: nat)
    ensures 8 <= r <= 16
  {
    match mode
    case Numeric => if v < 10 then 10 else if v < 27 then 12 else 14
    case Alphanumeric => if v < 10 then 9 else if v < 27 then 11 else 13
    case Octet => if v < 10 then 8 else 16
    case Kanji => if v < 10 then 8 else if v < 27 then 10 else 12
  }

  /** The number of characters of the mode whose data bits fit in n bits. */
  function FittingChars(mode: Mode, n: int): int {
    match mode
    case Numeric => 3 * (n / 10) + (if n % 10 < 4 then 0 else if n % 10 < 7 then 1 else 2)
    case Alphanumeric => 2 * (n / 11) + (if n % 11 < 6 then 0 else 1)
    case Octet => n / 8
    case Kanji => n / 13
  }

  /** `b(v, mode, e)`: characters that fit after the 4-bit mode indicator and the count indicator. */
  function Capacity(v: int, mode: Mode, e: int): int
    requires 1 <= v <= 40 && 0 <= e < 4
  {
    FittingChars(mode, DataBits(v, e) - 4 - CountWidth(v, mode))
  }

  /**
   * Bits of the data part of a segment of len characters: 10 bits per three
   * digits and 4 or 7 for a trailing one or two; 11 bits per two
   * alphanumeric characters and 6 for a trailing one; 8 per byte; 13 per
   * kanji.
   */
  function PayloadBits(mode: Mode, len: nat): nat {
    match mode
    case Numeric => 10 * (len / 3) + (if len % 3 == 0 then 0 else if len % 3 == 1 then 4 else 7)
    case Alphanumeric => 11 * (len / 2) + 6 * (len % 2)
    case Octet => 8 * len
    case Kanji => 13 * len
  }

  /** Data bits come in whole codewords. */
  lemma DataBitsWholeCodewords(v: int, e: int)
    requires 1 <= v <= 40 && 0 <= e < 4
    ensures DataBits(v, e) % 8 == 0
  {
    RoundedDown(RawBits(v), Row(v).ecWords.At(e) * Row(v).blocks.At(e));
  }

  lemma RoundedDown(n: int, x: int)
    ensures (n - n % 8 - 8 * x) % 8 == 0
  {
    assert n - n % 8 - 8 * x == 8 * (n / 8 - x);
  }

  /** The payload of numeric data grows with its length. */
  lemma PayloadBitsMonotone(mode: Mode, a: nat, b: nat)
    requires a <= b
    ensures PayloadBits(mode, a) <= PayloadBits(mode, b)
  {
  }

  /** FittingChars(mode, n) is the largest length whose payload fits in n >= 0 bits. */
  lemma FittingCharsExact(mode: Mode, n: int, len: nat)
    requires n >= 0
    ensures len <= FittingChars(mode, n) <==> PayloadBits(mode, len) <= n
  {
    var c := FittingChars(mode, n);
    assert c >= 0;
    assert PayloadBits(mode, c) <= n;
    assert PayloadBits(mode, c + 1) > n;
    if len <= c {
      PayloadBitsMonotone(mode, len, c);
    } else {
      PayloadBitsMonotone(mode, c + 1, len);
    }
  }

  /**
   * len characters fit version v at level e exactly when the mode
   * indicator, the count indicator and their payload fit the data bits.
   */
  lemma CapacityMeansFit(v: int, mode: Mode, e: int, len: nat)
    requires 1 <= v <= 40 && 0 <= e < 4
    ensures len <= Capacity(v, mode, e) <==> 4 + CountWidth(v, mode) + PayloadBits(mode, len) <= DataBits(v, e)
  {
    DataBitsBound(v, e);
    FittingCharsExact(mode, DataBits(v, e) - 4 - CountWidth(v, mode), len);
  }

  /**
   * The automatic version choice: the first version from 1 whose capacity
   * holds len characters, or 41 when none of the 40 does.
   */
  method SmallestVersion(len: nat, mode: Mode, e: int) returns (v: int)
    requires 0 <= e < 4
    ensures 1 <= v <= 41
    ensures v <= 40 ==> len <= Capacity(v, mode, e)
    ensures forall u :: 1 <= u < v ==> len > Capacity(u, mode, e)
  {
    v := 1;
    while v <= 40 && !(len <= Capacity(v, mode, e))
      invariant 1 <= v <= 41
      invariant forall u :: 1 <= u < v ==> len > Capacity(u, mode, e)
    {
      v := v + 1;
    }
  }

  /** The most data bits of any level for versions below 10, below 27 and from 27 (versions 9, 26 and 40 at level L). */
  function MaxDataBits(v: int): int {
    if v < 10 then 1856 else if v < 27 then 10960 else 23648
  }

  /**
   * Every version and level has at least 72 data bits, more than a mode and
   * count indicator need, and no more than the largest symbol of its
   * count-width range.
   */
  lemma DataBitsBound(v: int, e: int)
    requires 1 <= v <= 40 && 0 <= e < 4
    ensures 72 <= DataBits(v, e) <= MaxDataBits(v)
  {
    if v <= 5 {
      DataBitsBound1(v, e);
    } else if v <= 10 {
      DataBitsBound6(v, e);
    } else if v <= 15 {
      DataBitsBound11(v, e);
    } else if v <= 18 {
      DataBitsBound16(v, e);
    } else if v <= 20 {
      DataBitsBound19(v, e);
    } else if v <= 22 {
      DataBitsBound21(v, e);
    } else if v <= 24 {
      DataBitsBound23(v, e);
    } else if v <= 26 {
      DataBitsBound25(v, e);
    } else if v <= 28 {
      DataBitsBound27(v, e);
    } else if v <= 30 {
      DataBitsBound29(v, e);
    } else if v <= 32 {
      DataBitsBound31(v, e);
    } else if v <= 34 {
      DataBitsBound33(v, e);
    } else if v <= 36 {
      DataBitsBound35(v, e);
    } else if v <= 38 {
      DataBitsBound37(v, e);
    } else {
      DataBitsBound39(v, e);
    }
  }

  lemma DataBitsBound1(v: int, e: int)
    requires 1 <= v <= 5 && 0 <= e < 4
    ensures 72 <= DataBits(v, e) <= MaxDataBits(v)
  {
    if v == 1 {
    } else if v == 2 {
    } else if v == 3 {
    } else if v == 4 {
    } else if v == 5 {
    }
  }

  lemma DataBitsBound6(v: int, e: int)
    requires 6 <= v <= 10 && 0 <= e < 4
    ensures 72 <= DataBits(v, e) <= MaxDataBits(v)
  {
    if v == 6 {
    } else if v == 7 {
    } else if v == 8 {
    } else if v == 9 {
    } else if v == 10 {
    }
  }

  lemma DataBitsBound11(v: int, e: int)
    requires 11 <= v <= 15 && 0 <= e < 4
    ensures 72 <= DataBits(v, e) <= MaxDataBits(v)
  {
    if v == 11 {
    } else if v == 12 {
    } else if v == 13 {
    } else if v == 14 {
    } else if v == 15 {
    }
  }

  lemma DataBitsBound16(v: int, e: int)
    requires 16 <= v <= 18 && 0 <= e < 4
    ensures 72 <= DataBits(v, e) <= MaxDataBits(v)
  {
    if v == 16 {
    } else if v == 17 {
    } else if v == 18 {
    }
  }

  lemma DataBitsBound19(v: int, e: int)
    requires 19 <= v <= 20 && 0 <= e < 4
    ensures 72 <= DataBits(v, e) <= MaxDataBits(v)
  {
    if v == 19 {
    } else if v == 20 {
    }
  }

  lemma DataBitsBound21(v: int, e: int)
    requires 21 <= v <= 22 && 0 <= e < 4
    ensures 72 <= DataBits(v, e) <= MaxDataBits(v)
  {
    if v == 21 {
    } else if v == 22 {
    }
  }

  lemma DataBitsBound23(v: int, e: int)
    requires 23 <= v <= 24 && 0 <= e < 4
    ensures 72 <= DataBits(v, e) <= MaxDataBits(v)
  {
    if v == 23 {
    } else if v == 24 {
    }
  }

  lemma DataBitsBound25(v: int, e: int)
    requires 25 <= v <= 26 && 0 <= e < 4
    ensures 72 <= DataBits(v, e) <= MaxDataBits(v)
  {
    if v == 25 {
    } else if v == 26 {
    }
  }

  lemma DataBitsBound27(v: int, e: int)
    requires 27 <= v <= 28 && 0 <= e < 4
    ensures 72 <= DataBits(v, e) <= MaxDataBits(v)
  {
    if v == 27 {
    } else if v == 28 {
    }
  }

  lemma DataBitsBound29(v: int, e: int)
    requires 29 <= v <= 30 && 0 <= e < 4
    ensures 72 <= DataBits(v, e) <= MaxDataBits(v)
  {
    if v == 29 {
    } else if v == 30 {
    }
  }

  lemma DataBitsBound31(v: int, e: int)
    requires 31 <= v <= 32 && 0 <= e < 4
    ensures 72 <= DataBits(v, e) <= MaxDataBits(v)
  {
    if v == 31 {
    } else if v == 32 {
    }
  }

  lemma DataBitsBound33(v: int, e: int)
    requires 33 <= v <= 34 && 0 <= e < 4
    ensures 72 <= DataBits(v, e) <= MaxDataBits(v)
  {
    if v == 33 {
    } else if v == 34 {
    }
  }

  lemma DataBitsBound35(v: int, e: int)
    requires 35 <= v <= 36 && 0 <= e < 4
    ensures 72 <= DataBits(v, e) <= MaxDataBits(v)
  {
    if v == 35 {
    } else if v == 36 {
    }
  }

  lemma DataBitsBound37(v: int, e: int)
    requires 37 <= v <= 38 && 0 <= e < 4
    ensures 72 <= DataBits(v, e) <= MaxDataBits(v)
  {
    if v == 37 {
    } else if v == 38 {
    }
  }

  lemma DataBitsBound39(v: int, e: int)
    requires 39 <= v <= 40 && 0 <= e < 4
    ensures 72 <= DataBits(v, e) <= MaxDataBits(v)
  {
    if v == 39 {
    } else if v == 40 {
    }
  }

}
